/** The external volume provisioner (cmd/ovirt-volume-provisioner/provision.go):
    a claim becomes an unattached engine disk and a flex-volume
    `PersistentVolume` that records the disk id; deleting the volume deletes
    that disk. */
module Provisioner {
  import opened Wrappers
  import opened Definitions
  import opened K8sStorage
  import opened Engine

  const FlexvolumeVendor := "ovirt"
  const FlexvolumeDriver := "ovirt-flexvolume-driver"
  const AnnCreatedBy := "kubernetes.io/createdby"
  const CreatedBy := "ovirt-provisioner"
  /** Written as two literals so that the verifier can read its characters. */
  const AnnVolumeId := "ovirt.external-storage." + "incubator.kubernetes.io/VolumeID"
  const AnnProvisionerId := "Provisioner_Id"

  /** `apis.LabelZoneFailureDomain` of Kubernetes. */
  const LabelZoneFailureDomain := "failure-domain.beta.kubernetes.io/zone"

  const DefaultFsType := "ext4"

  /** The parts of `controller.VolumeOptions` the provisioner reads: the PV name,
      the storage-class parameters, the claim's requested bytes (an int64), its
      reclaim policy and its access modes. */
  datatype VolumeOptions = VolumeOptions(
    pvName: string,
    parameters: map<string, string>,
    requestBytes: int,
    reclaimPolicy: string,
    accessModes: seq<string>)

  datatype FlexVolumeSource = FlexVolumeSource(
    driver: string,
    options: map<string, string>,
    readOnly: bool,
    fsType: string)

  datatype PersistentVolume = PersistentVolume(
    name: string,
    labels: map<string, string>,
    annotations: map<string, string>,
    reclaimPolicy: string,
    accessModes: seq<string>,
    capacityBytes: int,
    flexVolume: FlexVolumeSource)

  /** The file system: the `fsType` parameter, or ext4 when it is absent or empty. */
  function FsTypeOf(params: map<string, string>): (fsType: string)
    ensures fsType != ""
    ensures ParameterFsType in params && params[ParameterFsType] != "" ==> fsType == params[ParameterFsType]
    ensures ParameterFsType !in params || params[ParameterFsType] == "" ==> fsType == DefaultFsType
  {
    if ParameterFsType !in params || params[ParameterFsType] == "" then DefaultFsType
    else params[ParameterFsType]
  }

  /** Thin provisioning: true unless the parameter is present and spells a
      boolean, in which case that boolean. */
  function ThinOf(params: map<string, string>): (thin: bool)
    ensures ParameterDiskThinProvisioning !in params ==> thin
    ensures ParameterDiskThinProvisioning in params ==>
              thin == ParseBool(params[ParameterDiskThinProvisioning]).GetOr(true)
  {
    var thin := true;
    if ParameterDiskThinProvisioning in params then
      match ParseBool(params[ParameterDiskThinProvisioning])
      case Some(b) => b
      case None => thin
    else thin
  }

  /** The provisioner's own parsing of the thin-provisioning parameter agrees
      with the shared `ParseBoolParam` helper the CSI controller uses: a missing
      parameter reads as the empty string, which does not parse. */
  lemma ThinOfAgreesWithParseBoolParam(params: map<string, string>)
    ensures ThinOf(params) == ParseBoolParam(Param(params, ParameterDiskThinProvisioning), true)
  {
    if ParameterDiskThinProvisioning !in params {
      MissingParamGivesDefault(params, ParameterDiskThinProvisioning, true);
    }
  }

  /** The three annotation keys are different strings (their first letters differ). */
  lemma AnnotationKeysDistinct()
    ensures AnnCreatedBy != AnnProvisionerId && AnnCreatedBy != AnnVolumeId && AnnProvisionerId != AnnVolumeId
  {
    assert AnnCreatedBy[0] == 'k';
    assert AnnProvisionerId[0] == 'P';
    assert AnnVolumeId[0] == 'o';
  }

  /** The driver a PV names: `<vendor>/<driver>`. */
  const DriverName := FlexvolumeVendor + "/" + FlexvolumeDriver

  lemma DriverNameSpelledOut()
    ensures DriverName == "ovirt/ovirt-flexvolume-driver"
  {
    var spelled := "ovirt/ovirt-flexvolume-driver";
    assert |DriverName| == |spelled|;
    forall i | 0 <= i < |spelled|
      ensures DriverName[i] == spelled[i]
    {
      if i < |FlexvolumeVendor| {
        assert DriverName[i] == FlexvolumeVendor[i];
      } else if i == |FlexvolumeVendor| {
        assert DriverName[i] == '/';
      } else {
        assert DriverName[i] == FlexvolumeDriver[i - |FlexvolumeVendor| - 1];
      }
    }
  }

  /** The annotations of a provisioned PV: exactly its creator, the provisioner
      id and the disk id. */
  function Annotations(provisionerId: string, diskId: string): (a: map<string, string>)
    ensures a.Keys == {AnnCreatedBy, AnnProvisionerId, AnnVolumeId}
    ensures a[AnnCreatedBy] == CreatedBy
    ensures a[AnnProvisionerId] == provisionerId
    ensures a[AnnVolumeId] == diskId
  {
    AnnotationKeysDistinct();
    map[AnnCreatedBy := CreatedBy, AnnProvisionerId := provisionerId, AnnVolumeId := diskId]
  }

  /** `pvFromDisk`: a flex volume of the ovirt driver, named after the claim's
      PV, annotated with its creator, the provisioner id and the disk id. */
  function PvFromDisk(provisionerId: string, disk: Disk, options: VolumeOptions, fsType: string)
    : (pv: PersistentVolume)
    ensures pv.annotations == Annotations(provisionerId, disk.id)
    ensures pv.labels.Keys == {LabelZoneFailureDomain} && pv.labels[LabelZoneFailureDomain] == ""
    ensures pv.name == options.pvName
    ensures pv.reclaimPolicy == options.reclaimPolicy && pv.accessModes == options.accessModes
    ensures disk.provisionedSize < TwoTo63 ==> pv.capacityBytes == disk.provisionedSize
    ensures pv.flexVolume.driver == DriverName
    ensures pv.flexVolume.options == map[] && !pv.flexVolume.readOnly && pv.flexVolume.fsType == fsType
  {
    PersistentVolume(
      options.pvName, map[LabelZoneFailureDomain := ""], Annotations(provisionerId, disk.id),
      options.reclaimPolicy, options.accessModes,
      Int64OfUint64(disk.provisionedSize),
      FlexVolumeSource(DriverName, map[], false, fsType))
  }

  /** The one POST `Provision` issues: an unattached, read-write disk named
      after the PV, in the parameter's storage domain. */
  function ProvisionRequest(options: VolumeOptions): Request
    requires IsInt64(options.requestBytes)
  {
    Request(POST, "disks",
            DiskBody(UnattachedPayload(options.pvName, Param(options.parameters, ParameterStorageDomainName),
                                       Uint64OfInt64(options.requestBytes)),
                     false, ThinOf(options.parameters)))
  }

  /** `Provision`: exactly one disk creation; its failure is the call's (no PV),
      its success yields the PV of the created disk. */
  function Provision(e: Engine, provisionerId: string, options: VolumeOptions): (r: Got<PersistentVolume>)
    requires IsInt64(options.requestBytes)
    ensures r.engine.log == e.log + [ProvisionRequest(options)]
    ensures r.result.Success? <==>
              Answer(e, POST, "disks", if e.freshIds == [] then Exhausted else Created).code <= 300
    ensures r.result.Failure? ==> r.engine == e.(log := r.engine.log)
    ensures r.result.Success? ==>
              && r.result.value.name == options.pvName
              && r.result.value.annotations.Keys == {AnnCreatedBy, AnnProvisionerId, AnnVolumeId}
              && r.result.value.annotations[AnnProvisionerId] == provisionerId
              && r.result.value.flexVolume.fsType == FsTypeOf(options.parameters)
              && !r.result.value.flexVolume.readOnly
    ensures r.result.Success? && e.freshIds != [] ==>
              && r.result.value.annotations[AnnVolumeId] == e.freshIds[0]
              && HasDisk(r.engine, e.freshIds[0])
  {
    var fsType := FsTypeOf(options.parameters);
    var created := CreateUnattachedDisk(e, options.pvName, Param(options.parameters, ParameterStorageDomainName),
                                        Uint64OfInt64(options.requestBytes), false, ThinOf(options.parameters));
    match created.result
    case Failure(err) => Got(created.engine, Result.Failure(err))
    case Success(disk) =>
      assert e.freshIds != [] ==> HasDisk(created.engine, disk.id) by {
        if e.freshIds != [] {
          HasDiskOfMember(created.engine, disk);
        }
      }
      Got(created.engine, Result.Success(PvFromDisk(provisionerId, disk, options, fsType)))
  }

  /** `Delete`: one DELETE of the disk the PV's volume-id annotation names (the
      empty id when the annotation is missing). */
  function Delete(e: Engine, volume: PersistentVolume): (r: Got<()>)
    ensures r.engine.log == e.log + [Request(DELETE, "disks/" + Param(volume.annotations, AnnVolumeId), NoBody)]
    ensures r.result.Success? ==> !HasDisk(r.engine, Param(volume.annotations, AnnVolumeId))
    ensures r.result.Failure? ==> r.engine == e.(log := r.engine.log)
  {
    DeleteDisk(e, Param(volume.annotations, AnnVolumeId))
  }

  /** Round trip: on an engine that answers naturally, deleting the volume
      `Provision` returned deletes exactly the disk it created, and the disk is
      gone afterwards. */
  lemma ProvisionThenDeleteRemovesTheDisk(e: Engine, provisionerId: string, options: VolumeOptions)
    requires IsInt64(options.requestBytes)
    requires e.faults == map[] && e.freshIds != []
    ensures var p := Provision(e, provisionerId, options);
            && p.result.Success? && HasDisk(p.engine, e.freshIds[0])
            && var d := Delete(p.engine, p.result.value);
               && d.result.Success? && !HasDisk(d.engine, e.freshIds[0])
               && d.engine.log == e.log + [ProvisionRequest(options),
                                           Request(DELETE, DiskPath(e.freshIds[0]), NoBody)]
  {
    var p := Provision(e, provisionerId, options);
    assert p.engine.faults == map[];
  }
}
