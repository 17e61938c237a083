/** The CSI controller service (pkg/service/controller.go): volume creation and
    deletion made idempotent by looking the disk up first, and the advertised
    controller capabilities. */
module Controller {
  import opened Wrappers
  import opened Definitions
  import opened K8sStorage
  import opened Engine

  /** A CSI `Volume`: its id and its capacity in bytes (an int64). */
  datatype Volume = Volume(volumeId: string, capacityBytes: int)

  /** A `CreateVolumeRequest`: the volume name, the storage-class parameters and
      the required bytes of its capacity range (`None` when the request has no
      capacity range, which `GetRequiredBytes` reads as 0). */
  datatype CreateVolumeRequest = CreateVolumeRequest(
    name: string,
    parameters: map<string, string>,
    requiredBytes: Option<int>)

  /** The volume a disk stands for. */
  function VolumeOf(d: Disk): (v: Volume)
    ensures v.volumeId == d.id
    ensures d.provisionedSize < TwoTo63 ==> v.capacityBytes == d.provisionedSize
  {
    Volume(d.id, Int64OfUint64(d.provisionedSize))
  }

  /** The thin-provisioning flag the controller asks for: the parameter when it
      spells a boolean, otherwise true. */
  function ThinRequested(params: map<string, string>): bool {
    ParseBoolParam(Param(params, ParameterDiskThinProvisioning), true)
  }

  /** The one POST `CreateVolume` issues when it creates a disk: an unattached,
      read-write disk of the request's name, storage domain and size. */
  function CreateRequest(req: CreateVolumeRequest): Request
    requires IsInt64(req.requiredBytes.GetOr(0))
  {
    var size := Uint64OfInt64(req.requiredBytes.GetOr(0));
    Request(POST, "disks",
            DiskBody(UnattachedPayload(req.name, Param(req.parameters, ParameterStorageDomainName), size),
                     false, ThinRequested(req.parameters)))
  }

  function SearchRequest(name: string): Request {
    Request(GET, DiskSearchPath(name), NoBody)
  }

  /** `CreateVolume`. A failed lookup by name fails with nothing created; exactly
      one disk of that name is reused; with none, or more than one, exactly one
      disk is created and, when the engine accepts it, returned. */
  function CreateVolume(e: Engine, req: CreateVolumeRequest): (r: Got<Volume>)
    requires IsInt64(req.requiredBytes.GetOr(0))
    ensures Answer(e, GET, DiskSearchPath(req.name), Ok).code > 200 ==>
              r.result.Failure? && r.engine == e.(log := e.log + [SearchRequest(req.name)])
    ensures Answer(e, GET, DiskSearchPath(req.name), Ok).code <= 200
            && |DisksNamed(e.disks, req.name)| == 1 ==>
              && r.engine == e.(log := e.log + [SearchRequest(req.name)])
              && r.result == Result.Success(VolumeOf(DisksNamed(e.disks, req.name)[0]))
              && HasDisk(e, r.result.value.volumeId)
    ensures Answer(e, GET, DiskSearchPath(req.name), Ok).code <= 200
            && |DisksNamed(e.disks, req.name)| != 1 ==>
              && r.engine.log == e.log + [SearchRequest(req.name), CreateRequest(req)]
              && (r.result.Success? <==>
                    Answer(e, POST, "disks", if e.freshIds == [] then Exhausted else Created).code <= 300)
              && (r.result.Success? && e.freshIds != [] ==>
                    && r.result.value.volumeId == e.freshIds[0]
                    && exists d :: d in r.engine.disks && d.id == e.freshIds[0] && d.name == req.name
                                   && VolumeOf(d) == r.result.value)
  {
    var found := GetDiskByName(e, req.name);
    match found.result
    case Failure(err) => Got(found.engine, Result.Failure(err))
    case Success(disks) =>
      if |disks| == 1 then
        assert disks[0] in DisksNamed(e.disks, req.name);
        var i :| 0 <= i < |e.disks| && e.disks[i] == disks[0];
        Got(found.engine, Result.Success(VolumeOf(disks[0])))
      else
        var size := Uint64OfInt64(req.requiredBytes.GetOr(0));
        var created := CreateUnattachedDisk(found.engine, req.name,
                                            Param(req.parameters, ParameterStorageDomainName),
                                            size, false, ThinRequested(req.parameters));
        match created.result
        case Failure(err) => Got(created.engine, Result.Failure(err))
        case Success(disk) => Got(created.engine, Result.Success(VolumeOf(disk)))
  }

  /** How many POSTs `CreateVolume` issues: none when the lookup fails or finds
      exactly one disk, otherwise exactly one. */
  lemma CreateVolumeCreatesAtMostOnce(e: Engine, req: CreateVolumeRequest)
    requires IsInt64(req.requiredBytes.GetOr(0))
    ensures var r := CreateVolume(e, req);
            Posts(r.engine.log) - Posts(e.log)
              == (if Answer(e, GET, DiskSearchPath(req.name), Ok).code <= 200
                     && |DisksNamed(e.disks, req.name)| != 1 then 1 else 0)
    ensures Deletes(CreateVolume(e, req).engine.log) == Deletes(e.log)
  {
    var r := CreateVolume(e, req);
    if Answer(e, GET, DiskSearchPath(req.name), Ok).code <= 200 && |DisksNamed(e.disks, req.name)| != 1 {
      CountsOfAppend(e.log, [SearchRequest(req.name), CreateRequest(req)]);
      assert Posts([SearchRequest(req.name), CreateRequest(req)]) == 1 by {
        CountsOfAppend([SearchRequest(req.name)], [CreateRequest(req)]);
        CountsOfOne(SearchRequest(req.name));
        CountsOfOne(CreateRequest(req));
      }
      assert Deletes([SearchRequest(req.name), CreateRequest(req)]) == 0 by {
        CountsOfAppend([SearchRequest(req.name)], [CreateRequest(req)]);
        CountsOfOne(SearchRequest(req.name));
        CountsOfOne(CreateRequest(req));
      }
    } else {
      CountsOfAppend(e.log, [SearchRequest(req.name)]);
      CountsOfOne(SearchRequest(req.name));
    }
  }

  /** Idempotence: on an engine that answers naturally and has no disk of the
      requested name, a repeated `CreateVolume` finds the disk the first call
      created, returns the same volume and creates nothing more. */
  lemma {:induction false} CreateVolumeTwiceCreatesOnce(e: Engine, req: CreateVolumeRequest)
    requires IsInt64(req.requiredBytes.GetOr(0))
    requires e.faults == map[]
    requires DisksNamed(e.disks, req.name) == [] && e.freshIds != []
    ensures var first := CreateVolume(e, req);
            var second := CreateVolume(first.engine, req);
            && first.result.Success?
            && second.result == first.result
            && Posts(second.engine.log) == Posts(first.engine.log) == Posts(e.log) + 1
  {
    var first := CreateVolume(e, req);
    CreateVolumeCreatesAtMostOnce(e, req);
    var size := Uint64OfInt64(req.requiredBytes.GetOr(0));
    var found := GetDiskByName(e, req.name);
    var created := CreateUnattachedDisk(found.engine, req.name,
                                        Param(req.parameters, ParameterStorageDomainName),
                                        size, false, ThinRequested(req.parameters));
    assert first == Got(created.engine, Result.Success(VolumeOf(created.result.value)));
    var disk := created.result.value;
    assert created.engine.disks == e.disks + [disk];
    DisksNamedOfAppend(e.disks, disk, req.name);
    assert first.engine.faults == map[];
    CreateVolumeCreatesAtMostOnce(first.engine, req);
  }

  /** `DeleteVolume`. The disk is probed first: a `NotFound` answer means it is
      already gone and the call succeeds with no delete; any other failed probe
      fails with no delete; otherwise exactly one DELETE of `disks/<id>` is
      issued and its outcome is the call's. */
  function DeleteVolume(e: Engine, volumeId: string): (r: Got<()>)
    ensures var probe := Answer(e, GET, DiskPath(volumeId), if HasDisk(e, volumeId) then Ok else Missing);
            && (probe.code == 404 ==>
                  r.result.Success? && r.engine == e.(log := e.log + [Request(GET, DiskPath(volumeId), NoBody)]))
            && (200 < probe.code && probe.code != 404 ==>
                  r.result.Failure? && r.engine == e.(log := e.log + [Request(GET, DiskPath(volumeId), NoBody)]))
            && (probe.code <= 200 ==>
                  && r.engine.log == e.log + [Request(GET, DiskPath(volumeId), NoBody),
                                              Request(DELETE, DiskPath(volumeId), NoBody)]
                  && (r.result.Success? <==>
                        Answer(e, DELETE, DiskPath(volumeId), if HasDisk(e, volumeId) then Ok else Missing).code <= 200)
                  && (r.result.Success? ==> !HasDisk(r.engine, volumeId)))
  {
    var probed := GetDisk(e, volumeId);
    match probed.result
    case Failure(err) =>
      if err.NotFound? then Got(probed.engine, Result.Success(())) else Got(probed.engine, Result.Failure(err))
    case Success(_) =>
      DeleteDisk(probed.engine, volumeId)
  }

  /** How many DELETEs `DeleteVolume` issues: exactly one when the probe
      succeeds, none otherwise; it never creates anything. */
  lemma DeleteVolumeDeletesAtMostOnce(e: Engine, volumeId: string)
    ensures var r := DeleteVolume(e, volumeId);
            Deletes(r.engine.log) - Deletes(e.log)
              == (if Answer(e, GET, DiskPath(volumeId), if HasDisk(e, volumeId) then Ok else Missing).code <= 200
                  then 1 else 0)
    ensures Posts(DeleteVolume(e, volumeId).engine.log) == Posts(e.log)
  {
    var probe := Request(GET, DiskPath(volumeId), NoBody);
    var delete := Request(DELETE, DiskPath(volumeId), NoBody);
    CountsOfOne(probe);
    CountsOfOne(delete);
    CountsOfAppend([probe], [delete]);
    CountsOfAppend(e.log, [probe]);
    CountsOfAppend(e.log, [probe, delete]);
  }

  /** Idempotence: on an engine that answers naturally, `DeleteVolume` succeeds
      and leaves no disk of that id; it deletes exactly when the disk exists, so
      a repeated call succeeds again and deletes nothing. */
  lemma DeleteVolumeTwiceDeletesOnce(e: Engine, volumeId: string)
    requires e.faults == map[]
    ensures var first := DeleteVolume(e, volumeId);
            var second := DeleteVolume(first.engine, volumeId);
            && first.result.Success? && !HasDisk(first.engine, volumeId)
            && Deletes(first.engine.log) == Deletes(e.log) + (if HasDisk(e, volumeId) then 1 else 0)
            && second.result.Success?
            && Deletes(second.engine.log) == Deletes(first.engine.log)
  {
    var first := DeleteVolume(e, volumeId);
    DeleteVolumeDeletesAtMostOnce(e, volumeId);
    assert first.engine.faults == map[];
    DeleteVolumeDeletesAtMostOnce(first.engine, volumeId);
  }

  /* ---------- Capabilities ---------- */

  datatype RpcType = CreateDeleteVolume | PublishUnpublishVolume

  /** `ControllerCaps`: the RPCs the controller advertises, in order. */
  const ControllerCaps: seq<RpcType> := [CreateDeleteVolume, PublishUnpublishVolume]

  /** A `ControllerServiceCapability` of the RPC kind. */
  datatype Capability = Rpc(rpcType: RpcType)

  /** `ControllerGetCapabilities`: one capability per advertised RPC, in the
      order of `ControllerCaps`. */
  method ControllerGetCapabilities() returns (caps: seq<Capability>)
    ensures |caps| == |ControllerCaps|
    ensures forall i :: 0 <= i < |caps| ==> caps[i] == Rpc(ControllerCaps[i])
  {
    caps := [];
    var n := 0;
    while n < |ControllerCaps|
      invariant n <= |ControllerCaps| && |caps| == n
      invariant forall i :: 0 <= i < n ==> caps[i] == Rpc(ControllerCaps[i])
    {
      caps := caps + [Rpc(ControllerCaps[n])];
      n := n + 1;
    }
  }
}
