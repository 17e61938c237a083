/** The flex-volume driver's callouts (cmd/ovirt-flexdriver/ovirt-flexdriver.go):
    argument dispatch, and the attach, isattached, detach, waitforattach,
    getvolumename and init decision trees over the abstract engine.

    Each callout starts with `newOvirt` (configuration plus authentication); its
    outcome is an input here, carrying the configured VM name on success. The
    JSON decoding of the callout's options is an input too. A Go run-time panic
    (an index or slice out of range) is the reply `Panic`. */
module FlexDriver {
  import opened Wrappers
  import opened Definitions
  import opened DevicePath
  import opened Engine

  /* ---------- Dispatch ---------- */

  const Usage := "Usage:\n"
    + "\tovirt-flexdriver init\n"
    + "\tovirt-flexdriver attach <json params> <nodename>\n"
    + "\tovirt-flexdriver detach <mount device> <nodename>\n"
    + "\tovirt-flexdriver waitforattach <mount device> <json params>\n"
    + "\tovirt-flexdriver mountdevice <mount dir> <mount device> <json params>\n"
    + "\tovirt-flexdriver unmountdevice <mount dir>\n"
    + "\tovirt-flexdriver isattached <json params> <nodename>\n"
    + "\tovirt-flexdriver getvolumename <json params>\n"

  datatype Command =
    | InitCmd
    | AttachCmd(jsonOpts: string, nodeName: string)
    | WaitForAttachCmd(deviceName: string, jsonOpts: string)
    | IsAttachedCmd(jsonOpts: string, nodeName: string)
    | DetachCmd(volumeName: string, nodeName: string)
    | MountDeviceCmd(mountDir: string, mountDevice: string, jsonOpts: string)
    | UnmountDeviceCmd(mountDir: string)
    | GetVolumeNameCmd(jsonOpts: string)

  /** The argument counts (command name included) each callout accepts. */
  predicate Accepts(name: string, count: nat) {
    match name
    case "init" => true
    case "attach" => count >= 3
    case "waitforattach" => count >= 3
    case "isattached" => count >= 3
    case "detach" => count >= 3
    case "mountdevice" => count >= 4
    case "unmountdevice" => count == 2
    case "getvolumename" => count == 2
    case _ => false
  }

  /** The callout name a command answers to, and the arguments it takes. */
  function Name(c: Command): string {
    match c
    case InitCmd => "init"
    case AttachCmd(_, _) => "attach"
    case WaitForAttachCmd(_, _) => "waitforattach"
    case IsAttachedCmd(_, _) => "isattached"
    case DetachCmd(_, _) => "detach"
    case MountDeviceCmd(_, _, _) => "mountdevice"
    case UnmountDeviceCmd(_) => "unmountdevice"
    case GetVolumeNameCmd(_) => "getvolumename"
  }

  function Arguments(c: Command): seq<string> {
    match c
    case InitCmd => []
    case AttachCmd(a, b) => [a, b]
    case WaitForAttachCmd(a, b) => [a, b]
    case IsAttachedCmd(a, b) => [a, b]
    case DetachCmd(a, b) => [a, b]
    case MountDeviceCmd(a, b, c) => [a, b, c]
    case UnmountDeviceCmd(a) => [a]
    case GetVolumeNameCmd(a) => [a]
  }

  /** `App`'s dispatch: the command named by the first argument with its
      positional arguments, or the usage error. Extra arguments are ignored
      where the count is a minimum. */
  function App(args: seq<string>): (r: Result<Command, Error>)
    ensures r.Success? <==> |args| > 0 && Accepts(args[0], |args|)
    ensures r.Failure? ==> r.error == Message(Usage)
    ensures r.Success? ==> (Name(r.value) == args[0]
                            && Arguments(r.value) == args[1..|Arguments(r.value)| + 1])
  {
    if |args| == 0 then Result.Failure(Message(Usage))
    else
      match args[0]
      case "init" => Result.Success(InitCmd)
      case "attach" =>
        if |args| < 3 then Result.Failure(Message(Usage)) else Result.Success(AttachCmd(args[1], args[2]))
      case "waitforattach" =>
        if |args| < 3 then Result.Failure(Message(Usage)) else Result.Success(WaitForAttachCmd(args[1], args[2]))
      case "isattached" =>
        if |args| < 3 then Result.Failure(Message(Usage)) else Result.Success(IsAttachedCmd(args[1], args[2]))
      case "detach" =>
        if |args| < 3 then Result.Failure(Message(Usage)) else Result.Success(DetachCmd(args[1], args[2]))
      case "mountdevice" =>
        if |args| < 4 then Result.Failure(Message(Usage))
        else Result.Success(MountDeviceCmd(args[1], args[2], args[3]))
      case "unmountdevice" =>
        if |args| != 2 then Result.Failure(Message(Usage)) else Result.Success(UnmountDeviceCmd(args[1]))
      case "getvolumename" =>
        if |args| != 2 then Result.Failure(Message(Usage)) else Result.Success(GetVolumeNameCmd(args[1]))
      case _ => Result.Failure(Message(Usage))
  }

  /** The integration tests' usage cases: no arguments, an unknown command, and
      a callout with too few arguments are all refused; `init` takes extras. */
  lemma AppUsageCases()
    ensures App([]) == Result.Failure(Message(Usage))
    ensures App(["foo"]) == Result.Failure(Message(Usage))
    ensures App(["attach", "{}"]) == Result.Failure(Message(Usage))
    ensures App(["getvolumename", "{}", "extra"]) == Result.Failure(Message(Usage))
    ensures App(["init", "extra"]) == Result.Success(InitCmd)
  {
    assert !Accepts("foo", 1);
  }

  /* ---------- Replies ---------- */

  /** A callout's answer: the response and the error returned with it, or a Go
      run-time panic. */
  datatype Reply = Reply(response: Response, err: Option<Error>) | Panic(reason: string)

  datatype Step = Step(engine: Engine, reply: Reply)

  /** The usual error return: the failure response built from the error, and the error. */
  function Fail(err: Error): (r: Reply)
    ensures r.Reply? && r.err == Some(err)
    ensures r.response.status == Status.Failure && r.response.message == ErrorText(err)
  {
    Reply(FailedResponseFromError(err), Some(err))
  }

  /** Every error reply carries a failure response. */
  predicate ErrorsFail(r: Reply) {
    r.Reply? && r.err.Some? ==> r.response.status == Status.Failure
  }

  const IndexOutOfRange := "index out of range"
  const SliceOutOfRange := "slice bounds out of range"

  /** `responseFromDiskAttachment`, which slices the id's first 16 characters. */
  function DeviceReply(a: DiskAttachment): (r: Reply)
    ensures |a.id| < ShortIdLength <==> r.Panic?
    ensures r.Reply? ==> r.err.None? && r.response == ResponseFromDiskAttachment(a.id, a.iface)
  {
    if |a.id| < ShortIdLength then Panic(SliceOutOfRange)
    else Reply(ResponseFromDiskAttachment(a.id, a.iface), None)
  }

  /** The options of an attach-like callout. */
  datatype AttachRequest = AttachRequest(
    storageDomain: string, volumeName: string, size: string, fsType: string, mode: string)

  /* ---------- init ---------- */

  /** `initialize`: the canned failure with the setup error, or success
      announcing attach support. */
  function Init(setup: Result<string, Error>): (r: Reply)
    ensures setup.Failure? ==> r == Reply(FailedResponse, Some(setup.error))
    ensures setup.Success? ==> r.Reply? && r.err.None? && r.response.status == Status.Success
                               && r.response.capabilities.attach == "true"
                               && r.response.(capabilities := NoCapabilities) == SuccessfulResponse
  {
    if setup.Failure? then Reply(FailedResponse, Some(setup.error))
    else Reply(SuccessfulResponse.(capabilities := Capabilities("true")), None)
  }

  /* ---------- attach ---------- */

  function VmMissing(name: string): Error {
    Message("VM " + name + " doesn't exist")
  }

  /** The answer to an attach once the disk's attachment is known: its device
      path, or the unsupported-device failure, with no error. */
  predicate AttachAnswer(r: Reply) {
    r.Reply? && r.err.None? ==>
      (r.response.status == Status.Success && HasPrefix(r.response.device, ByIdDir))
      || r.response == FailedResponseFromError(UnsupportedDevice)
  }

  /** The disk step of `Attach` on a found VM: look the disk up by its engine
      name; create it on the VM when there is none, otherwise fetch its
      existing attachment; answer with the attachment's device path. */
  function AttachDisk(e: Engine, r: AttachRequest, vmId: string): (st: Step)
    ensures ErrorsFail(st.reply) && AttachAnswer(st.reply)
  {
    var name := FromK8sNameToOvirt(r.volumeName);
    var disks := GetDiskByName(e, name);
    if disks.result.Failure? then Step(disks.engine, Fail(disks.result.error))
    else if disks.result.value == [] then
      var created := CreateDisk(disks.engine, name, r.storageDomain, r.mode == "ro", vmId, "", "");
      if created.result.Failure? then Step(created.engine, Fail(created.result.error))
      else Step(created.engine, DeviceReply(created.result.value))
    else
      var fetched := GetDiskAttachment(disks.engine, vmId, disks.result.value[0].id);
      if fetched.result.Failure? then Step(fetched.engine, Fail(fetched.result.error))
      else Step(fetched.engine, DeviceReply(fetched.result.value))
  }

  /** `Attach`: find the VM by node name (a missing VM stops here), then attach
      the disk to it. */
  function Attach(e: Engine, setup: Result<string, Error>, request: Result<AttachRequest, Error>,
                  nodeName: string): (st: Step)
    ensures setup.Failure? ==> st == Step(e, Fail(setup.error))
    ensures setup.Success? && request.Failure? ==> st == Step(e, Reply(FailedResponse, Some(request.error)))
    ensures ErrorsFail(st.reply) && AttachAnswer(st.reply)
  {
    if setup.Failure? then Step(e, Fail(setup.error))
    else if request.Failure? then Step(e, Reply(FailedResponse, Some(request.error)))
    else
      var vm := GetVM(e, nodeName);
      if vm.result.Failure? then Step(vm.engine, Fail(vm.result.error))
      else if vm.result.value.id == "" then Step(vm.engine, Fail(VmMissing(nodeName)))
      else AttachDisk(vm.engine, request.value, vm.result.value.id)
  }

  /** A VM with an empty id (the zero VM the name search gives when it finds
      none, or any VM the engine reports without an id) stops the attach before
      any disk lookup. */
  lemma AttachRejectsMissingVm(e: Engine, setup: Result<string, Error>, request: Result<AttachRequest, Error>,
                               nodeName: string)
    requires setup.Success? && request.Success?
    requires GetVM(e, nodeName).result.Success? && GetVM(e, nodeName).result.value.id == ""
    ensures Attach(e, setup, request, nodeName)
            == Step(Issue(e, Request(GET, VmSearchPath(nodeName), NoBody)), Fail(VmMissing(nodeName)))
  {
  }

  /** Once the disk search answers, the disk step issues exactly one create
      when no disk has the name, and otherwise only the attachment fetch. */
  lemma {:induction false} AttachDiskCreatesOnlyMissing(e: Engine, r: AttachRequest, vmId: string)
    requires GetDiskByName(e, FromK8sNameToOvirt(r.volumeName)).result.Success?
    ensures var name := FromK8sNameToOvirt(r.volumeName);
            var disks := GetDiskByName(e, name).result.value;
            var st := AttachDisk(e, r, vmId);
            && Posts(st.engine.log) == Posts(e.log) + (if disks == [] then 1 else 0)
            && Deletes(st.engine.log) == Deletes(e.log)
            && (disks == [] ==>
                  st.engine.log[|st.engine.log| - 1]
                  == Request(POST, CreateAttachmentPath(vmId),
                             AttachmentBody(AttachmentPayload(name, r.storageDomain, r.mode == "ro", "", ""))))
            && (disks != [] ==>
                  ReadOnly(e, st.engine)
                  && st.engine.log[|st.engine.log| - 1] == Request(GET, AttachmentPath(vmId, disks[0].id), NoBody))
  {
    var name := FromK8sNameToOvirt(r.volumeName);
    var d := GetDiskByName(e, name);
    ReadOnlyIssue(e, DiskSearchPath(name));
    ReadOnlyCounts(e, d.engine);
    var st := AttachDisk(e, r, vmId);
    if d.result.value == [] {
      var create := Request(POST, CreateAttachmentPath(vmId),
                            AttachmentBody(AttachmentPayload(name, r.storageDomain, r.mode == "ro", "", "")));
      assert st.engine.log == d.engine.log + [create];
      CountsOfAppend(d.engine.log, [create]);
      CountsOfOne(create);
    } else {
      var path := AttachmentPath(vmId, d.result.value[0].id);
      ReadOnlyIssue(d.engine, path);
      ReadOnlyTrans(e, d.engine, st.engine);
      ReadOnlyCounts(e, st.engine);
    }
  }

  /** Once the VM is found and the disk search answers, the attach issues
      exactly one create when no disk has the name, and otherwise only the
      attachment fetch, never a create. */
  lemma {:induction false} AttachCreatesOnlyMissingDisk(e: Engine, setup: Result<string, Error>,
                                                         request: Result<AttachRequest, Error>, nodeName: string)
    requires setup.Success? && request.Success?
    requires GetVM(e, nodeName).result.Success? && GetVM(e, nodeName).result.value.id != ""
    requires GetDiskByName(GetVM(e, nodeName).engine, FromK8sNameToOvirt(request.value.volumeName)).result.Success?
    ensures var vm := GetVM(e, nodeName);
            var disks := GetDiskByName(vm.engine, FromK8sNameToOvirt(request.value.volumeName)).result.value;
            var st := Attach(e, setup, request, nodeName);
            && Posts(st.engine.log) == Posts(e.log) + (if disks == [] then 1 else 0)
            && Deletes(st.engine.log) == Deletes(e.log)
  {
    var vm := GetVM(e, nodeName);
    ReadOnlyIssue(e, VmSearchPath(nodeName));
    ReadOnlyCounts(e, vm.engine);
    AttachDiskCreatesOnlyMissing(vm.engine, request.value, vm.result.value.id);
  }

  /** Whatever the engine answers, an attach never deletes and creates at most once. */
  lemma {:induction false} AttachCreatesAtMostOnce(e: Engine, setup: Result<string, Error>,
                                                    request: Result<AttachRequest, Error>, nodeName: string)
    ensures var st := Attach(e, setup, request, nodeName);
            Posts(st.engine.log) <= Posts(e.log) + 1 && Deletes(st.engine.log) == Deletes(e.log)
  {
    var st := Attach(e, setup, request, nodeName);
    if setup.Success? && request.Success? {
      var vm := GetVM(e, nodeName);
      ReadOnlyIssue(e, VmSearchPath(nodeName));
      ReadOnlyCounts(e, vm.engine);
      if vm.result.Success? && vm.result.value.id != "" {
        var name := FromK8sNameToOvirt(request.value.volumeName);
        var d := GetDiskByName(vm.engine, name);
        if d.result.Success? {
          AttachCreatesOnlyMissingDisk(e, setup, request, nodeName);
        } else {
          ReadOnlyIssue(vm.engine, DiskSearchPath(name));
          ReadOnlyCounts(vm.engine, d.engine);
        }
      }
    }
  }

  /** `CreateDisk` defaults the interface to `virtio_scsi`, which has no device
      path: an attach that creates the disk answers the unsupported-device
      failure, with no error. */
  lemma AttachCreateAnswersUnsupported(e: Engine, setup: Result<string, Error>,
                                       request: Result<AttachRequest, Error>, nodeName: string)
    requires setup.Success? && request.Success?
    requires GetVM(e, nodeName).result.Success? && GetVM(e, nodeName).result.value.id != ""
    requires var vm := GetVM(e, nodeName);
             var disks := GetDiskByName(vm.engine, FromK8sNameToOvirt(request.value.volumeName));
             && disks.result == Result.Success([])
             && vm.result.value.id in disks.engine.attachments
             && disks.engine.freshIds != [] && |disks.engine.freshIds[0]| >= ShortIdLength
             && (POST, CreateAttachmentPath(vm.result.value.id)) !in disks.engine.faults
    ensures Attach(e, setup, request, nodeName).reply == Reply(FailedResponseFromError(UnsupportedDevice), None)
  {
  }

  /** The engine's next fresh id is not the id of any attachment of the VM. */
  predicate FreshFor(e: Engine, vmId: string)
    requires e.freshIds != [] && vmId in e.attachments
  {
    forall i :: 0 <= i < |e.attachments[vmId]| ==> e.attachments[vmId][i].id != e.freshIds[0]
  }

  /** The engine after an attach that created the disk: the VM search still
      finds the same VM, the disk search finds exactly the created disk, and the
      VM has the created attachment. */
  lemma {:induction false} AfterCreate(e: Engine, r: AttachRequest, vmId: string)
    requires e.faults == map[] && vmId in e.attachments && e.freshIds != []
    requires FreshFor(e, vmId)
    requires DisksNamed(e.disks, FromK8sNameToOvirt(r.volumeName)) == []
    ensures var name := FromK8sNameToOvirt(r.volumeName);
            var created := CreateDisk(e, name, r.storageDomain, r.mode == "ro", vmId, "", "");
            && created.result.Success?
            && created.engine.vms == e.vms && created.engine.faults == map[]
            && created.engine.clock == e.clock && created.engine.activeFrom == e.activeFrom
            && DisksNamed(created.engine.disks, name) == [created.result.value.disk]
            && created.result.value.disk.id == created.result.value.id
            && vmId in created.engine.attachments
            && FindAttachment(created.engine.attachments[vmId], created.result.value.id)
               == Some(created.result.value)
  {
    var name := FromK8sNameToOvirt(r.volumeName);
    var created := CreateDisk(e, name, r.storageDomain, r.mode == "ro", vmId, "", "");
    var att := created.result.value;
    assert created.engine.disks == e.disks + [att.disk];
    DisksNamedOfAppend(e.disks, att.disk, name);
    FindAttachmentOfAppend(e.attachments[vmId], att);
  }

  /** Attaching twice: when the first attach created the disk, a second attach
      of the same volume to the same node finds that disk and its attachment,
      creates nothing, and answers exactly as the first did. */
  lemma {:induction false} AttachTwiceCreatesOnce(e: Engine, setup: Result<string, Error>,
                                                  request: Result<AttachRequest, Error>, nodeName: string)
    requires setup.Success? && request.Success?
    requires e.faults == map[]
    requires FirstVmNamed(e.vms, nodeName).Some? && FirstVmNamed(e.vms, nodeName).value.id != ""
    requires FirstVmNamed(e.vms, nodeName).value.id in e.attachments
    requires DisksNamed(e.disks, FromK8sNameToOvirt(request.value.volumeName)) == []
    requires e.freshIds != [] && FreshFor(e, FirstVmNamed(e.vms, nodeName).value.id)
    ensures var first := Attach(e, setup, request, nodeName);
            var second := Attach(first.engine, setup, request, nodeName);
            && Posts(first.engine.log) == Posts(e.log) + 1
            && Posts(second.engine.log) == Posts(first.engine.log)
            && second.reply == first.reply
  {
    var r := request.value;
    var name := FromK8sNameToOvirt(r.volumeName);
    var vm := GetVM(e, nodeName);
    var vmId := vm.result.value.id;
    var d := GetDiskByName(vm.engine, name);
    AttachCreatesOnlyMissingDisk(e, setup, request, nodeName);
    AfterCreate(d.engine, r, vmId);
    var created := CreateDisk(d.engine, name, r.storageDomain, r.mode == "ro", vmId, "", "");
    var first := Attach(e, setup, request, nodeName);
    assert first == AttachDisk(vm.engine, r, vmId);
    assert first == Step(created.engine, DeviceReply(created.result.value));
    var att := created.result.value;
    var e1 := first.engine;
    var vm2 := GetVM(e1, nodeName);
    assert vm2.result == vm.result;
    AttachCreatesOnlyMissingDisk(e1, setup, request, nodeName);
    var d2 := GetDiskByName(vm2.engine, name);
    assert d2.result.value == [att.disk];
    var g := GetDiskAttachment(d2.engine, vmId, att.disk.id);
    assert g.result == Result.Success(Observed(d2.engine, att));
    assert Attach(e1, setup, request, nodeName) == AttachDisk(vm2.engine, r, vmId);
  }

  lemma {:induction false} FindAttachmentOfAppend(list: seq<DiskAttachment>, a: DiskAttachment)
    requires FindAttachment(list, a.id).None?
    ensures FindAttachment(list + [a], a.id) == Some(a)
    decreases |list|
  {
    if list != [] {
      assert (list + [a])[1..] == list[1..] + [a];
      FindAttachmentOfAppend(list[1..], a);
    }
  }

  /* ---------- isattached ---------- */

  /** `IsAttached`: success with `attached` "true" exactly when the fetched
      attachment has an id. With no disk of that name the Go code indexes an
      empty list. It only reads. */
  function IsAttached(e: Engine, setup: Result<string, Error>, request: Result<AttachRequest, Error>,
                      nodeName: string): (st: Step)
    ensures setup.Failure? ==> st == Step(e, Fail(setup.error))
    ensures setup.Success? && request.Failure? ==> st == Step(e, Reply(FailedResponse, Some(request.error)))
    ensures ErrorsFail(st.reply)
    ensures st.reply.Reply? && st.reply.err.None? ==>
              st.reply.response.(attached := "") == SuccessfulResponse
              && st.reply.response.attached in {"true", "false"}
    ensures ReadOnly(e, st.engine) && st.engine.clock == e.clock
  {
    ReadOnlyRefl(e);
    if setup.Failure? then Step(e, Fail(setup.error))
    else if request.Failure? then Step(e, Reply(FailedResponse, Some(request.error)))
    else
      var vm := GetVM(e, nodeName);
      ReadOnlyIssue(e, VmSearchPath(nodeName));
      if vm.result.Failure? then Step(vm.engine, Fail(vm.result.error))
      else if vm.result.value.id == "" then Step(vm.engine, Fail(VmMissing(nodeName)))
      else
        var name := FromK8sNameToOvirt(request.value.volumeName);
        var disks := GetDiskByName(vm.engine, name);
        ReadOnlyIssue(vm.engine, DiskSearchPath(name));
        ReadOnlyTrans(e, vm.engine, disks.engine);
        if disks.result.Failure? then Step(disks.engine, Fail(disks.result.error))
        else if disks.result.value == [] then Step(disks.engine, Panic(IndexOutOfRange))
        else
          var diskId := disks.result.value[0].id;
          var fetched := GetDiskAttachment(disks.engine, vm.result.value.id, diskId);
          ReadOnlyIssue(disks.engine, AttachmentPath(vm.result.value.id, diskId));
          ReadOnlyTrans(e, disks.engine, fetched.engine);
          if fetched.result.Failure? then Step(fetched.engine, Fail(fetched.result.error))
          else
            var attached := if fetched.result.value.id != "" then "true" else "false";
            Step(fetched.engine, Reply(SuccessfulResponse.(attached := attached), None))
  }

  /** An attachment that exists answers "true"; one the engine does not have
      is its 404, an error rather than "false". */
  lemma IsAttachedAnswers(e: Engine, setup: Result<string, Error>, request: Result<AttachRequest, Error>,
                          nodeName: string)
    requires setup.Success? && request.Success?
    requires GetVM(e, nodeName).result.Success? && GetVM(e, nodeName).result.value.id != ""
    requires var vm := GetVM(e, nodeName);
             var disks := GetDiskByName(vm.engine, FromK8sNameToOvirt(request.value.volumeName));
             && disks.result.Success? && disks.result.value != []
             && (GET, AttachmentPath(vm.result.value.id, disks.result.value[0].id)) !in disks.engine.faults
    ensures var vm := GetVM(e, nodeName);
            var disks := GetDiskByName(vm.engine, FromK8sNameToOvirt(request.value.volumeName));
            var vmId := vm.result.value.id;
            var diskId := disks.result.value[0].id;
            var r := IsAttached(e, setup, request, nodeName).reply;
            && (HasAttachment(e, vmId, diskId) && diskId != "" ==>
                  r == Reply(SuccessfulResponse.(attached := "true"), None))
            && (!HasAttachment(e, vmId, diskId) ==> r == Fail(NotFound(MiniApi.UrlPath(e.apiPath, AttachmentPath(vmId, diskId)))))
  {
  }

  /** With no disk of the volume's name, `IsAttached` indexes an empty result list. */
  lemma IsAttachedNoDiskPanics(e: Engine, setup: Result<string, Error>, request: Result<AttachRequest, Error>,
                               nodeName: string)
    requires setup.Success? && request.Success?
    requires GetVM(e, nodeName).result.Success? && GetVM(e, nodeName).result.value.id != ""
    requires GetDiskByName(GetVM(e, nodeName).engine, FromK8sNameToOvirt(request.value.volumeName)).result
             == Result.Success([])
    ensures IsAttached(e, setup, request, nodeName).reply == Panic(IndexOutOfRange)
  {
  }

  /* ---------- detach ---------- */

  /** The engine step of `Detach`: look up the node's VM and the disk, and
      delete the one attachment. The VM search result is not checked: a missing
      VM leaves an empty id in the delete path. */
  function DetachDisk(e: Engine, vmName: string, diskName: string): (st: Step)
    ensures ErrorsFail(st.reply)
    ensures st.reply.Reply? && st.reply.err.None? ==> st.reply.response == SuccessfulResponse
  {
    var vm := GetVM(e, vmName);
    if vm.result.Failure? then Step(vm.engine, Fail(vm.result.error))
    else
      var disks := GetDiskByName(vm.engine, diskName);
      if disks.result.Failure? then Step(disks.engine, Fail(disks.result.error))
      else if disks.result.value == [] then
        Step(disks.engine, Fail(Message("Disk by name " + diskName + " does not exist")))
      else
        var gone := DetachDiskFromVM(disks.engine, vm.result.value.id, disks.result.value[0].id);
        if gone.result.Failure? then Step(gone.engine, Fail(gone.result.error))
        else Step(gone.engine, Reply(SuccessfulResponse, None))
  }

  /** `Detach`: empty names are refused before anything else; the node name is
      mapped to a VM name (that lookup is an input here) and the disk step runs
      on the engine name of the volume. */
  function Detach(e: Engine, setup: Result<string, Error>, vmName: Result<string, Error>,
                  volumeName: string, nodeName: string): (st: Step)
    ensures nodeName == "" ==> st == Step(e, Fail(Message("Invalid node name ''")))
    ensures nodeName != "" && volumeName == "" ==> st == Step(e, Fail(Message("Invalid volume name ''")))
    ensures ErrorsFail(st.reply)
    ensures st.reply.Reply? && st.reply.err.None? ==> st.reply.response == SuccessfulResponse
  {
    if nodeName == "" then Step(e, Fail(Message("Invalid node name ''")))
    else if volumeName == "" then Step(e, Fail(Message("Invalid volume name ''")))
    else if setup.Failure? then Step(e, Fail(setup.error))
    else if vmName.Failure? then Step(e, Fail(vmName.error))
    else DetachDisk(e, vmName.value, FromK8sNameToOvirt(volumeName))
  }

  /** Once the VM and disk searches answer and a disk has the name, the detach
      issues exactly one delete, of the VM's attachment of the first such disk. */
  lemma {:induction false} DetachDeletesOneAttachment(e: Engine, setup: Result<string, Error>,
                                                      vmName: Result<string, Error>, volumeName: string,
                                                      nodeName: string)
    requires nodeName != "" && volumeName != "" && setup.Success? && vmName.Success?
    requires GetVM(e, vmName.value).result.Success?
    requires var disks := GetDiskByName(GetVM(e, vmName.value).engine, FromK8sNameToOvirt(volumeName));
             disks.result.Success? && disks.result.value != []
    ensures var vm := GetVM(e, vmName.value);
            var disks := GetDiskByName(vm.engine, FromK8sNameToOvirt(volumeName));
            var st := Detach(e, setup, vmName, volumeName, nodeName);
            && Deletes(st.engine.log) == Deletes(e.log) + 1
            && Posts(st.engine.log) == Posts(e.log)
            && st.engine.log[|st.engine.log| - 1]
               == Request(DELETE, AttachmentPath(vm.result.value.id, disks.result.value[0].id), NoBody)
  {
    var vm := GetVM(e, vmName.value);
    var name := FromK8sNameToOvirt(volumeName);
    var d := GetDiskByName(vm.engine, name);
    ReadOnlyIssue(e, VmSearchPath(vmName.value));
    ReadOnlyIssue(vm.engine, DiskSearchPath(name));
    ReadOnlyTrans(e, vm.engine, d.engine);
    ReadOnlyCounts(e, d.engine);
    var delete := Request(DELETE, AttachmentPath(vm.result.value.id, d.result.value[0].id), NoBody);
    var st := Detach(e, setup, vmName, volumeName, nodeName);
    assert st.engine.log == d.engine.log + [delete];
    CountsOfAppend(d.engine.log, [delete]);
    CountsOfOne(delete);
  }

  /** No disk with the name: the detach fails and only reads. */
  lemma DetachMissingDiskDeletesNothing(e: Engine, setup: Result<string, Error>, vmName: Result<string, Error>,
                                        volumeName: string, nodeName: string)
    requires nodeName != "" && volumeName != "" && setup.Success? && vmName.Success?
    requires GetVM(e, vmName.value).result.Success?
    requires GetDiskByName(GetVM(e, vmName.value).engine, FromK8sNameToOvirt(volumeName)).result
             == Result.Success([])
    ensures var st := Detach(e, setup, vmName, volumeName, nodeName);
            && st.reply == Fail(Message("Disk by name " + FromK8sNameToOvirt(volumeName) + " does not exist"))
            && ReadOnly(e, st.engine)
  {
    var vm := GetVM(e, vmName.value);
    ReadOnlyIssue(e, VmSearchPath(vmName.value));
    ReadOnlyIssue(vm.engine, DiskSearchPath(FromK8sNameToOvirt(volumeName)));
    ReadOnlyTrans(e, vm.engine, Detach(e, setup, vmName, volumeName, nodeName).engine);
  }

  /* ---------- waitforattach ---------- */

  /** The last attachment whose disk id starts with the given (short) id. */
  function LastMatch(list: seq<DiskAttachment>, id: string): (r: Option<DiskAttachment>)
    ensures r.None? <==> forall i :: 0 <= i < |list| ==> !HasPrefix(list[i].disk.id, id)
    ensures r.Some? ==> exists i :: 0 <= i < |list| && list[i] == r.value && HasPrefix(list[i].disk.id, id)
                                  && forall j :: i < j < |list| ==> !HasPrefix(list[j].disk.id, id)
    decreases |list|
  {
    if list == [] then None
    else
      var n := |list| - 1;
      if HasPrefix(list[n].disk.id, id) then Some(list[n])
      else
        var r := LastMatch(list[..n], id);
        if r.Some? then
          ghost var i :| 0 <= i < n && list[..n][i] == r.value && HasPrefix(list[..n][i].disk.id, id)
                         && forall j :: i < j < n ==> !HasPrefix(list[..n][j].disk.id, id);
          assert list[i] == r.value;
          r
        else
          assert forall i :: 0 <= i < n ==> list[..n][i] == list[i];
          r
  }

  /** The budget of re-fetches while waiting for an attachment to become active. */
  const PollBudget: nat := 5

  datatype Polled = Polled(engine: Engine, result: Result<DiskAttachment, Error>, polls: nat)

  /** The poll of `WaitForAttach`, as a reference definition: while budget remains
      and the attachment is not active, wait one interval and re-fetch it, by the
      configured VM name and the attachment's id. */
  function Poll(e: Engine, vmName: string, a: DiskAttachment, budget: nat): (r: Polled)
    ensures r.polls <= budget
    ensures ReadOnly(e, r.engine)
    ensures r.engine.clock == e.clock + r.polls && |r.engine.log| == |e.log| + r.polls
    ensures a.active || budget == 0 ==> r == Polled(e, Result.Success(a), 0)
    ensures r.result.Success? && r.polls < budget ==> r.result.value.active
    ensures r.result.Failure? ==> r.polls > 0
    decreases budget
  {
    if budget == 0 || a.active then ReadOnlyRefl(e); Polled(e, Result.Success(a), 0)
    else
      var waited := e.(clock := e.clock + 1);
      var g := GetDiskAttachment(waited, vmName, a.id);
      ReadOnlyIssue(waited, AttachmentPath(vmName, a.id));
      ReadOnlyTrans(e, waited, g.engine);
      if g.result.Failure? then Polled(g.engine, g.result, 1)
      else
        var r := Poll(g.engine, vmName, g.result.value, budget - 1);
        ReadOnlyTrans(e, g.engine, r.engine);
        Polled(r.engine, r.result, r.polls + 1)
  }

  /** The poll written as the Go loop: it computes the reference poll. */
  method PollLoop(e: Engine, vmName: string, start: DiskAttachment, budget: nat) returns (r: Polled)
    ensures r == Poll(e, vmName, start, budget)
  {
    var engine := e;
    var attachment := start;
    var retries: nat := budget;
    var polls := 0;
    while retries > 0
      invariant retries <= budget
      invariant var p := Poll(engine, vmName, attachment, retries);
                Poll(e, vmName, start, budget) == Polled(p.engine, p.result, p.polls + polls)
      decreases retries
    {
      if attachment.active {
        break;
      }
      engine := engine.(clock := engine.clock + 1);
      var g := GetDiskAttachment(engine, vmName, attachment.id);
      engine := g.engine;
      if g.result.Failure? {
        return Polled(engine, g.result, polls + 1);
      }
      attachment := g.result.value;
      retries := retries - 1;
      polls := polls + 1;
    }
    return Polled(engine, Result.Success(attachment), polls);
  }

  /** The poll re-fetches by VM name where the engine path takes a VM id: unless
      some VM id equals that name, the first re-fetch of an inactive attachment
      is a 404. */
  lemma PollByNameIsNotFound(e: Engine, vmName: string, a: DiskAttachment, budget: nat)
    requires budget > 0 && !a.active
    requires vmName !in e.attachments
    requires (GET, AttachmentPath(vmName, a.id)) !in e.faults
    ensures Poll(e, vmName, a, budget).result == Result.Failure(NotFound(MiniApi.UrlPath(e.apiPath, AttachmentPath(vmName, a.id))))
    ensures Poll(e, vmName, a, budget).polls == 1
  {
  }

  /** An attachment the engine keeps inactive past the budget: every re-fetch
      succeeds, the budget runs out, and the poll still ends without error. */
  lemma {:induction false} PollExhaustsBudget(e: Engine, vmName: string, a: DiskAttachment, budget: nat)
    requires !a.active && vmName in e.attachments
    requires FindAttachment(e.attachments[vmName], a.id) == Some(a)
    requires a.id !in e.activeFrom
    requires (GET, AttachmentPath(vmName, a.id)) !in e.faults
    ensures Poll(e, vmName, a, budget).result == Result.Success(a)
    ensures Poll(e, vmName, a, budget).polls == budget
    decreases budget
  {
    if budget > 0 {
      var waited := e.(clock := e.clock + 1);
      var g := GetDiskAttachment(waited, vmName, a.id);
      assert g.result == Result.Success(a);
      PollExhaustsBudget(g.engine, vmName, a, budget - 1);
    }
  }

  function NotFoundById(id: string): Error {
    Message("Disk with id '" + id + "' was not found")
  }

  /** The engine step of `WaitForAttach`: list the configured VM's attachments,
      take the last whose disk id starts with the short id, and poll it. */
  function WaitOnVm(e: Engine, vmName: string, id: string): (st: Step)
    ensures ErrorsFail(st.reply)
    ensures st.reply.Reply? && st.reply.err.None? ==> st.reply.response == SuccessfulResponse
    ensures ReadOnly(e, st.engine) && st.engine.clock <= e.clock + PollBudget
  {
    var vm := GetVM(e, vmName);
    ReadOnlyIssue(e, VmSearchPath(vmName));
    if vm.result.Failure? then Step(vm.engine, Fail(vm.result.error))
    else
      var listed := GetDiskAttachments(vm.engine, vm.result.value.id);
      ReadOnlyIssue(vm.engine, AttachmentsPath(vm.result.value.id));
      ReadOnlyTrans(e, vm.engine, listed.engine);
      if listed.result.Failure? then Step(listed.engine, Fail(listed.result.error))
      else
        var attachment := LastMatch(listed.result.value, id).GetOr(ZeroAttachment);
        if attachment.id == "" then Step(listed.engine, Fail(NotFoundById(id)))
        else
          var p := Poll(listed.engine, vmName, attachment, PollBudget);
          ReadOnlyTrans(e, listed.engine, p.engine);
          if p.result.Failure? then Step(p.engine, Fail(p.result.error))
          else Step(p.engine, Reply(SuccessfulResponse, None))
  }

  /** `WaitForAttach`: read the short id from the device path and wait on the
      configured VM. Only a failed request or a missing match is an error; the
      answer is success whether or not the attachment became active. */
  function WaitForAttach(e: Engine, setup: Result<string, Error>, deviceName: string): (st: Step)
    ensures setup.Failure? ==> st == Step(e, Fail(setup.error))
    ensures setup.Success? && deviceName != "" && !HasField(deviceName) ==> st == Step(e, Panic(IndexOutOfRange))
    ensures ErrorsFail(st.reply)
    ensures st.reply.Reply? && st.reply.err.None? ==> st.reply.response == SuccessfulResponse
    ensures ReadOnly(e, st.engine) && st.engine.clock <= e.clock + PollBudget
  {
    ReadOnlyRefl(e);
    if setup.Failure? then Step(e, Fail(setup.error))
    else if deviceName != "" && !HasField(deviceName) then Step(e, Panic(IndexOutOfRange))
    else WaitOnVm(e, setup.value, ExtractDeviceId(deviceName))
  }

  /** The loop form of `WaitForAttach`: the same answer and engine, with the
      poll run as the bounded Go loop. */
  method WaitForAttachPolling(e: Engine, setup: Result<string, Error>, deviceName: string) returns (st: Step)
    ensures st == WaitForAttach(e, setup, deviceName)
  {
    if setup.Failure? {
      return Step(e, Fail(setup.error));
    }
    if deviceName != "" && !HasField(deviceName) {
      return Step(e, Panic(IndexOutOfRange));
    }
    var id := ExtractDeviceId(deviceName);
    var vm := GetVM(e, setup.value);
    if vm.result.Failure? {
      return Step(vm.engine, Fail(vm.result.error));
    }
    var listed := GetDiskAttachments(vm.engine, vm.result.value.id);
    if listed.result.Failure? {
      return Step(listed.engine, Fail(listed.result.error));
    }
    var attachment := LastMatch(listed.result.value, id).GetOr(ZeroAttachment);
    if attachment.id == "" {
      return Step(listed.engine, Fail(NotFoundById(id)));
    }
    var p := PollLoop(listed.engine, setup.value, attachment, PollBudget);
    if p.result.Failure? {
      return Step(p.engine, Fail(p.result.error));
    }
    return Step(p.engine, Reply(SuccessfulResponse, None));
  }

  /** No attachment of the configured VM matches the id from the device path:
      the wait fails without polling. */
  lemma WaitForAttachNoMatch(e: Engine, setup: Result<string, Error>, deviceName: string)
    requires setup.Success? && (deviceName == "" || HasField(deviceName))
    requires GetVM(e, setup.value).result.Success?
    requires var vm := GetVM(e, setup.value);
             var listed := GetDiskAttachments(vm.engine, vm.result.value.id);
             && listed.result.Success?
             && forall i :: 0 <= i < |listed.result.value| ==>
                  !HasPrefix(listed.result.value[i].disk.id, ExtractDeviceId(deviceName))
    ensures WaitForAttach(e, setup, deviceName).reply == Fail(NotFoundById(ExtractDeviceId(deviceName)))
    ensures WaitForAttach(e, setup, deviceName).engine.clock == e.clock
  {
  }

  /** A matched attachment that is already active: success without any re-fetch. */
  lemma WaitForAttachActiveAtOnce(e: Engine, setup: Result<string, Error>, deviceName: string)
    requires setup.Success? && (deviceName == "" || HasField(deviceName))
    requires GetVM(e, setup.value).result.Success?
    requires var vm := GetVM(e, setup.value);
             var listed := GetDiskAttachments(vm.engine, vm.result.value.id);
             && listed.result.Success?
             && var m := LastMatch(listed.result.value, ExtractDeviceId(deviceName));
                m.Some? && m.value.id != "" && m.value.active
    ensures WaitForAttach(e, setup, deviceName).reply == Reply(SuccessfulResponse, None)
    ensures WaitForAttach(e, setup, deviceName).engine.clock == e.clock
  {
  }

  /** A matched attachment that never becomes active, on a VM whose id is its
      name: all five re-fetches succeed, and the wait still answers success. */
  lemma {:induction false} WaitForAttachSucceedsInactive(e: Engine, setup: Result<string, Error>, deviceName: string)
    requires setup.Success? && (deviceName == "" || HasField(deviceName))
    requires GetVM(e, setup.value).result.Success?
    requires var vm := GetVM(e, setup.value);
             var listed := GetDiskAttachments(vm.engine, vm.result.value.id);
             && listed.result.Success?
             && var m := LastMatch(listed.result.value, ExtractDeviceId(deviceName));
                && m.Some? && m.value.id != "" && !m.value.active
                && setup.value in e.attachments
                && FindAttachment(e.attachments[setup.value], m.value.id) == Some(m.value)
                && m.value.id !in e.activeFrom
                && (GET, AttachmentPath(setup.value, m.value.id)) !in e.faults
    ensures WaitForAttach(e, setup, deviceName).reply == Reply(SuccessfulResponse, None)
    ensures WaitForAttach(e, setup, deviceName).engine.clock == e.clock + PollBudget
  {
    var vm := GetVM(e, setup.value);
    var listed := GetDiskAttachments(vm.engine, vm.result.value.id);
    var m := LastMatch(listed.result.value, ExtractDeviceId(deviceName));
    PollExhaustsBudget(listed.engine, setup.value, m.value, PollBudget);
  }

  /* ---------- getvolumename ---------- */

  /** `GetVolumeName`: the device path of the volume's attachment to the
      configured VM; a failed attachment fetch is reported as "not attached".
      It only reads. */
  function GetVolumeName(e: Engine, setup: Result<string, Error>, request: Result<AttachRequest, Error>): (st: Step)
    ensures setup.Failure? ==> st == Step(e, Fail(setup.error))
    ensures setup.Success? && request.Failure? ==> st == Step(e, Reply(FailedResponse, Some(request.error)))
    ensures ErrorsFail(st.reply) && AttachAnswer(st.reply)
    ensures ReadOnly(e, st.engine) && st.engine.clock == e.clock
  {
    ReadOnlyRefl(e);
    if setup.Failure? then Step(e, Fail(setup.error))
    else if request.Failure? then Step(e, Reply(FailedResponse, Some(request.error)))
    else
      var ovirtVmName := setup.value;
      var volumeName := request.value.volumeName;
      var vm := GetVM(e, ovirtVmName);
      ReadOnlyIssue(e, VmSearchPath(ovirtVmName));
      if vm.result.Failure? then Step(vm.engine, Fail(vm.result.error))
      else if vm.result.value.id == "" then Step(vm.engine, Fail(VmMissing(ovirtVmName)))
      else
        var name := FromK8sNameToOvirt(volumeName);
        var disks := GetDiskByName(vm.engine, name);
        ReadOnlyIssue(vm.engine, DiskSearchPath(name));
        ReadOnlyTrans(e, vm.engine, disks.engine);
        if disks.result.Failure? then Step(disks.engine, Fail(disks.result.error))
        else if disks.result.value == [] then
          Step(disks.engine, Fail(Message("Volume with name " + volumeName + " doesn't exist in ovirt")))
        else
          var diskId := disks.result.value[0].id;
          var fetched := GetDiskAttachment(disks.engine, vm.result.value.id, diskId);
          ReadOnlyIssue(disks.engine, AttachmentPath(vm.result.value.id, diskId));
          ReadOnlyTrans(e, disks.engine, fetched.engine);
          if fetched.result.Failure? then
            Step(fetched.engine, Fail(Message("The volume " + volumeName + " is not attched to the node "
                                              + ovirtVmName)))
          else Step(fetched.engine, DeviceReply(fetched.result.value))
  }
}
