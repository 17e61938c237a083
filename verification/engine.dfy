/** The remote engine as an abstract state record, and the resource calls of
    internal/ovirt-mini-api.go over it (`GetVM`, `GetDiskByName`,
    `GetDiskAttachment(s)`, `CreateDisk`, `CreateUnattachedDisk`,
    `DetachDiskFromVM`, and GET/DELETE of `disks/<id>`).

    Every call is appended to the engine's request log, so the number of
    creates (POST) and deletes (DELETE) an operation issues can be read off the
    log. The engine answers each request with its natural status (200, 201 or
    404 depending on its state) unless a fault replaces that answer. Answers are
    classified exactly as `Get`, `Post` and `Delete` do in the session module;
    the 401 re-authentication those calls may trigger is modelled there only. */
module Engine {
  import opened Wrappers
  import opened Definitions
  import MiniApi

  type HttpResponse = MiniApi.HttpResponse

  datatype Verb = GET | POST | DELETE

  datatype Body =
    | NoBody
    | AttachmentBody(attachment: DiskAttachment)
    | DiskBody(disk: Disk, readOnly: bool, thin: bool)

  datatype Request = Request(verb: Verb, path: string, body: Body)

  /** The engine: its VMs, disks, the attachments of each VM (by VM id), when
      each attachment starts to report itself active (in polling intervals), the
      current polling interval, the answers that replace natural ones, the ids it
      will hand out to new disks, every request received so far, and the path of
      the connection URL (such as `/ovirt-engine/api`), which a 404 reports in
      front of the resource path. */
  datatype Engine = Engine(
    vms: seq<VM>,
    disks: seq<Disk>,
    attachments: map<string, seq<DiskAttachment>>,
    activeFrom: map<string, nat>,
    clock: nat,
    faults: map<(Verb, string), HttpResponse>,
    freshIds: seq<string>,
    log: seq<Request>,
    apiPath: string)

  const Ok := MiniApi.HttpResponse(200, "200 OK")
  const Created := MiniApi.HttpResponse(201, "201 Created")
  const Missing := MiniApi.HttpResponse(404, "404 Not Found")

  /** The engine's answer to a create when it has no id left to hand out. */
  const Exhausted := MiniApi.HttpResponse(507, "507 Insufficient Storage")

  datatype Got<T> = Got(engine: Engine, result: Result<T, Error>)

  /* ---------- Request paths ---------- */

  function VmSearchPath(name: string): string { "vms?search=name=" + name }
  function DiskSearchPath(name: string): string { "disks?search=name=" + name }
  function AttachmentPath(vmId: string, diskId: string): string { "vms/" + vmId + "/diskattachments/" + diskId }
  function AttachmentsPath(vmId: string): string { "vms/" + vmId + "/diskattachments/" }
  function CreateAttachmentPath(vmId: string): string { "vms/" + vmId + "/diskattachments" }
  function DiskPath(id: string): string { "disks/" + id }

  /* ---------- Answers and the request log ---------- */

  function Answer(e: Engine, verb: Verb, path: string, natural: HttpResponse): (a: HttpResponse)
    ensures (verb, path) !in e.faults ==> a == natural
  {
    if (verb, path) in e.faults then e.faults[(verb, path)] else natural
  }

  function Issue(e: Engine, r: Request): (e': Engine)
    ensures e'.log == e.log + [r]
    ensures e' == e.(log := e'.log)
  {
    e.(log := e.log + [r])
  }

  /** Number of create calls (POST) in a request log. */
  function Posts(log: seq<Request>): nat {
    if log == [] then 0
    else Posts(log[..|log| - 1]) + (if log[|log| - 1].verb == POST then 1 else 0)
  }

  /** Number of delete calls (DELETE) in a request log. */
  function Deletes(log: seq<Request>): nat {
    if log == [] then 0
    else Deletes(log[..|log| - 1]) + (if log[|log| - 1].verb == DELETE then 1 else 0)
  }

  /** Appending requests to a log adds their creates and deletes to its counts. */
  lemma {:induction false} CountsOfAppend(log: seq<Request>, more: seq<Request>)
    ensures Posts(log + more) == Posts(log) + Posts(more)
    ensures Deletes(log + more) == Deletes(log) + Deletes(more)
    decreases |more|
  {
    if more == [] {
      assert log + more == log;
    } else {
      var init := more[..|more| - 1];
      assert (log + more)[..|log + more| - 1] == log + init;
      CountsOfAppend(log, init);
    }
  }

  /** A log made only of GET requests has no creates and no deletes. */
  predicate OnlyReads(log: seq<Request>) {
    forall i :: 0 <= i < |log| ==> log[i].verb == GET
  }

  lemma {:induction false} ReadsCountNothing(log: seq<Request>)
    requires OnlyReads(log)
    ensures Posts(log) == 0 && Deletes(log) == 0
    decreases |log|
  {
    if log != [] {
      ReadsCountNothing(log[..|log| - 1]);
    }
  }

  /** Counts of a single request. */
  lemma CountsOfOne(r: Request)
    ensures Posts([r]) == (if r.verb == POST then 1 else 0)
    ensures Deletes([r]) == (if r.verb == DELETE then 1 else 0)
  {
    assert [r][..0] == [];
  }

  /** `e'` is `e` after reads and waits only: the clock may have advanced and
      GET requests have been appended to the log; nothing else differs. */
  predicate ReadOnly(e: Engine, e': Engine) {
    && e' == e.(clock := e'.clock, log := e'.log)
    && e.clock <= e'.clock
    && |e.log| <= |e'.log| && e'.log[..|e.log|] == e.log
    && OnlyReads(e'.log[|e.log|..])
  }

  lemma ReadOnlyRefl(e: Engine)
    ensures ReadOnly(e, e)
  {
    assert e.log[|e.log|..] == [];
  }

  lemma ReadOnlyTrans(a: Engine, b: Engine, c: Engine)
    requires ReadOnly(a, b) && ReadOnly(b, c)
    ensures ReadOnly(a, c)
  {
    assert c.log[..|a.log|] == c.log[..|b.log|][..|a.log|];
    assert c.log[|a.log|..] == b.log[|a.log|..] + c.log[|b.log|..] by {
      assert c.log == b.log + c.log[|b.log|..];
    }
  }

  /** Reading creates and deletes nothing. */
  lemma {:induction false} ReadOnlyCounts(e: Engine, e': Engine)
    requires ReadOnly(e, e')
    ensures Posts(e'.log) == Posts(e.log) && Deletes(e'.log) == Deletes(e.log)
  {
    var more := e'.log[|e.log|..];
    assert e.log + more == e'.log;
    CountsOfAppend(e.log, more);
    ReadsCountNothing(more);
  }

  /** One GET request is a read. */
  lemma ReadOnlyIssue(e: Engine, path: string)
    ensures ReadOnly(e, Issue(e, Request(GET, path, NoBody)))
  {
    var e' := Issue(e, Request(GET, path, NoBody));
    assert e'.log[|e.log|..] == [Request(GET, path, NoBody)];
  }

  /* ---------- Searches ---------- */

  /** The first VM with the given name, as the engine's name search lists it first. */
  function FirstVmNamed(vms: seq<VM>, name: string): (r: Option<VM>)
    ensures r.None? <==> forall i :: 0 <= i < |vms| ==> vms[i].name != name
    ensures r.Some? ==> exists i :: 0 <= i < |vms| && vms[i] == r.value && vms[i].name == name
                                  && forall j :: 0 <= j < i ==> vms[j].name != name
  {
    if vms == [] then None
    else if vms[0].name == name then Some(vms[0])
    else
      var r := FirstVmNamed(vms[1..], name);
      if r.Some? then
        ghost var i :| 0 <= i < |vms[1..]| && vms[1..][i] == r.value && vms[1..][i].name == name
                       && forall j :: 0 <= j < i ==> vms[1..][j].name != name;
        assert vms[i + 1] == r.value;
        r
      else r
  }

  /** The disks with the given name, in engine order. */
  function DisksNamed(disks: seq<Disk>, name: string): (r: seq<Disk>)
    ensures |r| <= |disks|
    ensures forall d :: d in r <==> d in disks && d.name == name
  {
    if disks == [] then []
    else (if disks[0].name == name then [disks[0]] else []) + DisksNamed(disks[1..], name)
  }

  /** Adding the first disk of a name makes it the only disk of that name. */
  lemma {:induction false} DisksNamedOfAppend(disks: seq<Disk>, d: Disk, name: string)
    requires DisksNamed(disks, name) == [] && d.name == name
    ensures DisksNamed(disks + [d], name) == [d]
    decreases |disks|
  {
    if disks == [] {
      assert DisksNamed([d], name) == [d] + DisksNamed([], name);
    } else {
      assert (disks + [d])[1..] == disks[1..] + [d];
      assert disks[0].name != name by {
        assert disks[0] in disks;
      }
      DisksNamedOfAppend(disks[1..], d, name);
    }
  }

  /** What a 404 of `disks/<id>` reports (an id without `?`): the connection
      URL's path followed by `/disks/<id>`. */
  lemma NotFoundReportsDiskUrlPath(e: Engine, id: string)
    requires '?' !in id
    ensures MiniApi.UrlPath(e.apiPath, DiskPath(id)) == e.apiPath + "/disks/" + id
  {
    var p := DiskPath(id);
    forall k | 0 <= k < |p|
      ensures p[k] != '?'
    {
      if k >= 6 {
        assert p[k] == id[k - 6];
      }
    }
    MiniApi.UrlPathOfResource(e.apiPath, p);
  }

  /** What a 404 of a disk search by name reports: the connection URL's path
      followed by `/disks` only, the query dropped. */
  lemma NotFoundReportsSearchUrlPath(e: Engine, name: string)
    ensures MiniApi.UrlPath(e.apiPath, DiskSearchPath(name)) == e.apiPath + "/disks"
  {
    assert DiskSearchPath(name) == "disks" + "?" + ("search=name=" + name);
    MiniApi.BeforeQueryDropsQuery("disks", "search=name=" + name);
  }

  /** The first attachment with the given id. */
  function FindAttachment(list: seq<DiskAttachment>, id: string): (r: Option<DiskAttachment>)
    ensures r.None? <==> forall i :: 0 <= i < |list| ==> list[i].id != id
    ensures r.Some? ==> r.value in list && r.value.id == id
  {
    if list == [] then None
    else if list[0].id == id then Some(list[0])
    else FindAttachment(list[1..], id)
  }

  predicate HasAttachment(e: Engine, vmId: string, diskId: string) {
    vmId in e.attachments && FindAttachment(e.attachments[vmId], diskId).Some?
  }

  predicate HasDisk(e: Engine, id: string) {
    exists i :: 0 <= i < |e.disks| && e.disks[i].id == id
  }

  lemma HasDiskOfMember(e: Engine, d: Disk)
    requires d in e.disks
    ensures HasDisk(e, d.id)
  {
    var i :| 0 <= i < |e.disks| && e.disks[i] == d;
  }

  /** An attachment as the engine reports it now: active once its activation time has come. */
  function Observed(e: Engine, a: DiskAttachment): (o: DiskAttachment)
    ensures o == a.(active := o.active)
    ensures o.active <==> a.active || (a.id in e.activeFrom && e.activeFrom[a.id] <= e.clock)
  {
    a.(active := a.active || (a.id in e.activeFrom && e.activeFrom[a.id] <= e.clock))
  }

  /* ---------- Reads ---------- */

  /** `GetVM`: the first VM the name search returns, or the zero VM (empty id)
      when it returns none. */
  function GetVM(e: Engine, name: string): (r: Got<VM>)
    ensures r.engine == Issue(e, Request(GET, VmSearchPath(name), NoBody))
    ensures r.result.Success? <==> Answer(e, GET, VmSearchPath(name), Ok).code <= 200
    ensures r.result.Success? ==> r.result.value == FirstVmNamed(e.vms, name).GetOr(ZeroVM)
  {
    var path := VmSearchPath(name);
    var e1 := Issue(e, Request(GET, path, NoBody));
    match MiniApi.GetOutcome(Answer(e, GET, path, Ok), MiniApi.UrlPath(e.apiPath, path))
    case Fail(err) => Got(e1, Result.Failure(err))
    case Pass => Got(e1, Result.Success(FirstVmNamed(e.vms, name).GetOr(ZeroVM)))
  }

  /** `GetDiskByName`: the disks the name search returns. */
  function GetDiskByName(e: Engine, name: string): (r: Got<seq<Disk>>)
    ensures r.engine == Issue(e, Request(GET, DiskSearchPath(name), NoBody))
    ensures r.result.Success? <==> Answer(e, GET, DiskSearchPath(name), Ok).code <= 200
    ensures r.result.Success? ==> forall d :: d in r.result.value <==> d in e.disks && d.name == name
    ensures r.result.Success? ==> r.result.value == DisksNamed(e.disks, name)
  {
    var path := DiskSearchPath(name);
    var e1 := Issue(e, Request(GET, path, NoBody));
    match MiniApi.GetOutcome(Answer(e, GET, path, Ok), MiniApi.UrlPath(e.apiPath, path))
    case Fail(err) => Got(e1, Result.Failure(err))
    case Pass => Got(e1, Result.Success(DisksNamed(e.disks, name)))
  }

  /** `GetDiskAttachment`: the attachment of a disk to a VM; an absent one is
      the engine's 404, which `Get` reports as `NotFound`. */
  function GetDiskAttachment(e: Engine, vmId: string, diskId: string): (r: Got<DiskAttachment>)
    ensures r.engine == Issue(e, Request(GET, AttachmentPath(vmId, diskId), NoBody))
    ensures (GET, AttachmentPath(vmId, diskId)) !in e.faults ==>
              (r.result.Success? <==> HasAttachment(e, vmId, diskId))
              && (r.result.Failure? ==> r.result.error == NotFound(MiniApi.UrlPath(e.apiPath, AttachmentPath(vmId, diskId))))
    ensures r.result.Success? && HasAttachment(e, vmId, diskId) ==>
              r.result.value.id == diskId
  {
    var path := AttachmentPath(vmId, diskId);
    var e1 := Issue(e, Request(GET, path, NoBody));
    var natural := if HasAttachment(e, vmId, diskId) then Ok else Missing;
    match MiniApi.GetOutcome(Answer(e, GET, path, natural), MiniApi.UrlPath(e.apiPath, path))
    case Fail(err) => Got(e1, Result.Failure(err))
    case Pass =>
      var found := if vmId in e.attachments then FindAttachment(e.attachments[vmId], diskId) else None;
      Got(e1, Result.Success(Observed(e, found.GetOr(ZeroAttachment))))
  }

  /** `GetDiskAttachments`: every attachment of a VM, as reported now. */
  function GetDiskAttachments(e: Engine, vmId: string): (r: Got<seq<DiskAttachment>>)
    ensures r.engine == Issue(e, Request(GET, AttachmentsPath(vmId), NoBody))
    ensures (GET, AttachmentsPath(vmId)) !in e.faults ==> (r.result.Success? <==> vmId in e.attachments)
    ensures r.result.Success? && vmId in e.attachments ==>
              |r.result.value| == |e.attachments[vmId]|
              && forall i :: 0 <= i < |r.result.value| ==>
                   r.result.value[i] == Observed(e, e.attachments[vmId][i])
  {
    var path := AttachmentsPath(vmId);
    var e1 := Issue(e, Request(GET, path, NoBody));
    var natural := if vmId in e.attachments then Ok else Missing;
    match MiniApi.GetOutcome(Answer(e, GET, path, natural), MiniApi.UrlPath(e.apiPath, path))
    case Fail(err) => Got(e1, Result.Failure(err))
    case Pass =>
      var list := if vmId in e.attachments then e.attachments[vmId] else [];
      Got(e1, Result.Success(seq(|list|, i requires 0 <= i < |list| => Observed(e, list[i]))))
  }

  /** GET of `disks/<id>`. */
  function GetDisk(e: Engine, id: string): (r: Got<()>)
    ensures r.engine == Issue(e, Request(GET, DiskPath(id), NoBody))
    ensures r.result.Success? <==> Answer(e, GET, DiskPath(id), if HasDisk(e, id) then Ok else Missing).code <= 200
    ensures (GET, DiskPath(id)) !in e.faults && r.result.Failure? ==> r.result.error == NotFound(MiniApi.UrlPath(e.apiPath, DiskPath(id)))
  {
    var path := DiskPath(id);
    var e1 := Issue(e, Request(GET, path, NoBody));
    match MiniApi.GetOutcome(Answer(e, GET, path, if HasDisk(e, id) then Ok else Missing), MiniApi.UrlPath(e.apiPath, path))
    case Fail(err) => Got(e1, Result.Failure(err))
    case Pass => Got(e1, Result.Success(()))
  }

  /* ---------- Creates ---------- */

  /** The attachment `CreateDisk` posts: active, a raw disk with the given name on
      the given storage domain, read-only as requested, the interface as given or
      `virtio_scsi` when none is given, and the disk id only when one is given. */
  function AttachmentPayload(diskName: string, storageDomainName: string, readOnly: bool,
                             diskId: string, diskInterface: string): (a: DiskAttachment)
    ensures a.active && a.readOnly == readOnly
    ensures a.disk.name == diskName && a.disk.format == "raw"
    ensures a.disk.storageDomains == [StorageDomain(storageDomainName, "")]
    ensures a.iface == (if diskInterface != "" then diskInterface else "virtio_scsi")
    ensures a.disk.id == diskId
    ensures a.id == "" && !a.bootable && !a.passDiscard
  {
    var a := DiskAttachment(
      "", false, false, "", true,
      ZeroDisk.(name := diskName, format := "raw", storageDomains := [StorageDomain(storageDomainName, "")]),
      readOnly);
    var a1 := if diskInterface != "" then a.(iface := diskInterface) else a;
    var a2 := if diskInterface == "" then a1.(iface := "virtio_scsi") else a1;
    if diskId != "" then a2.(disk := a2.disk.(id := diskId)) else a2
  }

  /** The natural answer to a create: the VM must exist, and a new disk needs a fresh id. */
  function CreateDiskAnswer(e: Engine, vmId: string, diskId: string): HttpResponse {
    if vmId !in e.attachments then Missing
    else if diskId == "" && e.freshIds == [] then Exhausted
    else Created
  }

  /** `CreateDisk`: one POST of the attachment payload to the VM's attachments.
      When the engine accepts it, the attachment (and, without a disk id, a new
      disk with the next fresh id) exists afterwards and is returned. */
  function CreateDisk(e: Engine, diskName: string, storageDomainName: string, readOnly: bool,
                      vmId: string, diskId: string, diskInterface: string): (r: Got<DiskAttachment>)
    ensures var payload := AttachmentPayload(diskName, storageDomainName, readOnly, diskId, diskInterface);
            r.engine.log == e.log + [Request(POST, CreateAttachmentPath(vmId), AttachmentBody(payload))]
    ensures r.result.Success? <==>
              Answer(e, POST, CreateAttachmentPath(vmId), CreateDiskAnswer(e, vmId, diskId)).code <= 300
    ensures r.result.Failure? ==> r.engine == e.(log := r.engine.log)
    ensures r.result.Success? && CreateDiskAnswer(e, vmId, diskId) == Created ==>
              && r.result.value.iface == (if diskInterface != "" then diskInterface else "virtio_scsi")
              && r.result.value.id == (if diskId != "" then diskId else e.freshIds[0])
              && HasAttachment(r.engine, vmId, r.result.value.id)
  {
    var payload := AttachmentPayload(diskName, storageDomainName, readOnly, diskId, diskInterface);
    var path := CreateAttachmentPath(vmId);
    var e1 := Issue(e, Request(POST, path, AttachmentBody(payload)));
    var natural := CreateDiskAnswer(e, vmId, diskId);
    match MiniApi.PostOutcome(Answer(e, POST, path, natural))
    case Fail(err) => Got(e1, Result.Failure(err))
    case Pass =>
      if natural != Created then Got(e1, Result.Success(ZeroAttachment))
      else
        var newId := if diskId != "" then diskId else e.freshIds[0];
        var disk := payload.disk.(id := newId);
        var att := payload.(id := newId, disk := disk);
        var e2 := e1.(attachments := e1.attachments[vmId := e1.attachments[vmId] + [att]]);
        var e3 := if diskId != "" then e2
                  else e2.(disks := e2.disks + [disk], freshIds := e2.freshIds[1..]);
        assert FindAttachment(e3.attachments[vmId], newId).Some? by {
          assert att in e3.attachments[vmId];
        }
        Got(e3, Result.Success(att))
  }

  /** The disk `CreateUnattachedDisk` posts: the given name, size and storage domain. */
  function UnattachedPayload(diskName: string, storageDomainName: string, sizeBytes: nat): (d: Disk)
    ensures d.id == "" && d.name == diskName && d.provisionedSize == sizeBytes
    ensures d.storageDomains == [StorageDomain(storageDomainName, "")]
  {
    ZeroDisk.(name := diskName, provisionedSize := sizeBytes,
              storageDomains := [StorageDomain(storageDomainName, "")])
  }

  /** `CreateUnattachedDisk`: one POST to `disks`. When the engine accepts it,
      the new disk (with the next fresh id) exists afterwards and is returned. */
  function CreateUnattachedDisk(e: Engine, diskName: string, storageDomainName: string,
                                sizeBytes: nat, readOnly: bool, thin: bool): (r: Got<Disk>)
    ensures r.engine.log == e.log + [Request(POST, "disks",
                                             DiskBody(UnattachedPayload(diskName, storageDomainName, sizeBytes),
                                                      readOnly, thin))]
    ensures r.result.Success? <==> Answer(e, POST, "disks", if e.freshIds == [] then Exhausted else Created).code <= 300
    ensures r.result.Failure? ==> r.engine == e.(log := r.engine.log)
    ensures r.result.Success? && e.freshIds != [] ==>
              && r.result.value.id == e.freshIds[0]
              && r.result.value.name == diskName
              && r.result.value.provisionedSize == sizeBytes
              && r.result.value in r.engine.disks
  {
    var payload := UnattachedPayload(diskName, storageDomainName, sizeBytes);
    var e1 := Issue(e, Request(POST, "disks", DiskBody(payload, readOnly, thin)));
    var natural := if e.freshIds == [] then Exhausted else Created;
    match MiniApi.PostOutcome(Answer(e, POST, "disks", natural))
    case Fail(err) => Got(e1, Result.Failure(err))
    case Pass =>
      if e.freshIds == [] then Got(e1, Result.Success(ZeroDisk))
      else
        var disk := payload.(id := e.freshIds[0]);
        Got(e1.(disks := e1.disks + [disk], freshIds := e1.freshIds[1..]), Result.Success(disk))
  }

  /* ---------- Deletes ---------- */

  function RemoveAttachment(list: seq<DiskAttachment>, id: string): (r: seq<DiskAttachment>)
    ensures forall a :: a in r <==> a in list && a.id != id
  {
    if list == [] then []
    else (if list[0].id == id then [] else [list[0]]) + RemoveAttachment(list[1..], id)
  }

  function RemoveDisk(disks: seq<Disk>, id: string): (r: seq<Disk>)
    ensures forall d :: d in r <==> d in disks && d.id != id
  {
    if disks == [] then []
    else (if disks[0].id == id then [] else [disks[0]]) + RemoveDisk(disks[1..], id)
  }

  /** `DetachDiskFromVM`: one DELETE of the attachment. */
  function DetachDiskFromVM(e: Engine, vmId: string, diskId: string): (r: Got<()>)
    ensures r.engine.log == e.log + [Request(DELETE, AttachmentPath(vmId, diskId), NoBody)]
    ensures r.result.Success? <==>
              Answer(e, DELETE, AttachmentPath(vmId, diskId),
                     if HasAttachment(e, vmId, diskId) then Ok else Missing).code <= 200
    ensures r.result.Success? && HasAttachment(e, vmId, diskId) ==>
              !HasAttachment(r.engine, vmId, diskId)
  {
    var path := AttachmentPath(vmId, diskId);
    var e1 := Issue(e, Request(DELETE, path, NoBody));
    var natural := if HasAttachment(e, vmId, diskId) then Ok else Missing;
    match MiniApi.DeleteOutcome(Answer(e, DELETE, path, natural))
    case Fail(err) => Got(e1, Result.Failure(err))
    case Pass =>
      if natural == Ok then
        var rest := RemoveAttachment(e.attachments[vmId], diskId);
        assert FindAttachment(rest, diskId).None?;
        Got(e1.(attachments := e1.attachments[vmId := rest]), Result.Success(()))
      else Got(e1, Result.Success(()))
  }

  /** DELETE of `disks/<id>`. */
  function DeleteDisk(e: Engine, id: string): (r: Got<()>)
    ensures r.engine.log == e.log + [Request(DELETE, DiskPath(id), NoBody)]
    ensures r.result.Success? <==>
              Answer(e, DELETE, DiskPath(id), if HasDisk(e, id) then Ok else Missing).code <= 200
    ensures r.result.Failure? ==> !r.result.error.NotFound?
    ensures r.result.Success? ==> !HasDisk(r.engine, id)
  {
    var path := DiskPath(id);
    var e1 := Issue(e, Request(DELETE, path, NoBody));
    match MiniApi.DeleteOutcome(Answer(e, DELETE, path, if HasDisk(e, id) then Ok else Missing))
    case Fail(err) => Got(e1, Result.Failure(err))
    case Pass =>
      var rest := RemoveDisk(e.disks, id);
      assert !exists i :: 0 <= i < |rest| && rest[i].id == id by {
        forall i | 0 <= i < |rest| ensures rest[i].id != id {
          assert rest[i] in rest;
        }
      }
      Got(e1.(disks := rest), Result.Success(()))
  }
}
