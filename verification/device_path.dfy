/** The device-path codec of the flex driver (cmd/ovirt-flexdriver/ovirt-flexdriver.go):
    an attachment's (disk id, interface) pair becomes the guest's
    `/dev/disk/by-id/...` path, and `ExtractDeviceId` reads the short disk id
    back out of such a path. Also the volume-name conversion used before every
    disk lookup. */
module DevicePath {
  import opened Definitions

  const ByIdDir := "/dev/disk/by-id/"
  const VirtioPrefix := "virtio-"
  const ScsiPrefix := "scsi-0QEMU_QEMU_HARDDISK_"

  /** The device path carries only this many leading characters of the disk id. */
  const ShortIdLength := 16

  const UnsupportedDevice := Message("device type is unsupported")

  /* ---------- String helpers (Go's strings package) ---------- */

  predicate HasPrefix(s: string, p: string) {
    |p| <= |s| && s[..|p|] == p
  }

  /** `strings.TrimPrefix` */
  function TrimPrefix(s: string, p: string): (r: string)
    ensures HasPrefix(s, p) ==> p + r == s
    ensures !HasPrefix(s, p) ==> r == s
  {
    if HasPrefix(s, p) then s[|p|..] else s
  }

  predicate Slashless(s: string) {
    '/' !in s
  }

  /** The path has at least one `/`-separated field, i.e. a character other than `/`. */
  predicate HasField(s: string) {
    exists i :: 0 <= i < |s| && s[i] != '/'
  }

  /** Scanning `s[..n]` backwards over `/`: the end of the last field. */
  function FieldEnd(s: string, n: nat): (e: nat)
    requires n <= |s|
    ensures e <= n
    ensures forall k :: e <= k < n ==> s[k] == '/'
    ensures e > 0 ==> s[e - 1] != '/'
    decreases n
  {
    if n == 0 then 0
    else if s[n - 1] == '/' then FieldEnd(s, n - 1)
    else n
  }

  /** Scanning `s[..e]` backwards over non-`/` characters: the start of the field ending at `e`. */
  function FieldStart(s: string, e: nat): (b: nat)
    requires e <= |s|
    ensures b <= e
    ensures forall k :: b <= k < e ==> s[k] != '/'
    ensures b > 0 ==> s[b - 1] == '/'
    decreases e
  {
    if e == 0 || s[e - 1] == '/' then e
    else FieldStart(s, e - 1)
  }

  /** The last element of `strings.FieldsFunc(s, isSlash)`: the last maximal run of
      non-`/` characters. It is non-empty, contains no `/`, only `/` follow it, and
      it is preceded by a `/` or the start of the string. */
  function LastField(s: string): (f: string)
    requires HasField(s)
    ensures 0 < |f| && Slashless(f)
    ensures exists b, e :: 0 <= b < e <= |s| && f == s[b..e]
                          && (b == 0 || s[b - 1] == '/')
                          && forall k :: e <= k < |s| ==> s[k] == '/'
  {
    var e := FieldEnd(s, |s|);
    var i :| 0 <= i < |s| && s[i] != '/';
    assert i < e;
    var b := FieldStart(s, e);
    assert s[e - 1] != '/';
    s[b..e]
  }

  /** A path made of a `/`-terminated directory and a slash-free name has that name
      as its last field. */
  lemma LastFieldOfJoin(dir: string, name: string)
    requires 0 < |dir| && dir[|dir| - 1] == '/'
    requires 0 < |name| && Slashless(name)
    ensures HasField(dir + name)
    ensures LastField(dir + name) == name
  {
    var s := dir + name;
    assert s[|dir|] == name[0];
    assert FieldEnd(s, |s|) == |s| by {
      assert s[|s| - 1] == name[|name| - 1];
    }
    var b := FieldStart(s, |s|);
    assert s[|dir| - 1] == '/';
    assert b == |dir|;
    assert s[b..|s|] == name;
  }

  /* ---------- The codec ---------- */

  /** The device path of an attachment. Only `virtio` and `virtio_iscsi` have one;
      every other interface, `virtio_scsi` included, gets the unsupported-device
      failure. The caller must supply an id of at least 16 characters (the Go code
      slices it). */
  function ResponseFromDiskAttachment(diskId: string, diskInterface: string): (r: Response)
    requires |diskId| >= ShortIdLength
    ensures r.status == Success <==> diskInterface in {"virtio", "virtio_iscsi"}
    ensures diskInterface == "virtio" ==>
              r == SuccessfulResponse.(device := ByIdDir + VirtioPrefix + diskId[..ShortIdLength])
    ensures diskInterface == "virtio_iscsi" ==>
              r == SuccessfulResponse.(device := ByIdDir + ScsiPrefix + diskId[..ShortIdLength])
    ensures r.status == Failure ==> r == FailedResponseFromError(UnsupportedDevice)
  {
    var shortDiskId := diskId[..ShortIdLength];
    match diskInterface
    case "virtio" => SuccessfulResponse.(device := ByIdDir + VirtioPrefix + shortDiskId)
    case "virtio_iscsi" => SuccessfulResponse.(device := ByIdDir + ScsiPrefix + shortDiskId)
    case _ => FailedResponseFromError(UnsupportedDevice)
  }

  /** The short id carried by one path field: the text after the scsi or virtio
      prefix, or empty for an unknown naming scheme. */
  function IdOfField(field: string): string {
    if HasPrefix(field, "scsi") then TrimPrefix(field, ScsiPrefix)
    else if HasPrefix(field, "virtio") then TrimPrefix(field, VirtioPrefix)
    else ""
  }

  /** The disk id read back from a device path. Go indexes the last field, so a
      non-empty path made only of `/` is excluded. */
  function ExtractDeviceId(deviceName: string): (id: string)
    requires deviceName == "" || HasField(deviceName)
    ensures deviceName == "" ==> id == ""
    ensures Slashless(id)
    ensures |id| <= |deviceName|
  {
    if deviceName == "" then ""
    else
      var field := LastField(deviceName);
      assert |field| <= |deviceName|;
      IdOfField(field)
  }

  /** Two paths with the same last field give the same id: nothing before the last
      field, nor trailing slashes after it, matters. */
  lemma ExtractDependsOnlyOnLastField(p1: string, p2: string)
    requires HasField(p1) && HasField(p2)
    requires LastField(p1) == LastField(p2)
    ensures ExtractDeviceId(p1) == ExtractDeviceId(p2)
  {
  }

  /** A last field starting with neither `scsi` nor `virtio` yields no id. */
  lemma ExtractUnknownField(deviceName: string)
    requires HasField(deviceName)
    requires !HasPrefix(LastField(deviceName), "scsi") && !HasPrefix(LastField(deviceName), "virtio")
    ensures ExtractDeviceId(deviceName) == ""
  {
  }

  /** The id read back from a path made of the by-id directory, a known prefix
      and a slash-free id is that id. */
  lemma {:induction false} ExtractAfterPrefix(prefix: string, short: string)
    requires prefix == VirtioPrefix || prefix == ScsiPrefix
    requires Slashless(short)
    ensures HasField(ByIdDir + (prefix + short))
    ensures ExtractDeviceId(ByIdDir + (prefix + short)) == short
  {
    var name := prefix + short;
    assert name[0] == prefix[0];
    LastFieldOfJoin(ByIdDir, name);
    assert name[..|prefix|] == prefix;
    if prefix == VirtioPrefix {
      assert !HasPrefix(name, "scsi") by { assert name[0] == 'v'; }
      assert name[..6] == "virtio";
    } else {
      assert prefix[..4] == "scsi";
      assert name[..4] == name[..|prefix|][..4];
    }
    assert name[|prefix|..] == short;
  }

  /** Round trip: for the two interfaces with a device path, reading the id back out
      of the path gives the 16-character short id, provided it contains no `/`. */
  lemma {:induction false} ExtractInvertsResponse(diskId: string, diskInterface: string)
    requires |diskId| >= ShortIdLength
    requires diskInterface in {"virtio", "virtio_iscsi"}
    requires Slashless(diskId[..ShortIdLength])
    ensures HasField(ResponseFromDiskAttachment(diskId, diskInterface).device)
    ensures ExtractDeviceId(ResponseFromDiskAttachment(diskId, diskInterface).device)
            == diskId[..ShortIdLength]
  {
    var short := diskId[..ShortIdLength];
    if diskInterface == "virtio" {
      assert ByIdDir + VirtioPrefix + short == ByIdDir + (VirtioPrefix + short);
      ExtractAfterPrefix(VirtioPrefix, short);
    } else {
      assert ByIdDir + ScsiPrefix + short == ByIdDir + (ScsiPrefix + short);
      ExtractAfterPrefix(ScsiPrefix, short);
    }
  }

  /** The virtio device path of the driver's unit tests
      (`/dev/disk/by-id/virtio-8deb6495-9121-44b9-a`). */
  lemma ExtractDeviceIdVirtioExample()
    ensures HasField(ByIdDir + "virtio-8deb6495-9121-44b9-a")
    ensures ExtractDeviceId(ByIdDir + "virtio-8deb6495-9121-44b9-a") == "8deb6495-9121-44b9-a"
  {
    assert VirtioPrefix + "8deb6495-9121-44b9-a" == "virtio-8deb6495-9121-44b9-a";
    ExtractAfterPrefix(VirtioPrefix, "8deb6495-9121-44b9-a");
  }

  /** The virtio-scsi device path of the driver's unit tests
      (`/dev/disk/by-id/scsi-0QEMU_QEMU_HARDDISK_6a52e54c-003b-45d6-b`). */
  lemma ExtractDeviceIdScsiExample()
    ensures HasField(ByIdDir + "scsi-0QEMU_QEMU_HARDDISK_6a52e54c-003b-45d6-b")
    ensures ExtractDeviceId(ByIdDir + "scsi-0QEMU_QEMU_HARDDISK_6a52e54c-003b-45d6-b")
            == "6a52e54c-003b-45d6-b"
  {
    assert ScsiPrefix + "6a52e54c-003b-45d6-b" == "scsi-0QEMU_QEMU_HARDDISK_6a52e54c-003b-45d6-b";
    ExtractAfterPrefix(ScsiPrefix, "6a52e54c-003b-45d6-b");
  }

  /** An unknown device naming scheme of the driver's unit tests
      (`/dev/disk/by-id/unknown-type`) yields no id. */
  lemma ExtractDeviceIdUnknownExample()
    ensures HasField(ByIdDir + "unknown-type")
    ensures ExtractDeviceId(ByIdDir + "unknown-type") == ""
  {
    LastFieldOfJoin(ByIdDir, "unknown-type");
    assert !HasPrefix("unknown-type", "scsi") by { assert "unknown-type"[0] == 'u'; }
    assert !HasPrefix("unknown-type", "virtio") by { assert "unknown-type"[0] == 'u'; }
  }

  /* ---------- Volume names ---------- */

  /** `fromk8sNameToOvirt`: every `~` becomes `_`, every other character stays. */
  function FromK8sNameToOvirt(s: string): (r: string)
    ensures |r| == |s|
    ensures forall i :: 0 <= i < |s| ==> r[i] == (if s[i] == '~' then '_' else s[i])
  {
    if s == [] then []
    else [if s[0] == '~' then '_' else s[0]] + FromK8sNameToOvirt(s[1..])
  }

  /** The converted name has no `~`, so converting it again changes nothing. */
  lemma FromK8sNameToOvirtIdempotent(s: string)
    ensures '~' !in FromK8sNameToOvirt(s)
    ensures FromK8sNameToOvirt(FromK8sNameToOvirt(s)) == FromK8sNameToOvirt(s)
  {
    var r := FromK8sNameToOvirt(s);
    assert forall i :: 0 <= i < |r| ==> r[i] != '~';
  }

  /** A name without `~` is already an engine name. */
  lemma FromK8sNameToOvirtFixesTildeFree(s: string)
    requires '~' !in s
    ensures FromK8sNameToOvirt(s) == s
  {
  }
}
