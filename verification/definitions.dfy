/** The records exchanged with the engine (internal/types.go), the flex-volume
    callout `Response` (internal/definitions.go) and the errors the Go code
    returns. */
module Definitions {

  /* ---------- Errors ---------- */

  /** The Go `error` values the core produces. `NotFound` is the distinguished
      404 outcome of a GET, carrying the path of the requested URL; `HttpStatus` carries the status line the engine
      answered with; `Message` is an error built from a formatted string. */
  datatype Error =
    | NotFound(urlPath: string)
    | HttpStatus(code: int, statusLine: string)
    | Message(text: string)

  /** `e.Error()` */
  function ErrorText(e: Error): string {
    match e
    case NotFound(urlPath) => "No resource at " + urlPath
    case HttpStatus(_, line) => line
    case Message(text) => text
  }

  /* ---------- Engine records (internal/types.go) ---------- */

  datatype StorageDomain = StorageDomain(name: string, storageType: string)

  datatype Disk = Disk(
    id: string,
    name: string,
    actualSize: nat,
    provisionedSize: nat,
    status: string,
    format: string,
    storageDomains: seq<StorageDomain>,
    sparse: bool)

  datatype DiskAttachment = DiskAttachment(
    id: string,
    bootable: bool,
    passDiscard: bool,
    iface: string,
    active: bool,
    disk: Disk,
    readOnly: bool)

  datatype Ip = Ip(address: string, version: string)

  datatype Device = Device(ips: seq<Ip>)

  datatype Nic = Nic(iface: string, linked: bool, devices: seq<Device>)

  datatype VM = VM(id: string, name: string, fqdn: string, nics: seq<Nic>, status: string)

  /* ---------- Go's 64-bit size conversions ---------- */

  const TwoTo63 := 0x8000_0000_0000_0000
  const TwoTo64 := 0x1_0000_0000_0000_0000

  predicate IsInt64(x: int) {
    -TwoTo63 <= x < TwoTo63
  }

  /** `uint64(x)` of an int64: a negative size wraps around to a huge one. */
  function Uint64OfInt64(x: int): (u: nat)
    requires IsInt64(x)
    ensures u < TwoTo64
    ensures 0 <= x ==> u == x
    ensures x < 0 ==> u == x + TwoTo64 && u >= TwoTo63
  {
    if x < 0 then x + TwoTo64 else x
  }

  /** `int64(u)` of a uint64 (a disk's `ProvisionedSize`): a size from 2^63 up
      reads back negative. A size is a uint64 on the wire, so only its low 64
      bits exist. */
  function Int64OfUint64(u: nat): (x: int)
    ensures IsInt64(x)
    ensures u < TwoTo63 ==> x == u
    ensures TwoTo63 <= u < TwoTo64 ==> x == u - TwoTo64
  {
    var low := u % TwoTo64;
    if low < TwoTo63 then low else low - TwoTo64
  }

  /** The two conversions are inverse to each other on their domains. */
  lemma SizeConversionsRoundTrip(x: int, u: nat)
    requires IsInt64(x) && u < TwoTo64
    ensures Int64OfUint64(Uint64OfInt64(x)) == x
    ensures Uint64OfInt64(Int64OfUint64(u)) == u
  {
  }

  const ZeroDisk := Disk("", "", 0, 0, "", "", [], false)
  const ZeroAttachment := DiskAttachment("", false, false, "", false, ZeroDisk, false)
  const ZeroVM := VM("", "", "", [], "")

  /* ---------- Callout responses (internal/definitions.go) ---------- */

  datatype Status = Success | Failure | NotSupported

  datatype Capabilities = Capabilities(attach: string)

  datatype Response = Response(
    status: Status,
    message: string,
    device: string,
    volumeName: string,
    attached: string,
    capabilities: Capabilities)

  const NoCapabilities := Capabilities("")

  const FailedResponse := Response(Failure, "", "", "", "", NoCapabilities)
  const SuccessfulResponse := Response(Success, "", "", "", "", NoCapabilities)
  const NotSupportedResponse := Response(NotSupported, "", "", "", "", NoCapabilities)

  /** The three canned responses differ only in their status: a response is
      "bare" when every field other than the status is empty. */
  predicate Bare(r: Response) {
    r.message == "" && r.device == "" && r.volumeName == "" && r.attached == ""
    && r.capabilities == NoCapabilities
  }

  /** A failure response whose message is the error's text and whose other
      fields are all empty. */
  function FailedResponseFromError(e: Error): (r: Response)
    ensures r.status == Failure
    ensures r.message == ErrorText(e)
    ensures r.(message := "") == FailedResponse
  {
    Response(Failure, ErrorText(e), "", "", "", NoCapabilities)
  }

  /** The canned responses carry only their status. */
  lemma CannedResponses()
    ensures Bare(FailedResponse) && FailedResponse.status == Failure
    ensures Bare(SuccessfulResponse) && SuccessfulResponse.status == Success
    ensures Bare(NotSupportedResponse) && NotSupportedResponse.status == NotSupported
  {
  }

  /** A failure response built from an error is the canned failure response
      exactly when the error's text is empty. */
  lemma FailedFromErrorIsCannedIff(e: Error)
    ensures FailedResponseFromError(e) == FailedResponse <==> ErrorText(e) == ""
  {
  }
}
