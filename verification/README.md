# oVirt OpenShift extensions — a Dafny model of the volume and node logic

This project models the decision logic of the oVirt OpenShift extensions, which
let Kubernetes/OpenShift nodes running as oVirt VMs use oVirt disks as volumes
and let the cluster ask oVirt about its nodes. It covers six parts:

- **Device-path codec** (`DevicePath`). An attachment's disk id and interface
  become the guest path `/dev/disk/by-id/...`. `ExtractDeviceId` reads the short
  id back out of that path. `FromK8sNameToOvirt` converts a Kubernetes volume name
  into an engine disk name.
- **Flex-volume driver callouts** (`FlexDriver`). These are `App` (argument
  dispatch), `init`, `attach`, `isattached`, `detach`, `waitforattach` and
  `getvolumename`.
- **Session and resource client** (`MiniApi`, `Engine`).
  - `MiniApi` covers:
    - how `Get`, `Post` and `Delete` classify HTTP statuses, and `translateError`;
    - the bearer-token life cycle in `Authenticate`, `isTokenValid` and
      `fetchToken`;
    - the transport and CA-port choice;
    - the re-authentication that a 401 answer triggers in `clientDo`.
  - `Engine` models the remote oVirt engine as an immutable state record:
    - VMs, disks and per-VM attachments;
    - per-attachment activation times and a clock;
    - injected faults that replace the engine's natural answer;
    - a supply of fresh ids;
    - a log of every request. Creates (POST) and deletes (DELETE) are counted
      off this log.

  Every resource call of `internal/ovirt-mini-api.go` is a function from one
  engine state to the next.
- **Cloud-provider VM lookups** (`CloudProvider`):
  - indexing the VM list by name and by id;
  - instance id, existence and shutdown answers;
  - flattening nic → device → ip into node addresses.
- **CSI controller** (`Controller`). `CreateVolume` and `DeleteVolume` look the
  disk up first, which makes them idempotent. `ControllerGetCapabilities` lists
  the advertised capabilities.
- **Volume provisioner and parameter parsing** (`Provisioner`, `K8sStorage`):
  - the file-system and thin-provisioning defaults;
  - the `PersistentVolume` that records the created disk;
  - deleting that disk again;
  - `ParseBoolParam` over Go's `strconv.ParseBool` literals.
- **Records and responses** (`Definitions`). These are the engine records of
  `internal/types.go` and the callout `Response` with its canned constants.
  `Definitions` also holds Go's int64/uint64 size conversions.

Inputs that come from outside the core are parameters of the model:

- Configuration loading and authentication in `newOvirt`: a `Result` carrying
  the configured VM name.
- The decoded JSON options of a callout: a `Result<AttachRequest, Error>`.
- The node-name → VM-name lookup done through `kubectl`: a `Result`.
- The clock, and the answers of the CA, token and probe endpoints: the `World`
  record of `MiniApi`.

A Go run-time panic (an index or slice out of range) is the reply `Panic`. It is
not excluded by a precondition.

Some behaviours of the code are easy to misread. The model follows the code as
written:

- The CA is fetched from port `8080` exactly when the engine port is `8443`,
  otherwise from port `80` (`MiniApi.CaPort`).
- `virtio_scsi` has no device path, so `responseFromDiskAttachment` fails for
  it. Yet `CreateDisk` uses it as the default interface. So an `attach` that
  creates a disk answers "device type is unsupported"
  (`FlexDriver.AttachCreateAnswersUnsupported`).
- `attach` of an existing disk only fetches the attachment. A missing attachment
  fails the call, and nothing is created.
- `waitforattach` picks the last matching attachment, not the first
  (`FlexDriver.LastMatch`). It re-fetches by the VM name rather than the VM id,
  so on an engine that keys attachments by id the first re-fetch is a 404
  (`FlexDriver.PollByNameIsNotFound`). It reports success after the retry
  budget runs out, whether or not the attachment became active
  (`FlexDriver.WaitForAttachSucceedsInactive`).
- The token probe fails on any status above 200, not on any non-2xx status. A
  token is stale when now is strictly after its expiry.
- The token probe passes the connection URL as the path, and `clientDo`
  prefixes the connection URL again, so the probe requests `<url>/<url>`
  (`MiniApi.ProbeUrl`). The engine's answer to that URL is an input of the
  model (`World.probe`). The reuse of a saved token
  (`MiniApi.AuthenticateReusesUsableToken`) needs that answer to be at most
  200. An engine that answers the doubled URL with 404 makes every saved,
  unexpired token fail the probe, so a new token is fetched on every call.
- A 404 error reads "No resource at " followed by the path of the requested
  URL. That path is the connection URL's own path, a slash and the resource
  path, with any `?search=` query dropped (`MiniApi.UrlPath`,
  `Engine.NotFoundReportsDiskUrlPath`, `Engine.NotFoundReportsSearchUrlPath`).
- The mini-api's `CreateUnattachedDisk` takes a disk-format string, but both of
  its callers pass a thin-provisioning flag. The model follows the callers: the
  flag is recorded in the request and no format is set.

## Model

| member | source | states |
|---|---|---|
| Definitions.FailedResponseFromError | internal/definitions.go:76-80 | status Failure, message is the error's text, every other field empty (equal to `FailedResponse` once the message is cleared) |
| Definitions.CannedResponses | internal/definitions.go:29-32 | `FailedResponse`, `SuccessfulResponse` and `NotSupportedResponse` carry only their status |
| Definitions.FailedFromErrorIsCannedIff | internal/definitions.go:76-80 | a failure built from an error equals the canned `FailedResponse` exactly when the error text is empty |
| Definitions.Uint64OfInt64 | internal/ovirt-mini-api.go:199-203 | `uint64(size)`: non-negative sizes are kept, negative ones wrap to at least 2^63 |
| Definitions.Int64OfUint64 | pkg/service/controller.go:34 | `int64(ProvisionedSize)`: sizes below 2^63 are kept, larger ones read back negative |
| Definitions.SizeConversionsRoundTrip | internal/types.go:43-53 | the two conversions are mutually inverse on int64 and uint64 |
| K8sStorage.ParseBool | pkg/common/k8s-storage.go:16 | `strconv.ParseBool`: true exactly for its six true literals, false exactly for its six false literals, an error otherwise |
| K8sStorage.ParseBoolParam | pkg/common/k8s-storage.go:15-22 | true literals give true and false literals give false whatever the default; any other string gives the default |
| K8sStorage.Param | pkg/service/controller.go:46 | a map lookup gives the stored value, or the empty string for a missing key |
| K8sStorage.ParseBoolParamIgnoresDefaultIff | pkg/common/k8s-storage.go:15-22 | the default matters exactly when the value is no boolean literal |
| K8sStorage.MissingParamGivesDefault | pkg/common/k8s-storage.go:16-19 | a missing parameter reads as "", which gives the default |
| DevicePath.LastField | cmd/ovirt-flexdriver/ovirt-flexdriver.go:353-354 | the last `/`-separated field is non-empty, slash-free, preceded by `/` or the start, and followed only by `/` |
| DevicePath.ResponseFromDiskAttachment | cmd/ovirt-flexdriver/ovirt-flexdriver.go:388-400 | success exactly for `virtio` and `virtio_iscsi`, with the by-id path of the id's first 16 characters; every other interface (`virtio_scsi` included) gives the unsupported-device failure |
| DevicePath.ExtractDeviceId | cmd/ovirt-flexdriver/ovirt-flexdriver.go:349-362 | empty path gives ""; the id is slash-free and no longer than the path |
| DevicePath.ExtractDependsOnlyOnLastField | cmd/ovirt-flexdriver/ovirt-flexdriver.go:353-361 | two paths with the same last field give the same id |
| DevicePath.ExtractUnknownField | cmd/ovirt-flexdriver/ovirt-flexdriver.go:355-361 | a last field starting with neither `scsi` nor `virtio` gives "" |
| DevicePath.ExtractAfterPrefix | cmd/ovirt-flexdriver/ovirt-flexdriver.go:355-360 | after the by-id directory and a known prefix, the slash-free rest is the id |
| DevicePath.ExtractInvertsResponse | cmd/ovirt-flexdriver/ovirt-flexdriver.go:346-400 | round trip: reading the id back out of the device path of `virtio` or `virtio_iscsi` gives the 16-character short id |
| DevicePath.ExtractDeviceIdVirtioExample | cmd/ovirt-flexdriver/ovirt-flexdriver_test.go:5-30 | the unit test's virtio path yields its id |
| DevicePath.ExtractDeviceIdScsiExample | cmd/ovirt-flexdriver/ovirt-flexdriver_test.go:5-30 | the unit test's scsi path yields its id |
| DevicePath.ExtractDeviceIdUnknownExample | cmd/ovirt-flexdriver/ovirt-flexdriver_test.go:5-30 | the unit test's unknown naming scheme yields "" |
| DevicePath.FromK8sNameToOvirt | cmd/ovirt-flexdriver/ovirt-flexdriver.go:441-443 | same length; every `~` becomes `_` and every other character stays |
| DevicePath.FromK8sNameToOvirtIdempotent | cmd/ovirt-flexdriver/ovirt-flexdriver.go:441-443 | the result has no `~`, so converting twice equals converting once |
| DevicePath.FromK8sNameToOvirtFixesTildeFree | cmd/ovirt-flexdriver/ovirt-flexdriver.go:441-443 | a name without `~` is unchanged |
| MiniApi.BeforeQuery | internal/ovirt-mini-api.go:273-275 | the longest prefix of a resource path without `?`: what `Request.URL.Path` keeps of it |
| MiniApi.BeforeQueryKeepsPlainPath | internal/ovirt-mini-api.go:273-275 | a path is kept whole exactly when it has no query |
| MiniApi.BeforeQueryDropsQuery | internal/ovirt-mini-api.go:273-275 | `<base>?<query>` keeps exactly `<base>`, whatever the query |
| MiniApi.UrlPathOfResource | internal/ovirt-mini-api.go:273-275 | the reported path is the connection URL's path, a slash and the resource path; unchanged exactly when it has no query, shorter when it has one |
| MiniApi.UrlPath | internal/ovirt-mini-api.go:273-275 | the path a 404 reports: the connection URL's path, a slash, and the resource path before its query (stated by `MiniApi.UrlPathOfResource`) |
| MiniApi.RequestUrl | internal/ovirt-mini-api.go:435 | the requested URL is the connection URL, a slash, then the path |
| MiniApi.ProbeUrl | internal/ovirt-mini-api.go:140 | the probe requests the connection URL twice, joined by a slash |
| MiniApi.TranslateError | internal/ovirt-mini-api.go:269-283 | NotFound exactly for 404, whose text is "No resource at " + the URL path; otherwise an error carrying the status line |
| MiniApi.GetOutcome | internal/ovirt-mini-api.go:254-267 | `Get` passes exactly for status ≤ 200; a failure is NotFound exactly for 404 |
| MiniApi.PostOutcome | internal/ovirt-mini-api.go:285-304 | `Post` passes exactly for status ≤ 300; a failure carries the status line and is never NotFound |
| MiniApi.DeleteOutcome | internal/ovirt-mini-api.go:306-319 | `Delete` passes exactly for status ≤ 200; a failure carries the status line and is never NotFound |
| MiniApi.VerbsClassifyDifferently | internal/ovirt-mini-api.go:261-315 | only `Get` yields NotFound; 201–300 is a `Post` success but a `Get`/`Delete` failure; `Get` and `Delete` agree on success |
| MiniApi.Clear | internal/ovirt-mini-api.go:446-455 | on a 401 whose removal succeeds the token file is gone and the token value emptied; nothing else changes |
| MiniApi.ClearAfterFailedRemove | internal/ovirt-mini-api.go:451-455 | on a 401 whose removal fails only the token value is emptied; the file keeps its token, so the session is not cleared |
| MiniApi.FailedRemoveReloadsRejectedToken | internal/ovirt-mini-api.go:446-456 | after a failed removal the nested `Authenticate` reloads exactly the token just probed, equally fresh, with the same transport outcome |
| MiniApi.CaPort | internal/ovirt-mini-api.go:371-374 | the CA port is `8080` exactly when the engine port is `8443`, otherwise `80` |
| MiniApi.FetchCafile | internal/ovirt-mini-api.go:370-395 | one CA request to the host on the CA port; when the file can be written, the connection's CA file is set to it; the token state is untouched |
| MiniApi.ChooseTransport | internal/ovirt-mini-api.go:88-108 | insecure or `http` skips verification with no CA fetch; a CA is fetched only when none is configured and the scheme is `https`; success leaves a transport set |
| MiniApi.FetchToken | internal/ovirt-mini-api.go:399-432 | a non-200 answer or an unreadable body gives an error and the zero token; otherwise the token's expiry is `exp` read as absolute Unix nanoseconds and `ExpireIn` is kept |
| MiniApi.RefreshWithSentinelIsFresh | internal/ovirt-mini-api.go:429-430 | a refresh with the engine's sentinel `exp` (2^63−1 ns) succeeds, and leaves a session that is not stale at any int64 time exactly when the token is non-empty |
| MiniApi.Refresh | internal/ovirt-mini-api.go:117-124 | one token request; the session holds the fetched token; the token file changes only to a successfully fetched token |
| MiniApi.Stale | internal/ovirt-mini-api.go:117 | a token must be replaced when its value is empty or now is strictly after its expiry (used by `MiniApi.AuthenticateFetchesOnlyWhenNeeded` and `MiniApi.RefreshWithSentinelIsFresh`) |
| MiniApi.Authenticate | internal/ovirt-mini-api.go:82-126 | transport choice, then the saved token, then a fetch only when it is stale or fails the probe; stated by `AuthenticateCleared`, `AuthenticateReusesUsableToken`, `AuthenticateFetchesOnlyWhenNeeded`, `AuthenticatePersistsOnlyFetchedToken` and `AuthenticateTransport` |
| MiniApi.Loaded | internal/ovirt-mini-api.go:110-115 | reading the token file changes only the in-memory token |
| MiniApi.IsTokenValid | internal/ovirt-mini-api.go:139-150 | valid exactly when the probe's status is ≤ 200; the probe requests `ProbeUrl` |
| MiniApi.ClientDo | internal/ovirt-mini-api.go:434-461 | the original answer is returned; only a 401 changes the session, to `Authenticate` of the cleared session |
| MiniApi.Get | internal/ovirt-mini-api.go:254-267 | passes exactly for status ≤ 200; a 404 is NotFound of the requested URL's path; session as `clientDo` leaves it |
| MiniApi.Post | internal/ovirt-mini-api.go:285-304 | outcome classified as `PostOutcome`, session as `clientDo` leaves it |
| MiniApi.Delete | internal/ovirt-mini-api.go:306-319 | outcome classified as `DeleteOutcome`, session as `clientDo` leaves it |
| MiniApi.AuthenticateCleared | internal/ovirt-mini-api.go:116-124 | with no token, a successful transport choice is followed by exactly one fetch |
| MiniApi.AuthenticateReusesUsableToken | internal/ovirt-mini-api.go:117 | a fresh, unexpired token that passes the probe is reused: no fetch, token file unchanged |
| MiniApi.AuthenticateFetchesOnlyWhenNeeded | internal/ovirt-mini-api.go:117-118 | a fetch happens only if the token is empty, expired or fails the probe; at most two fetches (the probe's own 401 re-authentication included) |
| MiniApi.AuthenticatePersistsOnlyFetchedToken | internal/ovirt-mini-api.go:120-123 | the token file is unchanged, removed by a 401 probe, or holds a successfully fetched token |
| MiniApi.AuthenticateTransport | internal/ovirt-mini-api.go:88-98 | insecure/`http` skips verification and never fetches a CA; a CA is fetched (on `CaPort`) exactly when none is configured and the scheme is `https` |
| MiniApi.ClientDoUnauthorized | internal/ovirt-mini-api.go:444-460 | a 401 returns the original answer and re-authenticates once from a cleared session: one fetch, the fetched token, persisted only on success |
| Engine.FirstVmNamed | internal/ovirt-mini-api.go:321-334 | none exactly when no VM has the name; otherwise a VM of that name with none before it |
| Engine.DisksNamed | internal/ovirt-mini-api.go:189-197 | exactly the disks of that name |
| Engine.DisksNamedOfAppend | internal/ovirt-mini-api.go:189-197 | adding the first disk of a name makes it the only one the search returns |
| Engine.GetVM | internal/ovirt-mini-api.go:321-334 | one GET; on success the first VM of that name, or the zero VM (empty id) when there is none |
| Engine.GetDiskByName | internal/ovirt-mini-api.go:189-197 | one GET; on success exactly the disks of that name |
| Engine.GetDiskAttachment | internal/ovirt-mini-api.go:335-343 | one GET; with no fault it succeeds exactly when the VM has that attachment and fails with NotFound of the attachment's URL path otherwise |
| Engine.GetDiskAttachments | internal/ovirt-mini-api.go:345-353 | one GET; with no fault it succeeds exactly for a known VM and lists its attachments as currently observed |
| Engine.GetDisk | pkg/service/controller.go:65 | one GET of `disks/<id>`; succeeds exactly for status ≤ 200 (201–299 fail, as in `Get`); with no fault a failure is NotFound of the disk's URL path |
| Engine.NotFoundReportsDiskUrlPath | internal/ovirt-mini-api.go:273-275 | a 404 of `disks/<id>` reports the connection URL's path followed by `/disks/<id>` |
| Engine.NotFoundReportsSearchUrlPath | internal/ovirt-mini-api.go:273-275 | a 404 of a disk search by name reports the connection URL's path followed by `/disks` only |
| Engine.AttachmentPayload | internal/ovirt-mini-api.go:224-243 | active, format `raw`, read-only as passed, the given storage domain; interface as given or `virtio_scsi`; disk id only when given |
| Engine.CreateDisk | internal/ovirt-mini-api.go:216-252 | one POST of the defaulted payload to the VM's attachments; success exactly for status ≤ 300; when the engine accepts the create naturally (the VM exists and an id is available), the attachment exists afterwards; a fault answering ≤ 300 otherwise creates nothing |
| Engine.UnattachedPayload | internal/ovirt-mini-api.go:199-204 | the posted disk has the given name, size and storage domain and no id |
| Engine.CreateUnattachedDisk | internal/ovirt-mini-api.go:199-214 | one POST to `disks`; success exactly for status ≤ 300; when the engine accepts the create with a fresh id left, the new disk, with that id, exists afterwards and is returned; a fault answering ≤ 300 otherwise creates nothing |
| Engine.DetachDiskFromVM | internal/ovirt-mini-api.go:355-358 | one DELETE of `vms/<vmId>/diskattachments/<diskId>`; on success that attachment is gone |
| Engine.DeleteDisk | internal/ovirt-mini-api.go:306-319 | one DELETE of `disks/<id>`; a failure is never NotFound; on success no disk has that id |
| FlexDriver.App | cmd/ovirt-flexdriver/ovirt-flexdriver.go:57-113 | a command exactly when the list is non-empty and the name and count are accepted; otherwise the usage error |
| FlexDriver.AppUsageCases | cmd/ovirt-flexdriver/integ-tests_spec.go:53-57 | empty, unknown and short argument lists give the usage error; `init` accepts extra arguments |
| FlexDriver.DeviceReply | cmd/ovirt-flexdriver/ovirt-flexdriver.go:388-390 | an id shorter than 16 characters panics; otherwise the response of `responseFromDiskAttachment` |
| FlexDriver.Init | cmd/ovirt-flexdriver/ovirt-flexdriver.go:115-123 | a setup failure fails; otherwise success advertising `attach: true` and nothing else |
| FlexDriver.AttachDisk | cmd/ovirt-flexdriver/ovirt-flexdriver.go:182-201 | every error gives a Failure response; a success carries a by-id device path or the unsupported-device failure |
| FlexDriver.Attach | cmd/ovirt-flexdriver/ovirt-flexdriver.go:157-204 | setup and option errors fail before any remote call; every error gives a Failure response |
| FlexDriver.AttachRejectsMissingVm | cmd/ovirt-flexdriver/ovirt-flexdriver.go:178-181 | a VM with an empty id fails after the VM lookup alone, before any disk lookup |
| FlexDriver.AttachDiskCreatesOnlyMissing | cmd/ovirt-flexdriver/ovirt-flexdriver.go:188-200 | no disk of that name: exactly one create of the defaulted attachment; an existing disk: only reads, ending with its attachment fetch |
| FlexDriver.AttachCreatesOnlyMissingDisk | cmd/ovirt-flexdriver/ovirt-flexdriver.go:182-201 | one create exactly when the name search finds no disk; never a delete |
| FlexDriver.AttachCreatesAtMostOnce | cmd/ovirt-flexdriver/ovirt-flexdriver.go:157-204 | at most one create and no delete, whatever the engine answers |
| FlexDriver.AttachCreateAnswersUnsupported | cmd/ovirt-flexdriver/ovirt-flexdriver.go:188-193 | a created attachment gets the default `virtio_scsi` interface, so the reply is the unsupported-device failure |
| FlexDriver.AfterCreate | internal/ovirt-mini-api.go:216-252 | a create on a healthy engine makes the new disk the only one of its name and its attachment findable on the VM |
| FlexDriver.AttachTwiceCreatesOnce | cmd/ovirt-flexdriver/ovirt-flexdriver.go:188-200 | a repeated attach finds the disk the first created, creates nothing more and answers the same |
| FlexDriver.IsAttached | cmd/ovirt-flexdriver/ovirt-flexdriver.go:208-243 | only reads; errors give a Failure response; a success is `SuccessfulResponse` with `attached` "true" or "false" |
| FlexDriver.IsAttachedAnswers | cmd/ovirt-flexdriver/ovirt-flexdriver.go:235-242 | an existing attachment answers attached "true"; a missing one fails with NotFound |
| FlexDriver.IsAttachedNoDiskPanics | cmd/ovirt-flexdriver/ovirt-flexdriver.go:229-235 | with no disk of that name the first-disk index is out of range |
| FlexDriver.DetachDisk | cmd/ovirt-flexdriver/ovirt-flexdriver.go:269-289 | errors give a Failure response; a success is `SuccessfulResponse` |
| FlexDriver.Detach | cmd/ovirt-flexdriver/ovirt-flexdriver.go:248-292 | an empty node name, then an empty volume name, is rejected before any remote call |
| FlexDriver.DetachDeletesOneAttachment | cmd/ovirt-flexdriver/ovirt-flexdriver.go:283-289 | with a disk of that name, exactly one DELETE of `vms/<vmId>/diskattachments/<diskId>` and no create |
| FlexDriver.DetachMissingDiskDeletesNothing | cmd/ovirt-flexdriver/ovirt-flexdriver.go:279-282 | with no disk of that name, "Disk by name … does not exist" and only reads |
| FlexDriver.LastMatch | cmd/ovirt-flexdriver/ovirt-flexdriver.go:318-323 | none exactly when no disk id has the prefix; otherwise the last attachment whose disk id has it |
| FlexDriver.Poll | cmd/ovirt-flexdriver/ovirt-flexdriver.go:329-342 | at most `budget` re-fetches, one clock tick each, only reads; stops at once if active; a success before the budget is active |
| FlexDriver.PollLoop | cmd/ovirt-flexdriver/ovirt-flexdriver.go:329-342 | the counting loop computes the recursive reference `Poll` |
| FlexDriver.PollByNameIsNotFound | cmd/ovirt-flexdriver/ovirt-flexdriver.go:336 | re-fetching by VM name on an engine keyed by VM id is a 404 after one poll |
| FlexDriver.PollExhaustsBudget | cmd/ovirt-flexdriver/ovirt-flexdriver.go:331-342 | an attachment that never activates is polled exactly `budget` times and returned inactive |
| FlexDriver.WaitOnVm | cmd/ovirt-flexdriver/ovirt-flexdriver.go:308-343 | only reads, at most 5 ticks; errors give a Failure response; a success is `SuccessfulResponse` |
| FlexDriver.WaitForAttach | cmd/ovirt-flexdriver/ovirt-flexdriver.go:299-344 | setup errors fail; an all-slash path panics; only reads and at most 5 ticks |
| FlexDriver.WaitForAttachPolling | cmd/ovirt-flexdriver/ovirt-flexdriver.go:299-344 | the loop version computes the same step as `WaitForAttach` |
| FlexDriver.WaitForAttachNoMatch | cmd/ovirt-flexdriver/ovirt-flexdriver.go:324-327 | no matching attachment fails with "Disk with id … was not found" and no wait |
| FlexDriver.WaitForAttachActiveAtOnce | cmd/ovirt-flexdriver/ovirt-flexdriver.go:331-334 | an already active match succeeds with no wait |
| FlexDriver.WaitForAttachSucceedsInactive | cmd/ovirt-flexdriver/ovirt-flexdriver.go:329-343 | a match that never activates is waited on 5 times and still reported as success |
| FlexDriver.GetVolumeName | cmd/ovirt-flexdriver/ovirt-flexdriver.go:402-438 | only reads; errors give a Failure response; a success carries a by-id device path or the unsupported-device failure |
| CloudProvider.NewOvirtProvider | cmd/ovirt-cloud-provider/ovirt-cloud-provider.go:64-73 | fails exactly when the engine URL is empty; otherwise the VM query is the default search followed by the filter |
| CloudProvider.VmsByName | cmd/ovirt-cloud-provider/ovirt-cloud-provider.go:248-257 | keys are exactly the VM names; each value has its key as name |
| CloudProvider.VmsByNameIsLast | cmd/ovirt-cloud-provider/ovirt-cloud-provider.go:253-255 | the indexed VM is the last of its name in the list |
| CloudProvider.SurvivorsAreIndexed | cmd/ovirt-cloud-provider/ovirt-cloud-provider.go:253-255 | the last VM of a name is the one indexed |
| CloudProvider.LaterVmOverrides | cmd/ovirt-cloud-provider/ovirt-cloud-provider.go:253-255 | a VM appended last overrides any earlier VM of its name |
| CloudProvider.SurvivorIds | cmd/ovirt-cloud-provider/ovirt-cloud-provider.go:259-269 | re-keying the surviving VMs by id gives exactly their ids as keys |
| CloudProvider.VmsById | cmd/ovirt-cloud-provider/ovirt-cloud-provider.go:259-269 | keys are exactly the ids of the by-name survivors; each value has its key as id and is its name's survivor |
| CloudProvider.VmsByIdFindsEverySurvivor | cmd/ovirt-cloud-provider/ovirt-cloud-provider.go:259-269 | with distinct survivor ids, every survivor is found under its id |
| CloudProvider.InstanceId | cmd/ovirt-cloud-provider/ovirt-cloud-provider.go:120-127 | an absent or `down` VM gives ("", instance not found); otherwise its id |
| CloudProvider.ExternalId | cmd/ovirt-cloud-provider/ovirt-cloud-provider.go:170-180 | a listing error is passed on; an absent name is instance not found; otherwise the id with no status check |
| CloudProvider.DownVmHasExternalIdOnly | cmd/ovirt-cloud-provider/ovirt-cloud-provider.go:120-180 | a `down` VM has an external id but no instance id |
| CloudProvider.InstanceExistsByProviderId | cmd/ovirt-cloud-provider/ovirt-cloud-provider.go:184-201 | a known id exists exactly when its status is not `down`; an unknown id is false with an error |
| CloudProvider.InstanceShutdownByProviderId | cmd/ovirt-cloud-provider/ovirt-cloud-provider.go:203-216 | true exactly for a known id whose status is `down`; an unknown id is an error |
| CloudProvider.ExistsIffNotShutdown | cmd/ovirt-cloud-provider/ovirt-cloud-provider.go:184-216 | for a known id, "exists" is exactly "not shut down" |
| CloudProvider.DeviceIpsFront | cmd/ovirt-cloud-provider/ovirt-cloud-provider.go:276-280 | the flattened ips start with the first device's ips |
| CloudProvider.NicIpsFront | cmd/ovirt-cloud-provider/ovirt-cloud-provider.go:275-281 | the flattened ips start with the first nic's ips |
| CloudProvider.NicIpsCount | cmd/ovirt-cloud-provider/ovirt-cloud-provider.go:273-283 | the flattening has one entry per ip |
| CloudProvider.AddressesOf | cmd/ovirt-cloud-provider/ovirt-cloud-provider.go:278 | one `ExternalIP` address per ip, in order |
| CloudProvider.ExtractNodeAddresses | cmd/ovirt-cloud-provider/ovirt-cloud-provider.go:273-283 | one `ExternalIP` address per ip in nic → device → ip order; as many addresses as ips |
| CloudProvider.NodeAddresses | cmd/ovirt-cloud-provider/ovirt-cloud-provider.go:99-116 | a listing error is passed on; an absent VM (empty id) fails; otherwise its addresses |
| CloudProvider.NodeAddressesByProviderId | cmd/ovirt-cloud-provider/ovirt-cloud-provider.go:229-246 | a listing error is passed on; an unknown id fails; otherwise that VM's addresses |
| Controller.VolumeOf | pkg/service/controller.go:31-41 | the volume id is the disk id; the capacity is the provisioned size (below 2^63) |
| Controller.CreateVolume | pkg/service/controller.go:23-61 | a failed lookup fails with nothing created; exactly one disk of the name is reused with no create; otherwise exactly one read-write create with thin = `ParseBoolParam(param, true)`, returning the created disk's id and size |
| Controller.CreateVolumeCreatesAtMostOnce | pkg/service/controller.go:25-50 | one create exactly when the lookup succeeds and does not find exactly one disk; never a delete |
| Controller.CreateVolumeTwiceCreatesOnce | pkg/service/controller.go:24-41 | a repeated `CreateVolume` returns the same volume and creates nothing more |
| Controller.DeleteVolume | pkg/service/controller.go:63-80 | NotFound succeeds with no delete; another probe failure fails with no delete; otherwise exactly one DELETE of `disks/<id>` whose outcome is the call's |
| Controller.DeleteVolumeDeletesAtMostOnce | pkg/service/controller.go:63-80 | one delete exactly when the probe succeeds; never a create |
| Controller.DeleteVolumeTwiceDeletesOnce | pkg/service/controller.go:64-70 | on a healthy engine the call succeeds and the disk is gone; a repeat succeeds and deletes nothing |
| Controller.ControllerGetCapabilities | pkg/service/controller.go:118-133 | one RPC capability per `ControllerCaps` entry, in the same order |
| Provisioner.FsTypeOf | cmd/ovirt-volume-provisioner/provision.go:70-73 | the `fsType` parameter, or `ext4` when it is absent or empty |
| Provisioner.ThinOf | cmd/ovirt-volume-provisioner/provision.go:83-92 | true when absent; when present, the parsed boolean, or true if it does not parse |
| Provisioner.ThinOfAgreesWithParseBoolParam | cmd/ovirt-volume-provisioner/provision.go:83-92 | the provisioner's own parsing equals `ParseBoolParam(param, true)` |
| Provisioner.Annotations | cmd/ovirt-volume-provisioner/provision.go:111-114 | exactly three keys: created-by `ovirt-provisioner`, the provisioner id, the disk id |
| Provisioner.DriverNameSpelledOut | cmd/ovirt-volume-provisioner/provision.go:134 | the driver is `ovirt/ovirt-flexvolume-driver` |
| Provisioner.PvFromDisk | cmd/ovirt-volume-provisioner/provision.go:110-143 | named after the PV; the three annotations; the zone label; the disk's capacity; driver `ovirt/ovirt-flexvolume-driver`, no options, not read-only, the chosen file system |
| Provisioner.Provision | cmd/ovirt-volume-provisioner/provision.go:66-107 | exactly one create of a read-write disk named after the PV in the parameter's storage domain; a failure gives no PV; a success gives the PV of the created disk |
| Provisioner.Delete | cmd/ovirt-volume-provisioner/provision.go:147-152 | exactly one DELETE of `disks/` + the volume-id annotation; on success no disk has that id |
| Provisioner.ProvisionThenDeleteRemovesTheDisk | cmd/ovirt-volume-provisioner/provision.go:94-151 | round trip: deleting the provisioned PV deletes exactly the disk that was created, and it is gone |

## Findings

| source | as written | input that shows it | evidently intended | confidence | as-written member | corrected member |
|---|---|---|---|---|---|---|
| internal/ovirt-mini-api.go:446-456 | on a 401, a failed `os.Remove(tokenStore)` is only logged, the in-memory value is emptied, and `Authenticate` runs again; it reloads the token from the file that was not removed | a token file that cannot be removed but can still be read (a read-only remount of `/tmp`, or a file marked immutable) holding a non-empty, unexpired token that the engine answers 401 to: the nested `Authenticate` probes the same token, gets 401 again and recurses without end | the re-authentication starts from no token and fetches a new one | medium; not executed | MiniApi.FailedRemoveReloadsRejectedToken | MiniApi.AuthenticateCleared |

## Left out

- Configuration and environment loading are not modelled; their outcome is an
  input. This covers `newOvirt` and `NewOvirt` (viper/gcfg/ini), kubeconfig
  discovery, and the provisioner's `main`.
- JSON encoding and decoding are not modelled. This covers `AttachRequestFrom`,
  the request payloads and the response bodies. A decoded body is a record; a
  body that does not decode is an input to `FetchToken`.
- TLS pool building is not modelled: `readCaCertPool` is whether a CA file can
  be read. The HTTP transport is not modelled either. A transport error where
  `client.Do` returns no response is left out, because `clientDo` then
  dereferences a nil response.
- Mounting and unmounting through `exec` are left out, as are `MountDevice` and
  `UnmountDevice`. The `kubectl` node-name lookup `GetOvirtNodeName` is an
  input.
- `time.Sleep` is one tick of the engine's clock. The poll is a budget of 5
  iterations.
- Logging (glog, klog) and `fmt.Println` are left out.
- The token file is modelled only as present or absent plus its stored token.
  Concurrent invocations racing on it are not modelled.
- `CloudProvider.VmsById`: Go iterates a map in random order. When two
  surviving VMs share an id, the model keeps the later one in list order.
  Go may keep either.
- `CloudProvider.InstanceExistsByProviderId`: it scans that same map, so the
  same list-order resolution applies.
- `FlexDriver.AttachDisk` drops the size argument the driver passes to
  `CreateDisk`. The mini-api's `CreateDisk` has no size parameter.
- Disk format and sparseness by storage-domain type are not modelled. The code
  does not decide them. `CreateUnattachedDisk` ignores `readOnly`, and the model
  records it in the request without acting on it.
- The engine gives a new disk the next id from a supply of fresh ids. Lemmas
  that re-read a created attachment assume that id is not already in use on
  that VM (`FlexDriver.FreshFor`).
- `MiniApi.Authenticate` has no postcondition of its own, because it is mutually
  recursive with `IsTokenValid` and `ClientDo`. Its behaviour is stated by the
  `Authenticate…` lemmas.
- `MiniApi.Authenticate` and `MiniApi.ClientDo`: the re-authentication a 401
  probe triggers runs on the same `World` as the outer call. Both token fetches
  of one call therefore see the same clock, the same token-endpoint answer and
  the same body. In Go they are two separate logins that may return different
  tokens or outcomes. `MiniApi.AuthenticatePersistsOnlyFetchedToken` and
  `MiniApi.ClientDoUnauthorized` name `FetchToken(w)` as the token for that
  reason.
- Superseded or broken copies are not part of this model. These are
  `cmd/internal`, `internal/actions.go` and the older `cmd/ovirt-provisioner`.
- The gRPC/CSI wiring is not part of this model. This covers `driver.go`, the
  node service, the identity service, and the controller RPCs that answer
  `Unimplemented`. `ControllerGetCapabilities` advertises publish/unpublish
  even though `ControllerPublishVolume` is unimplemented.
- The cloud provider's registration and its constant-returning interface
  methods are left out.
- `Provisioner.PvFromDisk` does not model the capacity quantity's format
  suffix. Only its byte value is kept.
- `MiniApi.Clear` assumes the removal of the token file succeeds. The failed
  removal is stated separately (`MiniApi.ClearAfterFailedRemove`,
  `MiniApi.FailedRemoveReloadsRejectedToken`), but `Authenticate` does not
  follow it, because that path does not terminate (see "## Findings").
- `MiniApi.UrlPath` does not model the percent-decoding `Request.URL.Path`
  applies, a `#` fragment, or the `%` verbs that `fmt.Sprintf` would expand
  inside the path. Engine names and ids are plain text here.
- Engine.GetVM, Engine.GetDiskByName, Engine.GetDiskAttachment,
  Engine.GetDiskAttachments, Engine.GetDisk, Engine.CreateDisk,
  Engine.CreateUnattachedDisk, Engine.DetachDiskFromVM and Engine.DeleteDisk
  classify the engine's answer directly. They do not go through the session,
  so the 401 re-authentication of `clientDo` does not happen inside Attach,
  IsAttached, Detach, WaitForAttach, GetVolumeName, CreateVolume,
  DeleteVolume or Provision. That re-authentication is modelled only in
  `MiniApi.ClientDo`, `MiniApi.Get`, `MiniApi.Post` and `MiniApi.Delete`.
- DevicePath.ResponseFromDiskAttachment and FlexDriver.DeviceReply take the
  first 16 characters of the id, while Go's `diskId[:16]` takes 16 bytes. The
  two agree for the ASCII ids the engine issues.
