# eurekago client core in Dafny

This project models the sequential decision logic of `eurekago`, a Go client for the Eureka
service registry, and proves properties of it. Three pieces are modelled:

- **The registry protocol adapter** (`httpClient`, eureka_http_client.go). It keeps an
  ordered list of registry base URLs, with trailing `/` trimmed, and a current index that
  `handleError` advances round-robin after a transport failure. It builds one request URL
  per operation: register, deregister, heartbeat, status update, list applications
  (optionally by region), get application, get instance and get instance by id. It decides
  acceptance from status codes: register on 200 or 204, deregister and status update on
  200 only. It classifies read results: a transport error, an empty body, or a body handed
  to the JSON or XML decoder.
- **The lifecycle manager** (`discoveryClient`, discovery_client.go).
  - `NewDiscoveryClient` checks the required settings, builds the instance record with the
    defaults of define.go, and registers once when registration is enabled.
  - One heartbeat tick (`sendHeartbeat`) is a pure transition. On 200/204 nothing changes.
    On 404 the record is marked dirty, stamped with the clock and re-registered; it becomes
    clean again if the registry accepts. On a transport failure with more than one URL the
    adapter and the manager's own counter both rotate; with a single URL neither moves. On
    any other code nothing changes.
  - `DiscoveryStatusUpdate` and the four reads delegate to the adapter.
- **The Go library behaviour these rely on** (module `Strings`): `strings.TrimRight`,
  `ToUpper`, `Contains`, `Join` and `Split`, and `%d` formatting. Each is paired with an
  independent characterisation or an inverse:
  - `TrimRight` with the uniqueness of its three facts;
  - `ToUpper` with letter offsets in the alphabet and idempotence;
  - `Contains` with an occurrence at some index;
  - `Join` with `Split`;
  - `%d` with parsing, and with the uniqueness of canonical decimal text.

The network, the clock, the local address and the JSON/XML codecs are inputs:
- an `Outcome` (`Failed(reason)` or `Response(body, status)`) per request;
- a clock reading in nanoseconds;
- an address string;
- serialiser and decoder functions.

Every operation returns the requests it would have sent, so URL shapes, methods and bodies
are stated in contracts.

Layout:
- `base.dfy`: `Option`, `Result`, `Error`.
- `strings.dfy`: the string helpers.
- `entity.dfy`: three modules.
  - `Define`: the constants of define.go.
  - `Entity`: the records of eureka_entity.go.
  - `Transport`: the request and outcome boundary of http.go.
- `eureka_http.dfy`: the adapter.
- `eureka_http_props.dfy`: URL round-trips, endpoint rotation over runs of calls.
- `discovery.dfy`: the lifecycle manager.
- `discovery_props.dfy`: runs of heartbeat ticks, and concrete scenarios.

## Model

| member | source | states |
|---|---|---|
| `Strings.TrimRight` | eureka_http_client.go:47-49 | the result is a prefix of the input, does not end in the cut character, and everything cut off is that character |
| `Strings.ToUpper` | discovery_client.go:50 | same length; each ASCII lower-case letter becomes an upper-case letter at the same offset from `A` as it had from `a`, and every other character is kept |
| `Strings.ToUpperIdempotent` | discovery_client.go:50 | the upper-cased text holds no ASCII lower-case letter, so upper-casing it again changes nothing |
| `Strings.ContainsSpec` | discovery_client.go:50 | `Contains(s, sub)` holds exactly when `sub` occurs at some position of `s` |
| `Strings.JoinSplit` | eureka_http_client.go:147 | splitting at a separator and joining with it gives back the original string |
| `Strings.SplitJoin` | eureka_http_client.go:147 | joining a non-empty list of separator-free parts and splitting again gives back exactly the parts |
| `Strings.FormatIntRoundTrip` | discovery_client.go:187 | the `%d` rendering of any integer parses back to that integer |
| `Strings.FormatInt` | discovery_client.go:187 | the `%d` text is canonical: a `-` exactly for negatives, then digits with no leading zero, and never `-0` |
| `Strings.CanonicalIsFormatInt` | discovery_client.go:163 | canonical decimal text that parses to `n` is exactly the `%d` text of `n`, so the stamp on the wire is pinned down by its value |
| `EurekaHttp.HttpClient.HandleError` | eureka_http_client.go:232-237 | with more than one endpoint the index moves to the next one modulo M and the active URL follows it; with one endpoint nothing changes; nothing else ever changes |
| `EurekaHttp.NewEurekaHttpClient` | eureka_http_client.go:37-59 | the list keeps its length; each stored URL is a prefix of its input, does not end in `/`, and only `/` was cut; the index is 0 and the active URL is the first; `Accept` and `Content-Type` are both JSON or both XML by the mode |
| `EurekaHttp.Register` | eureka_http_client.go:62-86 | accepted iff serialisation succeeds and the status is 200 or 204; a serialisation error sends nothing; otherwise one POST to `base/apps/<app>` with the serialised body, the transport error passed through, the endpoint rotated exactly on a transport failure |
| `EurekaHttp.Deregister` | eureka_http_client.go:89-102 | one DELETE to the instance URL; accepted iff the status is 200; the transport error passed through and the endpoint rotated on it |
| `EurekaHttp.SendHeartBeat` | eureka_http_client.go:105-122 | one PUT to the heartbeat URL; returns the raw status code, 0 on a transport failure, which also rotates the endpoint |
| `EurekaHttp.StatusUpdate` | eureka_http_client.go:125-140 | one PUT to the status URL; accepted iff the status is 200; the error passed through, rotating on a transport failure |
| `EurekaHttp.RequestAndFormatResult` | eureka_http_client.go:212-230 | a transport failure rotates the endpoint and returns the error undecoded; an empty body is `DataEmpty` without rotation; any other body goes to the JSON decoder iff the adapter is in JSON mode |
| `EurekaHttp.GetApplications` | eureka_http_client.go:144-162 | one GET of the applications URL for the regions; the result and next adapter state are the classifier's |
| `EurekaHttp.GetApplication` | eureka_http_client.go:165-178 | one GET of `base/apps/<app>`, classified as above |
| `EurekaHttp.GetInstance` | eureka_http_client.go:181-194 | one GET of `base/apps/<app>/<id>`, classified as above |
| `EurekaHttp.GetInstanceById` | eureka_http_client.go:197-210 | one GET of `base/instances/<id>`, classified as above |
| `EurekaHttpProps.AppUrlSegments` | eureka_http_client.go:69 | the register and get-application URL splits at `/` into the base's segments followed by `apps` and the application name |
| `EurekaHttpProps.InstanceUrlSegments` | eureka_http_client.go:183 | the deregister and get-instance URL splits into the base's segments followed by `apps`, the application and the instance id |
| `EurekaHttpProps.InstanceByIdUrlSegments` | eureka_http_client.go:199 | the instance-by-id URL splits into the base's segments followed by `instances` and the id |
| `EurekaHttpProps.HeartbeatUrlQuery` | eureka_http_client.go:106-109 | the heartbeat URL's path is the instance URL; its query holds `status` and `lastDirtyTimestamp` with their values intact, then `overriddenstatus` exactly when one is given |
| `EurekaHttpProps.StatusUpdateUrlQuery` | eureka_http_client.go:127 | the status URL's path is the instance URL plus `/status`; its query is `value` and `lastDirtyTimestamp` with their values |
| `EurekaHttpProps.ApplicationsUrlQuery` | eureka_http_client.go:145-148 | the applications URL has no query iff no region is given; otherwise its one parameter is `regions`, whose value splits at `,` back into the regions |
| `EurekaHttpProps.AfterCallsRotation` | eureka_http_client.go:232-237 | over any run of calls only the index and active URL change; with M > 1 endpoints the index is the start plus the number of transport failures, modulo M; with one endpoint nothing changes |
| `EurekaHttpProps.ConsecutiveFailures` | eureka_http_client.go:78-80 | N transport failures in a row against M > 1 endpoints leave the index at (i0 + N) mod M |
| `EurekaHttpProps.AnsweredCallsNeverRotate` | eureka_http_client.go:97-100 | a run of calls that all received a status code leaves the adapter unchanged |
| `Discovery.UnixMillis` | discovery_client.go:187 | the millisecond count truncates toward zero, bounded on both sides of the epoch as Go's integer division is |
| `Discovery.UnixMillisMonotonic` | discovery_client.go:163 | a later clock reading never gives a smaller millisecond count |
| `Discovery.GetIsJsonContentType` | discovery_client.go:49-51 | JSON mode iff no content type is configured or its upper-cased form contains `JSON` somewhere |
| `Discovery.JsonDetectionIgnoresCase` | discovery_client.go:49-51 | JSON mode iff no content type is configured or the letters `j`, `s`, `o`, `n` appear consecutively in it in any mix of upper and lower case |
| `Discovery.GetWrapperInstanceInfo` | discovery_client.go:172-215 | renewal interval and lease duration are the configured values when positive, else 30 and 90; host name is the configured one when non-empty, else `localhost`; status UP, port enabled, the define.go data-centre class and name; VIP and secure VIP are the app name; the management port parses back to the port; both time stamps are equal and parse back to the clock's milliseconds |
| `Discovery.SetIsDirty` | discovery_client.go:162-165 | marks the record dirty and stamps a time stamp that parses back to the clock's milliseconds; nothing else changes |
| `Discovery.UnsetIsDirty` | discovery_client.go:168-170 | clears the dirty mark; the time stamp and everything else are kept |
| `Discovery.NewDiscoveryClient` | discovery_client.go:18-46 | no client iff the app name, the instance id or the URL list is missing; then a parameter error, no register call, no request, no heartbeat, and the caller's configuration untouched. Otherwise the caller's configuration holds the trimmed URL list the client uses, and the client is valid, clean, at index 0, holds the built record, and starts the heartbeat iff registration is enabled. When enabled there is exactly one register call with the record, and its outcome is the start-up result |
| `Discovery.DiscoveryClient.RotateIndex` | discovery_client.go:139-142 | with more than one URL the manager's own index moves to the next one modulo M; with one URL nothing changes; nothing else ever changes |
| `Discovery.SendHeartbeat` | discovery_client.go:136-159 | always sends the heartbeat first. A transport failure returns the error, makes no register call, keeps the dirty state, rotates the adapter, and rotates the own index only when M > 1. 200/204 is success with no change. 404 makes exactly one register call with the unchanged record, stamps the clock, succeeds iff the registry accepted, and is dirty iff it did not. Any other code is failure with no change |
| `Discovery.DiscoveryStatusUpdate` | discovery_client.go:75-77 | one PUT to this client's own status URL with its current dirty stamp; accepted iff 200; only the adapter's endpoint can change |
| `Discovery.GetApplications` | discovery_client.go:81-83 | exactly one GET of the applications URL (with the regions) on the current endpoint; the value is the read classifier's; the endpoint moves on only after a transport failure and nothing else in the manager changes |
| `Discovery.GetApplication` | discovery_client.go:86-88 | the same pass-through as one GET of `base/apps/<app>` |
| `Discovery.GetInstance` | discovery_client.go:91-93 | the same pass-through as one GET of `base/apps/<app>/<id>` |
| `Discovery.GetInstanceById` | discovery_client.go:96-98 | the same pass-through as one GET of `base/instances/<id>` |
| `DiscoveryProps.RunTicks` | discovery_client.go:116-123 | any run of heartbeat ticks keeps the client valid, the instance record and the URL list unchanged |
| `DiscoveryProps.DirtyStateAfterRun` | discovery_client.go:149-155 | after any run, the dirty mark and stamp are decided by the last 404 alone: dirty iff its re-registration was refused, stamped with that tick's clock. With no 404 they are as at the start |
| `DiscoveryProps.DirtyStampNeverGoesBack` | discovery_client.go:162-165 | with a clock that does not go back, a tick never leaves a dirty stamp earlier than the one before |
| `DiscoveryProps.FailedTicksRotate` | discovery_client.go:138-144 | N heartbeats that fail at the transport against M > 1 endpoints move the adapter's index to (i0 + N) mod M |
| `DiscoveryProps.FailedTickStep` | discovery_client.go:136-144 | one heartbeat that fails at the transport against M > 1 endpoints moves both the adapter's and the manager's index to the next endpoint modulo M and leaves the dirty flag and stamp alone |
| `DiscoveryProps.AcknowledgedTicksChangeNothing` | discovery_client.go:146-148 | heartbeats all answered 200 or 204 leave the state exactly as it was |
| `DiscoveryProps.HeartbeatReportsUp` | discovery_client.go:138 | every heartbeat addresses this instance and its query is exactly `status=UP` and the current dirty stamp, with no overridden status |
| `DiscoveryProps.StatusUpdateTargetsSelf` | discovery_client.go:76 | every status update addresses this client's own app and instance and carries the new status and the current dirty stamp |
| `DiscoveryProps.ScenarioStartup` | discovery_client.go:24-43 | start-up against `http://a` and `http://b/` with a 204 registration is registered and started, with the list trimmed to `http://a`, `http://b` in both the client and the caller's configuration, index 0 and a clean record |
| `DiscoveryProps.FailoverThenReregister` | discovery_client.go:136-159 | a failed heartbeat moves to `http://b`; a 404 there re-registers by POST to `http://b/apps/orders` with the start-up record; an accepted re-registration leaves the instance clean |
| `DiscoveryProps.MissingInstanceIdRejected` | discovery_client.go:19-22 | a configuration without an instance id gives a parameter error, and nothing is registered, sent or started |

## Left out

- The network transport (`handleHttpRequest`, http.go). It is an input `Outcome` per
  request. A failure before a status code is `Failed`, and its status reads as 0.
- A GET whose body cannot be read (http.go:44-46) returns both an error and a status. The
  model reads it as `Failed`. The reads ignore the status, so their behaviour is the same.
- JSON/XML marshalling and unmarshalling. These are opaque function parameters. Register
  always uses the JSON serialiser whatever the mode (eureka_http_client.go:64). Decoded
  values are left abstract: a decode error is an `Err`, and the partly filled result Go
  returns beside it is not modelled.
- `heartbeatTask` and `Shutdown` (discovery_client.go:101-131). They are goroutines, a
  ticker, a channel and a wait group. `RunTicks` stands for the ticker firing any number of
  times. The deregistration `Shutdown` sends is modelled as `EurekaHttp.Deregister`.
- Concurrent calls on one client. The model runs every operation in sequence, each taking
  the state the previous one left. The source gives no such guarantee. The ticker goroutine
  (discovery_client.go:116-119, reaching eureka_http_client.go:232-237 through `sendHeartbeat`)
  and the caller's own goroutines (reads, status updates) read and write the adapter's
  `urlIndex` and `serviceUrl` without a lock. `lastDirtyTimestamp` is written at
  discovery_client.go:163 and read at :76 from different goroutines. `AfterCallsRotation`,
  `ConsecutiveFailures`, `FailedTicksRotate` and `DirtyStateAfterRun` hold only when calls
  on one client never overlap.
- `getLocalIP` (discovery_client.go:218-234) reads the host's interfaces. The address is a
  parameter.
- `time.Now()` is a parameter in nanoseconds.
- Logging and `fmt.Println` have no effect on the modelled state.
- The application-list records (`ApplicationList`, `WrapperApplicationInfo`) are produced
  only by the decoders. They appear as the decoders' type parameter.
- `Strings.ToUpper`: upper-cases ASCII letters only. Go's `strings.ToUpper` also maps
  non-ASCII letters, which can only matter for a configured content type containing such
  letters.
- `Discovery.UnixMillis`: nanoseconds are an unbounded integer. Go's `UnixNano` is defined
  only for the years 1678 to 2262, and the model accepts any integer.
- `Discovery.UnixMillisMonotonic`: time stamps are only shown never to decrease. Two
  evictions in the same millisecond get the same stamp, so they do not strictly increase.
- `Discovery.NewDiscoveryClient`: the heartbeat is started only when registration is
  enabled, as discovery_client.go:40-43 does. The loop is not started when registration is
  off.
- `Discovery.SendHeartbeat`: the re-registration after a 404 sends the record built at
  start-up. Its `lastDirtyTimestamp` is the start-up stamp, not the one just set on the
  manager. The model keeps this as the code does.
- `Discovery.SendHeartbeat`: the manager's own `urlIndex` is rotated as the code does but is
  never read by anything. The endpoint actually used is the adapter's.
