# GroundedSearch service foundation: a verified model

GroundedSearch's first phase is a Go search API in front of a Python ML service, plus the tooling that
builds and checks them. This project models the parts of it that carry state, failure or concurrency, and
proves what holds for every handler, application, error tree, chunking and interleaving around them:

- `HttpServer`, `HttpMiddleware`: the Go middleware chain (identifier, recovery, access log with
  `statusRecorder`) around an arbitrary handler, and the service's own routes.
- `AsgiMiddleware`: the Python `RequestContextMiddleware` around an arbitrary ASGI application, over a
  server whose `send` may fail on any call.
- `RequestIds`, `Numerals`, `Whitespace`: the two request-identifier normalisers, the generators, and
  their agreement. A header value is a string of bytes, one `char` per byte: Go reads it as UTF-8, Starlette
  as Latin-1.
- `Shutdown`: `run` as a transition system over listener goroutine, channel, signal, deadline and selects.
- `GoErrors`, `Classifier`, `MlClient`, `SystemStatus`: the bounded dependency call, its error trees, the
  classifier that searches them, and the payload published in the end.
- `Environment`: the one-key and the in-place batch environment updates.
- `Contracts`: the OpenAPI contract checks and what they mean for following references.
- `CommandLine`, `RepositoryRoot`: `formatCommand` and `findRepositoryRoot`.
- `Lifecycle`: one request through both services, from the theorems about the parts.

Code that works by changing things is a method or a class proved against a pure function; the theorems
are lemmas about that function. `dafny verify dfyconfig.toml` checks the whole project.

## Where the code does not do what one would expect

Each of these has a lemma with a concrete witness or the exact condition:

- A handler that announces a 1xx status before its real one is answered with 200 and logged with the 1xx
  status, because the recorder swallows the later `WriteHeader`. Log and wire agree on a normal return
  exactly when the first announcement is a final status (`AccessLogTruthfulIff`, `RecorderSimulatesIff`).
- A panic after the response has started leaves status and headers alone but appends the error JSON to the
  body (`ServeMeans`).
- An ASGI start without `headers`, which the ASGI specification makes optional, sets the middleware's
  "started" flag and then raises. Nothing reaches the server, no error response follows, and the log reports
  the status never sent (`HeaderlessStartIsLost`). The server is left without a start after an exception
  exactly when starts were attempted and all were malformed (`UnansweredExceptionIff`); for the client's side,
  with messages lost on the way, see `ClientUnansweredIff`.
- The Python log reports attempts, not deliveries: a start the server's `send` refuses is logged all the same
  (`RefusedStartIsLogged`, `RefusedSecondStartIsLogged`). The logged status is the client's exactly when the
  last start with a status had headers and reached the client, or stated the status the client had anyway
  (`LogTruthfulIff`); for one start at most, the log misleads exactly when that start states a status other
  than the assumed 500 and has no headers or is refused (`SingleStartLogTruthfulIff`).
- `errors.As` asks only the first `net.Error` of a tree, so a timeout joined behind another network error
  is not reported as a timeout (`JoinOrderMatters`; exact condition in `JoinOrderMattersIff`).
- On one raw header the two services may disagree on acceptance, because they trim different whitespace,
  though never on the identifier (`NormalisersDisagreeOnAcceptance`, `NormalisersNeverConflict`). Of the values
  one of them accepts, both accept exactly those made of visible ASCII characters and the bytes 0x09 to 0x0d
  and 0x20 alone (`NormalisersAgreeIff`).
- The result of the batch environment update depends on Go's map order, beyond the order of the entries,
  exactly when some key's entry is dropped by another key whose own entry is a different text
  (`BatchOrderIrrelevantIff`; two batches with dropped entries, one of each kind, in `DroppedEntries`).
- The contract check resolves schema references only. Whatever is expected, the references that are sure to
  resolve wherever they are accepted are exactly the schema references and those the check never accepts
  (`AcceptedReferencesResolveIff`); every header and every response reference dangles in some accepted contract
  (`DanglingReferenceAccepted`, `HeaderReferencesUnchecked`).
- After cancellation the listener's verdict may be lost, whatever it is: `run` reports it exactly when one of
  its selects received it, and otherwise returned on a failed `Shutdown` or on the deadline
  (`VerdictReportedIff`). Both happen: a failed `Shutdown` hides a listen failure that raced with cancellation
  (`RacingFailureMayBeHidden`), and a deadline that passes after a successful `Shutdown` may be reported even
  though the server's clean exit is already in the channel (`CleanExitMayBeReportedAsDeadline`).

## Model

| member | source | states |
|---|---|---|
| HttpServer.ResponseWriter.WriteHeader | apps/search-api/internal/httpapi/handler.go:433 | the interface the chain relies on: the first final status commits and freezes the headers, interim ones pass, invalid ones panic, later calls are ignored |
| HttpMiddleware.StatusRecorder.WriteHeader | apps/search-api/internal/httpapi/handler.go:426-434 | the recorder's new state and what it passes on, including the panic of the writer below |
| HttpMiddleware.StatusRecorder.Write | apps/search-api/internal/httpapi/handler.go:436-442 | an implicit 200 before the first body byte, in recorder and writer alike |
| HttpMiddleware.RunHandler | apps/search-api/internal/httpapi/handler.go:407 | running any handler against the recorder, stopping where a call panics |
| HttpMiddleware.AccessLog | apps/search-api/internal/httpapi/handler.go:393-418 | one completion record on a normal return, none on a panic |
| HttpMiddleware.Recovery | apps/search-api/internal/httpapi/handler.go:357-391 | every run ends with exactly one record, and a panic with the error response written past the recorder |
| HttpMiddleware.Handle | apps/search-api/internal/httpapi/handler.go:329-355 | the whole chain, for every raw header, random source, clock and handler, leaves what `Serve` says, under the identifier `GoUses` describes: the acceptable one of the header, otherwise the random bytes in hexadecimal or clock and counter |
| HttpMiddleware.ServeMeans | apps/search-api/internal/httpapi/handler.go:357-442 | for every handler: the first committed status and its headers reach the wire even after a panic; otherwise 500 with the error body for a panic and 200 for a return; one log record |
| HttpMiddleware.AccessLogTruthfulIff | apps/search-api/internal/httpapi/handler.go:409-416 | on a normal return the logged status is the client's exactly when the handler's first announcement is a final status |
| HttpMiddleware.RecorderSimulatesIff | apps/search-api/internal/httpapi/handler.go:420-442 | recorder and writer agree on started and status after any calls, exactly under that condition |
| HttpMiddleware.EarlyHintsHideTheStatus | apps/search-api/internal/httpapi/handler.go:426-434 | 103 then 404 reaches the client as 200 and the log as 103 |
| HttpMiddleware.EveryRequestAnswered | apps/search-api/internal/httpapi/handler.go:217-327 | every request to the real routes, under a request target that is a path, gets the status, JSON payload, identifier and cache headers that the public contract promises for its route and method, each payload written out, and is logged once with that status |
| AsgiMiddleware.AssignLaw | services/ml-service/src/groundedsearch_ml/middleware.py:58-60 | after a header assignment the name has exactly the new value and every other header keeps its values in order |
| AsgiMiddleware.AssignPlace | services/ml-service/src/groundedsearch_ml/middleware.py:58-60 | the new value stands where the first entry of its name stood, or at the end if there was none |
| AsgiMiddleware.RequestContext.SendWrapper | services/ml-service/src/groundedsearch_ml/middleware.py:52-62 | flag and status after every message, the raise on a malformed start, and what the server is handed: bodies unchanged, starts with status and all other headers unchanged |
| AsgiMiddleware.RunApp | services/ml-service/src/groundedsearch_ml/middleware.py:64-65 | any application behind the wrapper: the wrapper's variables and the server's messages as functions of what the application did |
| AsgiMiddleware.Call | services/ml-service/src/groundedsearch_ml/middleware.py:30-104 | a scope that is not HTTP keeps its state, is not logged, and its application runs as if there were no middleware; for HTTP the stored identifier is the acceptable one of the header or the random bytes in hexadecimal (`PythonUses`), and the messages, exception and records of try, except and finally are given for every application and every failing send |
| AsgiMiddleware.MiddlewareIsTransparent | services/ml-service/src/groundedsearch_ml/middleware.py:52-65 | an application with well-formed starts runs behind the middleware exactly as without it |
| AsgiMiddleware.ServerSeesTheApplication | services/ml-service/src/groundedsearch_ml/middleware.py:64-90 | the server is handed exactly as many messages as the application sent, each with its own status, body and other headers in order, then the 500 response exactly when the application raised before any start; and the caller sees the ending |
| AsgiMiddleware.AttemptHandedOver | services/ml-service/src/groundedsearch_ml/middleware.py:52-62 | for every application, malformed starts included: where each well-formed message arrives, and that only the two forced headers changed |
| AsgiMiddleware.StartsHanded | services/ml-service/src/groundedsearch_ml/middleware.py:76-90 | the exact number of starts handed to the server, at most one for an application that attempts at most one |
| AsgiMiddleware.OrderIsKept | services/ml-service/src/groundedsearch_ml/middleware.py:52-90 | ASGI message order survives the middleware, its own error response included |
| AsgiMiddleware.EveryStartIsMarked | services/ml-service/src/groundedsearch_ml/middleware.py:55-60 | every start handed to the server carries the identifier once and forbids caching once |
| AsgiMiddleware.LogAccounting | services/ml-service/src/groundedsearch_ml/middleware.py:66-104 | one completion record on every exit with the last status attempted or 500, preceded by one failure record exactly for an `Exception` |
| AsgiMiddleware.LogTruthfulIff | services/ml-service/src/groundedsearch_ml/middleware.py:52-104 | for any number of starts, and whatever part of the handed messages reaches the client: the exact condition under which the logged status is that of the last start that reached it, 500 if none did |
| AsgiMiddleware.SingleStartLogTruthfulIff | services/ml-service/src/groundedsearch_ml/middleware.py:52-104 | for at most one start, over a server that delivers what it accepts: the log misleads exactly when that start states a status other than 500 and has no headers or is refused |
| AsgiMiddleware.RefusedStartIsLogged | services/ml-service/src/groundedsearch_ml/middleware.py:55-62 | the server accepts nothing, and the log reports the status of the refused start |
| AsgiMiddleware.RefusedSecondStartIsLogged | services/ml-service/src/groundedsearch_ml/middleware.py:55-62 | starts 200 and a refused 404: the client has 200, the log says 404 |
| AsgiMiddleware.UnansweredExceptionIff | services/ml-service/src/groundedsearch_ml/middleware.py:55-77 | exactly when an exception leaves the server without a start: starts were attempted and all were malformed |
| AsgiMiddleware.ClientUnansweredIff | services/ml-service/src/groundedsearch_ml/middleware.py:55-90 | exactly when an exception leaves the client without a start, whatever part of the handed messages reaches it |
| AsgiMiddleware.HeaderlessStartIsLost | services/ml-service/src/groundedsearch_ml/middleware.py:55-60 | a start without headers reaches nobody, yet is logged as 200 |
| RequestIds.GoAcceptsExactly | apps/search-api/internal/httpapi/handler.go:448-461 | the accepted values are exactly 1 to 128 visible ASCII characters between runs of UTF-8 whitespace |
| RequestIds.PythonAcceptsExactly | services/ml-service/src/groundedsearch_ml/middleware.py:115-126 | the same with Python's whitespace, for Latin-1 decoded values |
| RequestIds.NormalisersNeverConflict | services/ml-service/src/groundedsearch_ml/middleware.py:115-126 | if both services accept one raw value they read the same identifier from it |
| RequestIds.NormalisersAgreeIff | services/ml-service/src/groundedsearch_ml/middleware.py:115-126 | of the values at least one service accepts, both accept exactly those of visible ASCII characters and ASCII blanks |
| RequestIds.NormalisersDisagreeOnAcceptance | apps/search-api/internal/httpapi/handler.go:449-452 | a no-break space, in UTF-8 and in Latin-1: a value only Go accepts and a value only Python accepts |
| RequestIds.ServicesAgree | apps/search-api/internal/mlclient/client.go:149-151 | every identifier Go keeps or generates is well formed, a fixed point, and the one the ML service uses when it is sent on |
| RequestIds.GoIdMeans | apps/search-api/internal/httpapi/handler.go:330-342 | the identifier is well formed: the one standing between blanks in the header, otherwise hexadecimal digits the random bytes can be read from, or a text with clock and counter |
| RequestIds.PythonIdMeans | services/ml-service/src/groundedsearch_ml/middleware.py:40-43 | every acceptable header value is kept, every other one is replaced by 32 hexadecimal digits the random bytes can be read from |
| RequestIds.GoBlankMeans | apps/search-api/internal/httpapi/handler.go:449 | what Go trims byte by byte is exactly the UTF-8 encodings of its whitespace characters |
| RequestIds.FallbackWellFormed | apps/search-api/internal/httpapi/handler.go:469-473 | a fallback identifier has at most 50 visible characters for every 64-bit clock and counter |
| RequestIds.FallbackInjective | apps/search-api/internal/httpapi/handler.go:469-473 | clock and counter can be read back from the printed identifier |
| RequestIds.FallbackIsNotHex | apps/search-api/internal/httpapi/handler.go:463-474 | no fallback identifier equals a hexadecimal one |
| RequestIds.IssuedIdIsChosen | apps/search-api/internal/httpapi/handler.go:469-473 | the identifiers of the interleaving theorems are those the middleware chooses, with the call's own clock and counter |
| RequestIds.FallbackIdsCollideIff | apps/search-api/internal/httpapi/handler.go:330-342 | in every interleaving two issued identifiers coincide exactly on equal clocks and counter positions congruent modulo 2^64 |
| RequestIds.FallbackIdsDistinct | apps/search-api/internal/httpapi/handler.go:330-342 | with at most 2^64 issued identifiers no two calls share one |
| Shutdown.RunIsSafe | apps/search-api/cmd/server/main.go:84-123 | in every interleaving: nil only after the listener returned nil or an error that is `ErrServerClosed`, at most one Shutdown and only after cancellation, and a goroutine that never blocks on its send |
| Shutdown.UncancelledResult | apps/search-api/cmd/server/main.go:90-95 | without cancellation the caller is told nothing exactly after nil or `ErrServerClosed`, and otherwise an error in which `errors.Is` and `errors.As` find what they found in the listener's |
| Shutdown.ResultExplained | apps/search-api/cmd/server/main.go:90-123 | `run` returns once, and its result is that of the receive, the Shutdown error or the passed deadline that ended it |
| Shutdown.CausesPrecede | apps/search-api/cmd/server/main.go:90-123 | the second select is reached only through a Shutdown that returned nil, that only through cancellation seen, and that only through a cancellation; Shutdown is called once for each cancellation seen |
| Shutdown.VerdictReportedIff | apps/search-api/cmd/server/main.go:90-123 | `run` reports the listener's verdict, in the same sense, exactly when a select received it; otherwise it returned on a failed Shutdown or on the deadline, with that error alone |
| Shutdown.RunsAreBounded | apps/search-api/cmd/server/main.go:84-123 | every run is finite, by a measure each event decreases |
| Shutdown.CancelledRunProgresses | apps/search-api/cmd/server/main.go:97-123 | after cancellation no reachable state is stuck before the return |
| Shutdown.CompleteCancelledRunReturned | apps/search-api/cmd/server/main.go:97-123 | a cancelled run with nothing inevitable or due left to happen has returned |
| Shutdown.ReturnsByDeadline | apps/search-api/cmd/server/main.go:101-123 | once the deadline has passed, two steps of `run` itself are enough to return |
| Shutdown.RacingFailureMayBeHidden | apps/search-api/cmd/server/main.go:107-109 | for every verdict and every Shutdown error, a run in which the failed Shutdown hides the verdict |
| Shutdown.CleanExitMayBeReportedAsDeadline | apps/search-api/cmd/server/main.go:111-122 | for every verdict, a clean exit included, a run in which Shutdown succeeds and the passed deadline is reported instead |
| GoErrors.IsSearchesTree | apps/search-api/internal/httpapi/handler.go:187-196 | `errors.Is` holds exactly when some error of the pre-order traversal matches |
| GoErrors.AsFindsFirst | apps/search-api/internal/httpapi/handler.go:191-192 | `errors.As` yields the first network error in pre-order |
| Classifier.ClassifyMeans | apps/search-api/internal/httpapi/handler.go:186-201 | each class by an exact condition on the tree: timeout beats invalid response beats unavailable |
| Classifier.WrapKeepsClass | apps/search-api/internal/mlclient/client.go:154-157 | wrapping with `%w` never changes the class |
| Classifier.JoinOrderMatters | apps/search-api/internal/httpapi/handler.go:191-194 | the same two network errors joined in the other order are classified differently |
| Classifier.JoinOrderMattersIff | apps/search-api/internal/httpapi/handler.go:186-201 | swapping two joined errors changes the class exactly when no deadline is among them and their first network errors disagree on the timeout |
| MlClient.ReadAll | apps/search-api/internal/mlclient/client.go:197-198 | for every chunking and buffer growth: the stream up to the limit, and its failure exactly when it is reported before the limit |
| MlClient.ReadBoundedBody | apps/search-api/internal/mlclient/client.go:196-211 | at most 2^20+1 bytes are consumed; the whole stream, the wrapped read failure or the oversize error by an exact condition |
| MlClient.EnsureSingleJsonValue | apps/search-api/internal/mlclient/client.go:213-231 | accepted exactly when nothing but the end of input follows |
| MlClient.ValidationMeans | apps/search-api/internal/mlclient/client.go:233-268 | validation accepts exactly the descriptions of the versioned contract |
| MlClient.GetModelInfo | apps/search-api/internal/mlclient/client.go:132-194 | success exactly on an accepted reply; otherwise an error fixed by transport, size and status, in that order, never by a decoding error's own tree |
| SystemStatus.CallErrorClass | apps/search-api/internal/mlclient/client.go:154-231 | the class of every error of the call from what happened: an oversized reply of any status is an invalid response |
| SystemStatus.CallErrorSentinel | apps/search-api/internal/mlclient/client.go:154-211 | what `errors.Is` finds in a call error: the transport's own causes, or exactly one of the two sentinels, by size and status |
| SystemStatus.StatusOf | apps/search-api/internal/httpapi/handler.go:122-211 | healthy exactly on an accepted reply, which it then publishes; otherwise one of the public contract's three pairs of status and code, by its exact cause, and unavailable without a client; ready, no error code and a version go together; uptime in whole seconds, zero for a clock that ran backwards |
| SystemStatus.PythonPayloadAccepted | services/ml-service/src/groundedsearch_ml/app.py:136-140 | Go accepts the Python payload exactly when interpreter version and environment name have text |
| SystemStatus.EnvironmentSettingMeans | services/ml-service/src/groundedsearch_ml/config.py:61-66 | the name is what stands between the blanks of the variable, or the default exactly if the variable is missing or blank |
| SystemStatus.LoadedEnvironmentAccepted | services/ml-service/src/groundedsearch_ml/config.py:61-66 | every environment name loaded from the process environment passes Go's validation |
| Environment.SetEnvironment | tools/projectctl/main.go:326-338 | the new slice is the one-key update of the old entries, within its first capacity |
| Environment.CompactInPlace | tests/integration/service_status_test.go:385-392 | compacting over the array being read keeps exactly the unmatched entries: writes never overtake reads |
| Environment.SetEnvironmentByMap | tests/integration/service_status_test.go:381-397 | for whatever order the map is visited in, the result is that of the one-key updates in that order, in a fresh slice |
| Environment.SetAllThenLookup | tests/integration/service_status_test.go:381-397 | after a batch of separate keys, in any order, each key is found exactly once with its value, and every key separate from them keeps its entries in order |
| Environment.SetThenLookup | tools/projectctl/main.go:326-338 | after an update one entry matches the key, the new one; separate keys keep their entries and order |
| Environment.SetConserves | tools/projectctl/main.go:326-338 | an update exchanges the key's old entries for the new one and neither loses nor invents any other |
| Environment.SetOverwrites | tools/projectctl/main.go:326-338 | a later update of the same key in any case replaces the earlier one completely |
| Environment.PlainKeysSeparate | tools/projectctl/main.go:327-331 | keys without an equals sign that differ in upper case never match the same entry |
| Environment.SeparateIff | tools/projectctl/main.go:327-331 | no entry can match two keys exactly when neither key with its equals sign begins the other in upper case |
| Environment.IntegrationEnvironmentKeepsBoth | tools/projectctl/main.go:317-324 | both updates survive, whatever was there before |
| Environment.ExchangeIff | tests/integration/service_status_test.go:384-394 | two updates commute, as multisets, exactly when neither drops the other's entry or both entries are the same text |
| Environment.PlainBatchIndependent | tests/integration/service_status_test.go:384-394 | in a batch of plain keys distinct in upper case no key drops the entry of another |
| Environment.BatchKeepsPrefix | tests/integration/service_status_test.go:381-397 | for every batch and any two orders, the entries no key drops come first, unchanged and in their order |
| Environment.BatchOrderIrrelevantIff | tests/integration/service_status_test.go:381-397 | for every environment: all orders give the same multiset exactly when each entry another key of the batch drops is also that key's own entry text |
| Environment.DroppedEntries | tests/integration/service_status_test.go:384-394 | two batches whose keys drop each other's entries: one order-free, one that depends on the order in every environment |
| Contracts.ValidateRefsMeans | scripts/validate_contracts.py:104-137 | accepted exactly when every `$ref` text at every path names a defined schema or begins with the header or response prefix |
| Contracts.DefinedReferencesAccepted | scripts/validate_contracts.py:111-121 | a document whose references all name defined schemas is never refused |
| Contracts.CheckOperations | scripts/validate_contracts.py:166-191 | the loop accepts exactly well-formed operations with pairwise distinct identifiers |
| Contracts.CheckSchemas | scripts/validate_contracts.py:208-218 | every schema is a mapping, and closed if it is an object |
| Contracts.CheckProperties | scripts/validate_contracts.py:220-237 | the listed schemas have exactly the expected properties |
| Contracts.ValidateContract | scripts/validate_contracts.py:81-239 | the script accepts exactly the texts without tabs that load to a document meeting all its rules, references included, in whatever order it visits them |
| Contracts.ExpectationsCanBeMet | scripts/validate_contracts.py:140-239 | whatever paths, schemas and properties are expected, some contract is accepted |
| Contracts.ReferencesNeverDangle | scripts/validate_contracts.py:198-239 | in an accepted contract no chain of parts and schema references, of any length, reaches an undefined schema |
| Contracts.AcceptedReferencesResolveIff | scripts/validate_contracts.py:104-137 | a reference resolves in every accepted contract that holds it exactly when it is a schema reference or one the check never accepts |
| Contracts.DanglingReferenceAccepted | scripts/validate_contracts.py:123-126 | from any accepted contract, one that is still accepted and holds the given header or response reference without its component |
| Contracts.HeaderReferencesUnchecked | scripts/validate_contracts.py:123-126 | whatever name follows the header or response prefix, some accepted contract holds that reference undefined |
| CommandLine.FormatCommand | tools/projectctl/main.go:340-348 | overwriting the copied parts in place yields the joined rendering and leaves the arguments alone |
| CommandLine.PartPrinted | tools/projectctl/main.go:341-346 | a part without space, tab, line feed or double quote is printed as it is; any other between quotes, in printable characters only |
| CommandLine.FormatOnOneLine | tools/projectctl/main.go:340-348 | a command is printed on one line |
| CommandLine.SplitRecovers | tools/projectctl/main.go:340-348 | a quote-aware splitter recovers every command vector from its line |
| CommandLine.FormatInjective | tools/projectctl/main.go:340-348 | two commands print the same line only if they are the same |
| RepositoryRoot.DirDropsLast | tools/projectctl/main.go:222-228 | the parent of a path drops its last element, and only the root is its own parent |
| RepositoryRoot.FindRepositoryRoot | tools/projectctl/main.go:211-230 | the walk ends, with the nearest ancestor-or-self that is a repository root, and fails exactly when there is none |
| Lifecycle.Serve | apps/search-api/internal/httpapi/handler.go:92-215 | for every request: both services use one identifier, the response is the public contract's for its route and method, the log tells the client's status, and the status payload is healthy exactly on an accepted reply, which it publishes |

## Left out

- `net/http`, Starlette, `encoding/json`, PyYAML: only the behaviour the code relies on is modelled; JSON encoding and decoding are arbitrary functions, and Starlette's `MutableHeaders` is taken to require a `headers` entry.
- Responses to HEAD requests, declared content lengths, trailers, connection hijacking and direct use of `Unwrap`.
- ServeMux path cleaning and redirects: a path is taken as already clean, and the request target `*`, which the mux answers with 400 itself, is not a path.
- `Goexit` in a handler: only panics and returns end it.
- Random identifiers: only their shape and their difference from fallback identifiers is proved, not that two random ones differ.
- Mlclient `New`, configuration loading except the environment name, process start-up and health probes of the test suite.
- An infinite dependency body: a stream is finite, of any length, which a reader bounded at 2^20+1 bytes cannot tell apart.
- Texts of error messages and log fields other than identifier and status; the warning logged about a failed dependency; the check script's choice of which violation to report first.
- Upper-casing of invalid UTF-8 and quoting of invalid bytes: environment entries and command parts are sequences of characters, with arbitrary case and printability tables beyond ASCII.
- Working directories that are not clean paths, and changes of the file system during the walk: `isRepositoryRoot` is an arbitrary predicate of the path.
- Scope state other than the identifier, and the request bodies an ASGI application receives.
- YAML aliases that make a document contain itself: a loaded document is a finite tree.
- HTTP headers with several values, `Header.Add` and non-canonical names in Go handlers: a header maps each name to one value.
- ASGI messages other than response starts and bodies, such as trailers and server push.
- Go error types with an `As` method of their own.
- Documented search, ranking, access control and ingestion features: the repository has no code for them.
