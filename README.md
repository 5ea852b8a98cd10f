# bandix: HTTP layer and flush orchestration, modelled in Dafny

bandix is a traffic monitor. It keeps per-domain statistics (traffic,
connections, DNS) in stores that are flushed to disk on an interval, on
request and at shutdown. It also serves a small hand-written HTTP API. This
project models two sequential parts of it.

- **The HTTP layer** of `bandix/src/api/mod.rs`, in module `Api` (api.dfy):
  - the `ApiResponse` envelope;
  - the `HttpResponse` constructors;
  - the `(method, path)` route table of `ApiRouter::route_request`;
  - the request parser `parse_http_request`, as a specification function
    `Parse` and as the method `ParseHttpRequest` with the source's
    query-map loop;
  - the status text and raw header/body text built by `send_http_response`.
- **The request dispatcher** of `bandix/tmp/new_route_request.rs`, in module
  `Router` (router.dfy). A function returns the decision: manual flush,
  shutdown, a handler index or 404. A method performs it on a
  `FlushCommand`.
- **`flush_all(stop_service)`** of `bandix/tmp/correct_flush_all.rs`, in
  module `Command` (command.dfy). It is a class with the
  `FLUSH_IN_PROGRESS` flag as a field and a ghost trace of the steps taken,
  proved against the function `FlushAllRun`.
- **The flush entry points** of `bandix/src/monitor/mod.rs`, in module
  `Monitor` (monitor.dfy). It is a class with the `FLUSH_IN_PROGRESS` and
  `CAPTURE_RUNNING` flags as fields and a ghost trace. Each method is
  proved against a step function. Lemmas over runs of operations state the
  one-way capture gate, that the flag is never cleared, and that the sync
  barrier runs at most once.

Supporting modules:

- `Events` (events.dfy): the store domains, the trace events
  (`StopCapture`, `Flush(d)`, `PersistAll`, `SyncBarrier`) and the outcome
  each store's `flush()` returns. That outcome is an input, because the
  stores' internals are not part of this model.
- `RustStr` (rust_str.dfy): the Rust `str` operations the parser and writer
  use, over `string`:
  - `lines`, `split_whitespace`, `split`, `splitn(2, _)`, `find`,
    `starts_with`;
  - decimal `Display` of an integer;
  - `len()` as the UTF-8 byte length.
- `Wrappers` (wrappers.dfy): `Option` and `Result`.

Each atomic `swap`, `load` or `store` of a flag is one step of a sequential
call.

Where the two versions of the flush code differ, each module follows its
own file:

- The store order is connection, dns, traffic in `monitor/mod.rs`, and
  traffic, connection, dns in `correct_flush_all.rs`.
- `flush_interval` only reads the flag.
- `flush_final` sets the flag and never clears it.
- `flush_all` releases the flag on every path after the guard, and stops
  at the first store that fails.

The two routers also differ. `GET /api/flush` flushes in `api/mod.rs`, but
`new_route_request.rs` does not treat it as a flush.

## Model

| member | source | states |
|---|---|---|
| Api.ApiSuccess | bandix/src/api/mod.rs:19-25 | reading the envelope back gives `Ok(data)`, which holds exactly when the status is "success", data is `Some(data)` and message is None. |
| Api.ApiError | bandix/src/api/mod.rs:27-33 | reading the envelope back gives `Err(message)`, which holds exactly when the status is "error", data is None and message is `Some(message)`. |
| Api.HttpOk | bandix/src/api/mod.rs:54-60 | status line "HTTP/1.1 200 OK", content type application/json, the body as given |
| Api.HttpError | bandix/src/api/mod.rs:62-69 | the given status, application/json, and a body that is the error envelope of `message` |
| Api.HttpNotFound | bandix/src/api/mod.rs:71-73 | status line "HTTP/1.1 404 Not Found", application/json, error envelope "Not Found" |
| Api.StatusText | bandix/src/api/mod.rs:168-173 | "OK", "Not Found", "Internal Server Error" exactly for 200, 404, 500, and "Unknown" exactly for every other status |
| Api.RawResponseFraming | bandix/src/api/mod.rs:175-188 | `lines()` of the whole written text is the five header lines, one blank line, then the body's lines; the first "\r\n\r\n" is the one just before the body, so the body a parser takes after it is the written body; the Content-Length digits denote the body's UTF-8 byte count |
| Api.RawResponseBody | bandix/src/api/mod.rs:175-188 | the first "\r\n\r\n" of the written text is the one before the body, and the body taken after it is the written body (None when empty) |
| Api.RawResponseHead | bandix/src/api/mod.rs:175-188 | `lines()` of the written text is the five header lines, one blank line, then the body's lines; the text before the body alone reads back as the header lines and the blank line |
| Api.LinesOfHeadAndBody | bandix/src/api/mod.rs:176-182 | for any lines without '\n', the lines each followed by "\r\n", one more "\r\n" and a body read back as those lines, "" and the body's lines |
| Api.StatusLine | bandix/src/api/mod.rs:176-184 | starts with "HTTP/1.1 ", then decimal digits that read back as the status code, then a space and the status text |
| Api.HeaderLines | bandix/src/api/mod.rs:176-180 | five lines: the status line, "Content-Type: " followed by the content type, "Content-Length: " followed by digits that read back as the given length, then the two fixed headers |
| Api.RawResponse | bandix/src/api/mod.rs:175-188 | the written text starts with the status line and "\r\n" and ends with the body text; `RawResponseFraming` states how it reads back |
| Api.FirstBlankLineEndsHead | bandix/src/api/mod.rs:149-154 | after a CRLF-terminated head with no "\n\r" inside, `find("\r\n\r\n")` lands on the head's end and the body taken after it is the rest, or None when empty |
| Api.HeaderLinesAreClean | bandix/src/api/mod.rs:175-182 | no header line holds a line break, provided the content type holds none |
| Api.BodyOf | bandix/src/api/mod.rs:149-154 | None exactly when no "\r\n\r\n" has a non-empty rest after it; otherwise the rest after the FIRST occurrence, which is non-empty |
| Api.QueryPair | bandix/src/api/mod.rs:142-145 | a pair exactly when the piece holds '='; the key holds no '=' (split at the first one) and key + "=" + value is the piece |
| Api.QueryParams | bandix/src/api/mod.rs:136-147 | a target without '?' gives the empty map |
| Api.QueryMap | bandix/src/api/mod.rs:140-147 | the map holds at most one entry per piece; `QueryMapKeys` and `QueryMapLastWins` state which keys it holds and which values it keeps |
| Api.QueryMapKeys | bandix/src/api/mod.rs:140-147 | a key is in the map exactly when some '&'-piece carries it before an '=' (pieces without '=' are dropped) |
| Api.QueryMapLastWins | bandix/src/api/mod.rs:144 | the value kept for a key is the one from the last piece that carries it |
| Api.Parse | bandix/src/api/mod.rs:121-162 | Err("Empty request") exactly for empty input; Err("Invalid request line") exactly when the first line has fewer than two tokens; Ok otherwise, with method = first token, path = second token before its first '?' (so holding no '?'), query = the pairs after '?', body as `BodyOf` |
| Api.ParseRequestLine | bandix/src/api/mod.rs:127-137 | a request starting "m target" followed by whitespace parses to method m and target's path and query, whatever else is on the line (the version, extra tokens) or after it |
| Api.ParseHttpRequest | bandix/src/api/mod.rs:121-162 | the imperative parser returns exactly `Parse(request)`: both errors, the method, path, query map and body |
| Api.InsertQueryPairs | bandix/src/api/mod.rs:140-147 | the loop that inserts pair by pair builds exactly the map `QueryMap` describes (keys present exactly when some piece carries them, the last piece winning) |
| Api.RouteRequest | bandix/src/api/mod.rs:88-117 | flush (then 200 "Flush completed") exactly for POST or GET /api/flush; each of the three handlers exactly for GET on its path; 404 otherwise; paths compared for equality |
| RustStr.Lines | bandix/src/api/mod.rs:122 | no lines exactly for the empty string; no line holds '\n' |
| RustStr.LinesAfterCrlfTerminated | bandix/src/api/mod.rs:175-181 | lines without '\n', each followed by "\r\n", then any text: `lines()` gives those lines, then the lines of that text |
| RustStr.LinesOfCrlfLine | bandix/src/api/mod.rs:122 | a line without '\n' followed by "\r\n" comes out of `lines()` as the first line, and the rest is read on its own |
| RustStr.Tokens | bandix/src/api/mod.rs:127 | every token is non-empty and holds no whitespace |
| RustStr.TokensKeepNonWhitespace | bandix/src/api/mod.rs:127 | the tokens, concatenated, are exactly the input's non-whitespace characters in order |
| RustStr.TokensAfterToken | bandix/src/api/mod.rs:127 | a token followed by whitespace or nothing is the first token, and the rest tokenises on its own |
| RustStr.SplitN2 | bandix/src/api/mod.rs:136 | one part (the input) exactly when the separator is absent; otherwise the parts before and after its first occurrence, which put back together give the input |
| RustStr.Split | bandix/src/api/mod.rs:141 | at least one piece; no piece holds the separator |
| RustStr.JoinSplit | bandix/src/api/mod.rs:141 | joining the pieces of a split with the separator gives the input back |
| RustStr.SplitJoin | bandix/src/api/mod.rs:141 | splitting a join of separator-free pieces gives the pieces back |
| RustStr.IsWhitespace | bandix/src/api/mod.rs:127 | the Unicode White_Space characters that `char::is_whitespace` accepts; among ASCII characters exactly tab, line feed, vertical tab, form feed, carriage return and space |
| RustStr.StartsWith | bandix/tmp/new_route_request.rs:39 | true exactly when `p` is a prefix of `s`: `s` is `p` followed by the rest of `s` |
| RustStr.Find | bandix/src/api/mod.rs:149 | Some(i) only where the pattern occurs at i and nowhere before; None only when it occurs nowhere |
| RustStr.Dec | bandix/src/api/mod.rs:183-186 | a non-empty string of decimal digits with no leading zero |
| RustStr.DecRoundTrip | bandix/src/api/mod.rs:186 | the digits written for n read back as n |
| RustStr.Utf8Len | bandix/src/api/mod.rs:186 | the byte length lies between the number of chars and four times it, and equals the number of chars exactly for ASCII text |
| Router.AnyRoutePrefixes | bandix/tmp/new_route_request.rs:39-43 | true exactly when some route of the handler is a prefix of the path |
| Router.FirstClaimant | bandix/tmp/new_route_request.rs:38-44 | the first handler, in iteration order, with a route that prefixes the path; None exactly when no handler has one |
| Router.DispatchRequest | bandix/tmp/new_route_request.rs:3-46 | manual flush exactly for POST /api/flush; shutdown exactly for POST /api/shutdown; otherwise the first claiming handler; 404 exactly when neither special case holds and no handler claims the path |
| Router.GetFlushIsNotAFlushHere | bandix/tmp/new_route_request.rs:4 | GET /api/flush flushes under the route table of api/mod.rs, but is neither a flush nor a shutdown here |
| Router.FlushReply | bandix/tmp/new_route_request.rs:9-18 | Ok gives 200 with the "Data flushed, service continues" body; Err(e) gives 500 with the error envelope "Flush failed: " + e |
| Router.ShutdownExitCode | bandix/tmp/new_route_request.rs:25-33 | exit code 0 exactly when the flush succeeded, 1 otherwise |
| Router.RouteRequestWith | bandix/tmp/new_route_request.rs:2-47 | runs `flush_all(false)` or `flush_all(true)` on the command for the two special cases and answers or exits by its result; delegates or answers 404 without touching the command |
| Command.FlushStores | bandix/tmp/correct_flush_all.rs:19-26 | stores are flushed in the given order; the first error ends the sequence and is the result; Ok exactly when every store succeeds |
| Command.FlushSequence | bandix/tmp/correct_flush_all.rs:19-40 | for each store that can fail first, the exact steps and error; when all succeed, the three flushes, then the barrier only when stopping, and Ok |
| Command.FlushAllRun | bandix/tmp/correct_flush_all.rs:2-41 | busy: Err("Flush in progress"), no step, flag stays set; otherwise the flag ends clear on every path, Ok exactly when all stores succeed, the barrier exactly when stopping and all succeeded, never a capture stop or persist, flushes in traffic, connection, dns order |
| Command.StopServiceOnlyAddsBarrier | bandix/tmp/correct_flush_all.rs:12-37 | `stop_service` leaves the result and the flag as they are and only appends the barrier after a fully successful flush |
| Command.IdleCallGetsThrough | bandix/tmp/correct_flush_all.rs:3-20 | a call that finds the flag clear flushes the traffic store first and leaves the flag clear, whatever the stores return |
| Command.SequentialCallsAreNeverTurnedAway | bandix/tmp/correct_flush_all.rs:3-8 | from an idle flag, every call of a sequence of calls gets past the guard, flushes traffic first and leaves the flag clear |
| Command.FlushCommand.constructor | bandix/tmp/correct_flush_all.rs:3 | the flag starts clear, so the first `swap` finds it free, and no step has been taken |
| Command.FlushCommand.FlushStore | bandix/tmp/correct_flush_all.rs:20 | callable only while the flag is held; returns the store's outcome and records its flush |
| Command.FlushCommand.RunSequence | bandix/tmp/correct_flush_all.rs:19-40 | runs only while the flag is held (and leaves it held); the result and the steps are those of `FlushSequence` |
| Command.FlushCommand.FlushAll | bandix/tmp/correct_flush_all.rs:2-41 | the result, the new flag and the steps are those of `FlushAllRun` from the old flag; the swap must raise the flag before the sequence, whose precondition demands it |
| Monitor.StopCaptureStep | bandix/src/monitor/mod.rs:7-9 | capture off, flush flag untouched, one StopCapture step |
| Monitor.IntervalStep | bandix/src/monitor/mod.rs:15-25 | both flags unchanged; no step exactly when the flush flag is set; otherwise connection, dns, traffic, then persist, with no capture stop and no barrier |
| Monitor.FinalStep | bandix/src/monitor/mod.rs:31-47 | the flag is set afterwards; if it was set already, nothing else happens; otherwise capture stop, then the interval's four steps, then the barrier, and capture ends off |
| Monitor.Apply | bandix/src/monitor/mod.rs:7-47 | no operation clears the flush flag or turns capture back on, and every operation but `stop_capture` and `flush_final` leaves both flags as they are |
| Monitor.Run | bandix/src/monitor/mod.rs:4-47 | over any sequence of operations, the flush flag is never cleared and capture is never turned back on |
| Monitor.CaptureGateIsOneWay | bandix/src/monitor/mod.rs:5-9 | no run of operations turns capture back on, and once `stop_capture` runs it stays off |
| Monitor.FlushFlagIsNeverCleared | bandix/src/monitor/mod.rs:4-34 | once set, the flag stays set under every run of operations, and no flush, persist or barrier happens |
| Monitor.FlushesAfterFinalAreNoOps | bandix/src/monitor/mod.rs:31-34 | after one `flush_final`, every later run of `flush_interval`, `flush_manual`, `flush_final` leaves the state as it is and takes no step |
| Monitor.BarrierRunsAtMostOnce | bandix/src/monitor/mod.rs:31-46 | any run of operations reaches the sync barrier at most once, and never when the flag was already set |
| Monitor.CountBarriersAppend | bandix/src/monitor/mod.rs:44 | barrier counts add up over concatenated runs |
| Monitor.FlushMonitor.constructor | bandix/src/monitor/mod.rs:4-5 | flush flag clear, capture on, no steps |
| Monitor.FlushMonitor.StopCapture | bandix/src/monitor/mod.rs:7-9 | new state and steps are those of `StopCaptureStep` |
| Monitor.FlushMonitor.CaptureEnabled | bandix/src/monitor/mod.rs:11-13 | returns the capture flag and changes nothing |
| Monitor.FlushMonitor.FlushStore | bandix/src/monitor/mod.rs:20-22 | records one flush of the given store and changes no flag (the same call serves lines 38-40) |
| Monitor.FlushMonitor.FlushStoresAndPersist | bandix/src/monitor/mod.rs:20-24 | records connection, dns, traffic, persist in that order |
| Monitor.FlushMonitor.FlushInterval | bandix/src/monitor/mod.rs:15-25 | new state and steps are those of `IntervalStep` |
| Monitor.FlushMonitor.FlushManual | bandix/src/monitor/mod.rs:27-29 | new state and steps are those of `IntervalStep`, as for `flush_interval` |
| Monitor.FlushMonitor.FlushFinal | bandix/src/monitor/mod.rs:31-47 | new state and steps are those of `FinalStep`; the swap must raise the flag before `FinalSequence`, whose precondition demands it |
| Monitor.FlushMonitor.FinalSequence | bandix/src/monitor/mod.rs:36-46 | runs only with the flag held; keeps it held, turns capture off and records capture stop, connection, dns, traffic, persist and the barrier in that order |

## Left out

- Concurrency: interleavings of calls on different threads and the atomic
  memory orderings (SeqCst, Acquire, Release) are not modelled. Each swap,
  load or store is one step of a sequential call. So there is no
  cross-thread at-most-one property, only the sequential ones above.
- The internals of `traffic::flush`, `connection::flush`, `dns::flush`,
  `persist_all`, `storage::sync_barrier` and the route handlers are not
  part of this model. A store's outcome is an input, and the others are
  trace events.
- `serde_json::to_string` in `HttpResponse::error` is a parameter
  (`toJson`) of the raw-response text, and the body holds the envelope
  value. Its `unwrap_or_default` fallback is therefore not modelled.
- The `TcpStream` write in `send_http_response` and the `process::exit`
  calls are not modelled. Exits are an `Exited(code)` outcome.
- Log messages, including the `get_port()` lookup that only feeds a log
  line, are not modelled.
- `register_flush` calls a method `ApiRouter` does not have, so it is not
  modelled.
- `bandix/src/main.rs` (signals, select, sleep), `bandix/src/api.rs`
  (axum wiring, a wall-clock health handler) and `bandix/src/lib.rs` are
  not part of this model.
- Router.FirstClaimant: the handlers are a `seq` in the order
  `HashMap::values()` yields them. That order is unspecified in Rust, so
  which of several claiming handlers wins is only as determined as the
  given order.
- Api.RouteRequest: the flush on `/api/flush` calls the argument-less
  `crate::command::flush_all()` of that version, whose outcome is ignored.
  The action records only that a flush runs before the fixed 200 reply.
- RustStr.Lines: follows current Rust `str::lines`, where a '\r' is removed
  only before a '\n'. A final "\r" with no '\n' stays.
- Api.QueryParams: query keys and values are not percent-decoded, and the
  method and version tokens are not validated, as in the source.
