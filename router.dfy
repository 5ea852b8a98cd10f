/** `route_request` of bandix/tmp/new_route_request.rs: the POST flush and
    shutdown endpoints, then the first registered handler one of whose routes
    is a prefix of the path, then 404. */
module Router {
  import opened Wrappers
  import opened RustStr
  import opened Api
  import opened Events
  import Command

  /** A registered handler, as the routing loop sees it: the routes it
      claims. What it does with a request is not part of this model. */
  datatype RouteHandler = RouteHandler(supportedRoutes: seq<string>)

  /** What `route_request` decides to do with a request. */
  datatype Dispatch = ManualFlush | Shutdown | Delegate(handler: nat) | NotFound

  /** Whether some route of `routes` is a prefix of `path` (the inner loop). */
  function AnyRoutePrefixes(routes: seq<string>, path: string): (b: bool)
    ensures b <==> exists j :: 0 <= j < |routes| && StartsWith(path, routes[j])
    decreases |routes|
  {
    if routes == [] then false
    else
      assert forall j :: 1 <= j < |routes| ==> routes[j] == routes[1..][j - 1];
      StartsWith(path, routes[0]) || AnyRoutePrefixes(routes[1..], path)
  }

  predicate Claims(h: RouteHandler, path: string) {
    AnyRoutePrefixes(h.supportedRoutes, path)
  }

  /** The first handler, from index `from` on, that claims `path` (the outer
      loop, in the order `handlers.values()` yields them). */
  function FirstClaimant(handlers: seq<RouteHandler>, path: string, from: nat): (r: Option<nat>)
    requires from <= |handlers|
    ensures r.Some? ==>
              from <= r.value < |handlers| && Claims(handlers[r.value], path) &&
              forall i :: from <= i < r.value ==> !Claims(handlers[i], path)
    ensures r.None? ==> forall i :: from <= i < |handlers| ==> !Claims(handlers[i], path)
    decreases |handlers| - from
  {
    if from == |handlers| then None
    else if Claims(handlers[from], path) then Some(from)
    else FirstClaimant(handlers, path, from + 1)
  }

  /** `route_request`'s decision: the two POST-only endpoints by exact path,
      flush checked first, then handler routes by prefix, then 404. */
  function DispatchRequest(req: HttpRequest, handlers: seq<RouteHandler>): (d: Dispatch)
    ensures d == ManualFlush <==> req.path == "/api/flush" && req.httpMethod == "POST"
    ensures d == Shutdown <==> req.path == "/api/shutdown" && req.httpMethod == "POST"
    ensures d.Delegate? ==>
              d.handler < |handlers| && Claims(handlers[d.handler], req.path) &&
              forall i :: 0 <= i < d.handler ==> !Claims(handlers[i], req.path)
    ensures d == NotFound <==>
              !(req.httpMethod == "POST" && (req.path == "/api/flush" || req.path == "/api/shutdown")) &&
              forall i :: 0 <= i < |handlers| ==> !Claims(handlers[i], req.path)
  {
    if req.path == "/api/flush" && req.httpMethod == "POST" then ManualFlush
    else if req.path == "/api/shutdown" && req.httpMethod == "POST" then Shutdown
    else
      match FirstClaimant(handlers, req.path, 0)
      case Some(i) => Delegate(i)
      case None => NotFound
  }

  /** The two routers disagree on `GET /api/flush`: the match table of
      api/mod.rs flushes, this one does not treat it as a flush. */
  lemma GetFlushIsNotAFlushHere(req: HttpRequest, handlers: seq<RouteHandler>)
    requires req.httpMethod == "GET" && req.path == "/api/flush"
    ensures RouteRequest(req).RunFlush?
    ensures DispatchRequest(req, handlers) != ManualFlush && DispatchRequest(req, handlers) != Shutdown
  {
  }

  const FlushedBody: string := "{\"status\":\"success\",\"message\":\"Data flushed, service continues\"}"

  /** The reply to `POST /api/flush` for the result of `flush_all(false)`. */
  function FlushReply(r: Result<(), string>): (resp: HttpResponse)
    ensures resp.contentType == ApplicationJson
    ensures r.Ok? ==> StatusLine(resp) == "HTTP/1.1 200 OK" && resp.body == Text(FlushedBody)
    ensures r.Err? ==>
              resp.status == 500 && StatusText(resp.status) == "Internal Server Error" &&
              resp.body.ErrorJson? && Reported(resp.body.envelope) == Some(Err("Flush failed: " + r.error))
  {
    match r
    case Ok(_) => HttpOk(FlushedBody)
    case Err(e) => HttpError(500, "Flush failed: " + e)
  }

  /** The exit status after `flush_all(true)`. */
  function ShutdownExitCode(r: Result<(), string>): (code: int)
    ensures code == 0 <==> r.Ok?
    ensures code == 0 || code == 1
  {
    if r.Ok? then 0 else 1
  }

  /** How a routed request ends: a response, a process exit, or a handler. */
  datatype Outcome = Responded(response: HttpResponse) | Exited(code: int) | Delegated(handler: nat)

  /** `route_request`, running `flush_all` on `cmd` where the source calls it;
      `stores` gives what each store's `flush()` returns during that call. */
  method RouteRequestWith(cmd: Command.FlushCommand, req: HttpRequest, handlers: seq<RouteHandler>,
                          stores: StoreOutcomes) returns (o: Outcome)
    modifies cmd
    ensures match DispatchRequest(req, handlers)
            case ManualFlush =>
              var run := Command.FlushAllRun(old(cmd.flushInProgress), false, stores);
              o == Responded(FlushReply(run.result)) &&
              cmd.flushInProgress == run.inProgressAfter && cmd.trace == old(cmd.trace) + run.events
            case Shutdown =>
              var run := Command.FlushAllRun(old(cmd.flushInProgress), true, stores);
              o == Exited(ShutdownExitCode(run.result)) &&
              cmd.flushInProgress == run.inProgressAfter && cmd.trace == old(cmd.trace) + run.events
            case Delegate(i) =>
              o == Delegated(i) && unchanged(cmd)
            case NotFound =>
              o == Responded(HttpNotFound()) && unchanged(cmd)
  {
    match DispatchRequest(req, handlers)
    case ManualFlush =>
      var r := cmd.FlushAll(false, stores);
      o := Responded(FlushReply(r));
    case Shutdown =>
      var r := cmd.FlushAll(true, stores);
      o := Exited(ShutdownExitCode(r));
    case Delegate(i) =>
      o := Delegated(i);
    case NotFound =>
      o := Responded(HttpNotFound());
  }
}
