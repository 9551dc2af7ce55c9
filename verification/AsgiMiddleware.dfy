/**
 The ML service's `RequestContextMiddleware` around an arbitrary ASGI application, over a server whose
 `send` may fail at any point.
 */
module AsgiMiddleware {
  import opened Wrappers
  import opened Numerals
  import RequestIds

  const REQUEST_ID := "x-request-id"
  const CACHE_CONTROL := "cache-control"
  const NO_STORE := "no-store"

  type Headers = seq<(string, string)>

  /**
   An ASGI message. A start whose status is no integer, or which has no `headers` entry, makes the
   middleware's wrapper raise; the ASGI specification makes `headers` optional.
   */
  datatype Message =
    | Start(status: Option<int>, headers: Option<Headers>)
    | Body(data: string, more: bool)

  /** A raised exception; only those deriving from `Exception` are caught, cancellation for one is not. */
  datatype Raised = Raised(id: nat, isException: bool)

  /**
   An application as its decisions: it may send a message and go on knowing whether that raised, return,
   or raise. An application that lets a failed send propagate has a raise as its `failed` branch.
   */
  datatype App =
    | Return
    | Raise(what: Raised)
    | Send(message: Message, sent: App, failed: App)

  /** What the server's `send` does on its n-th call: accept the message, or raise. */
  type Network = nat -> Option<Raised>

  datatype Record = Failed(id: string) | Completed(id: string, status: int)

  class Logger {
    var records: seq<Record>

    constructor ()
      ensures records == []
    {
      records := [];
    }

    method Log(r: Record)
      modifies this
      ensures records == old(records) + [r]
    {
      records := records + [r];
    }
  }

  /** The server's side: every message handed to it, delivered or not. */
  class Server {
    const network: Network
    var handed: seq<Message>

    constructor (network: Network)
      ensures this.network == network && handed == []
    {
      this.network := network;
      this.handed := [];
    }

    method Send(m: Message) returns (raised: Option<Raised>)
      modifies this
      ensures handed == old(handed) + [m] && raised == network(|old(handed)|)
    {
      raised := network(|handed|);
      handed := handed + [m];
    }
  }

  // ---------------------------------------------------------------------------------------------
  // Header assignment
  // ---------------------------------------------------------------------------------------------

  function WithoutName(headers: Headers, name: string): Headers {
    if headers == [] then []
    else if headers[0].0 == name then WithoutName(headers[1..], name)
    else [headers[0]] + WithoutName(headers[1..], name)
  }

  /** `MutableHeaders.__setitem__`: replaces the first entry in place, drops the others, or appends. */
  function Assign(headers: Headers, name: string, value: string): Headers {
    if headers == [] then [(name, value)]
    else if headers[0].0 == name then [(name, value)] + WithoutName(headers[1..], name)
    else [headers[0]] + Assign(headers[1..], name, value)
  }

  function Values(headers: Headers, name: string): seq<string> {
    if headers == [] then []
    else if headers[0].0 == name then [headers[0].1] + Values(headers[1..], name)
    else Values(headers[1..], name)
  }

  lemma {:induction false} WithoutNameKeepsOthers(headers: Headers, name: string, other: string)
    ensures Values(WithoutName(headers, name), other) == if other == name then [] else Values(headers, other)
    ensures WithoutName(WithoutName(headers, name), name) == WithoutName(headers, name)
  {
    if headers != [] {
      WithoutNameKeepsOthers(headers[1..], name, other);
      var rest := WithoutName(headers[1..], name);
      assert ([headers[0]] + rest)[1..] == rest;
    }
  }

  /** After an assignment the name has exactly the new value and every other header is as it was, in order. */
  lemma {:induction false} AssignLaw(headers: Headers, name: string, value: string, other: string)
    ensures Values(Assign(headers, name, value), other) == if other == name then [value] else Values(headers, other)
    ensures WithoutName(Assign(headers, name, value), name) == WithoutName(headers, name)
  {
    var updated := Assign(headers, name, value);
    if headers == [] {
      assert updated[1..] == [];
    } else if headers[0].0 == name {
      WithoutNameKeepsOthers(headers[1..], name, other);
      assert updated[1..] == WithoutName(headers[1..], name);
    } else {
      AssignLaw(headers[1..], name, value, other);
      assert updated[1..] == Assign(headers[1..], name, value);
    }
  }

  /** The new value stands where the name's first entry stood, or at the end if there was none. */
  lemma {:induction false} AssignPlace(headers: Headers, name: string, value: string, k: nat)
    requires k <= |headers| && forall i | 0 <= i < k :: headers[i].0 != name
    requires k < |headers| ==> headers[k].0 == name
    ensures var updated := Assign(headers, name, value);
      && k < |updated| && updated[..k] == headers[..k] && updated[k] == (name, value)
      && (k == |headers| ==> updated == headers + [(name, value)])
  {
    if k > 0 {
      AssignPlace(headers[1..], name, value, k - 1);
      assert headers == [headers[0]] + headers[1..];
    }
  }

  /** The headers by other names than the two the middleware forces, in order. */
  function Unforced(headers: Headers): Headers {
    if headers == [] then []
    else (if headers[0].0 == REQUEST_ID || headers[0].0 == CACHE_CONTROL then [] else [headers[0]])
         + Unforced(headers[1..])
  }

  lemma UnforcedCons(header: (string, string), rest: Headers)
    ensures Unforced([header] + rest)
      == (if header.0 == REQUEST_ID || header.0 == CACHE_CONTROL then [] else [header]) + Unforced(rest)
  {
    assert ([header] + rest)[1..] == rest;
  }

  lemma {:induction false} UnforcedWithout(headers: Headers, name: string)
    requires name == REQUEST_ID || name == CACHE_CONTROL
    ensures Unforced(WithoutName(headers, name)) == Unforced(headers)
  {
    if headers != [] {
      UnforcedWithout(headers[1..], name);
      UnforcedCons(headers[0], WithoutName(headers[1..], name));
    }
  }

  lemma {:induction false} UnforcedAssign(headers: Headers, name: string, value: string)
    requires name == REQUEST_ID || name == CACHE_CONTROL
    ensures Unforced(Assign(headers, name, value)) == Unforced(headers)
  {
    if headers == [] {
      UnforcedCons((name, value), []);
    } else if headers[0].0 == name {
      UnforcedCons((name, value), WithoutName(headers[1..], name));
      UnforcedWithout(headers[1..], name);
    } else {
      UnforcedCons(headers[0], Assign(headers[1..], name, value));
      UnforcedAssign(headers[1..], name, value);
    }
  }

  // ---------------------------------------------------------------------------------------------
  // The middleware
  // ---------------------------------------------------------------------------------------------

  predicate WellFormed(m: Message) {
    m.Start? ==> m.status.Some? && m.headers.Some?
  }

  /** The message the server is handed for a well-formed one: both forced headers set, all else unchanged. */
  function Decorate(m: Message, id: string): Message
    requires WellFormed(m)
  {
    if m.Body? then m
    else m.(headers := Some(Assign(Assign(m.headers.value, REQUEST_ID, id), CACHE_CONTROL, NO_STORE)))
  }

  /**
   All the middleware may do to a message: nothing to a body, and to a start no more than forcing two headers.
   The status stays, and so do the values and the order of all other headers.
   */
  ghost predicate OnlyForced(own: Message, handed: Message, id: string) {
    match own
    case Body(data, more) => handed == Body(data, more)
    case Start(status, headers) =>
      && handed.Start? && handed.status == status && headers.Some? && handed.headers.Some?
      && Values(handed.headers.value, REQUEST_ID) == [id] && Values(handed.headers.value, CACHE_CONTROL) == [NO_STORE]
      && Unforced(handed.headers.value) == Unforced(headers.value)
      && forall name | name != REQUEST_ID && name != CACHE_CONTROL ::
           Values(handed.headers.value, name) == Values(headers.value, name)
  }

  lemma DecorateMeans(m: Message, id: string)
    requires WellFormed(m)
    ensures OnlyForced(m, Decorate(m, id), id)
  {
    if m.Start? {
      var own := m.headers.value;
      var first := Assign(own, REQUEST_ID, id);
      forall name
        ensures Values(Assign(first, CACHE_CONTROL, NO_STORE), name) ==
          if name == CACHE_CONTROL then [NO_STORE] else if name == REQUEST_ID then [id] else Values(own, name)
      {
        AssignLaw(own, REQUEST_ID, id, name);
        AssignLaw(first, CACHE_CONTROL, NO_STORE, name);
      }
      UnforcedAssign(own, REQUEST_ID, id);
      UnforcedAssign(first, CACHE_CONTROL, NO_STORE);
    }
  }

  /** The `KeyError`, `TypeError` or `ValueError` the wrapper raises on a start that is not well formed. */
  const BAD_MESSAGE := Raised(0, true)

  /** A start that states a status, with or without headers. */
  predicate Stated(m: Message) { m.Start? && m.status.Some? }

  /** The variables `send_wrapper` shares with `__call__`. */
  class RequestContext {
    const server: Server
    const id: string
    var responseStarted: bool
    var statusCode: int

    constructor (server: Server, id: string)
      ensures this.server == server && this.id == id && !responseStarted && statusCode == 500
    {
      this.server := server;
      this.id := id;
      this.responseStarted := false;
      this.statusCode := 500;
    }

    method SendWrapper(m: Message) returns (raised: Option<Raised>)
      modifies this, server
      ensures responseStarted == (old(responseStarted) || m.Start?)
      ensures statusCode == if Stated(m) then m.status.value else old(statusCode)
      ensures WellFormed(m) ==>
        && server.handed == old(server.handed) + [Decorate(m, id)] && OnlyForced(m, Decorate(m, id), id)
        && raised == server.network(|old(server.handed)|)
      ensures !WellFormed(m) ==> server.handed == old(server.handed) && raised == Some(BAD_MESSAGE)
    {
      var message := m;
      if m.Start? {
        responseStarted := true;
        if m.status.None? {
          return Some(BAD_MESSAGE);
        }
        statusCode := m.status.value;
        if m.headers.None? {
          return Some(BAD_MESSAGE);
        }
        var headers := Assign(m.headers.value, REQUEST_ID, id);
        headers := Assign(headers, CACHE_CONTROL, NO_STORE);
        message := m.(headers := Some(headers));
      }
      DecorateMeans(m, id);
      raised := server.Send(message);
    }
  }

  // What the application did, independently of the middleware's variables -----------------------

  /** The messages an application passed to its `send`, and how it ended. */
  datatype Trace = Trace(attempts: seq<Message>, ending: Option<Raised>)

  /** The application's run when `handed` messages have already been taken by the server. */
  function RunOf(app: App, network: Network, handed: nat): Trace
    decreases app
  {
    match app
    case Return => Trace([], None)
    case Raise(what) => Trace([], Some(what))
    case Send(m, sent, failed) =>
      var rest :=
        if !WellFormed(m) then RunOf(failed, network, handed)
        else RunOf(if network(handed).None? then sent else failed, network, handed + 1);
      Trace([m] + rest.attempts, rest.ending)
  }

  predicate StartAttempted(attempts: seq<Message>) {
    exists i | 0 <= i < |attempts| :: attempts[i].Start?
  }

  /** What the server is handed for a list of attempts. */
  function Forwarded(attempts: seq<Message>, id: string): seq<Message> {
    if attempts == [] then []
    else (if WellFormed(attempts[0]) then [Decorate(attempts[0], id)] else []) + Forwarded(attempts[1..], id)
  }

  /** The status of the last start with an integer status, `status` if there is none. */
  function LastStatus(attempts: seq<Message>, status: int): int {
    if attempts == [] then status
    else
      var m := attempts[0];
      LastStatus(attempts[1..], if Stated(m) then m.status.value else status)
  }

  lemma AttemptsCons(m: Message, rest: seq<Message>, id: string)
    ensures StartAttempted([m] + rest) <==> m.Start? || StartAttempted(rest)
    ensures Forwarded([m] + rest, id) == (if WellFormed(m) then [Decorate(m, id)] else []) + Forwarded(rest, id)
    ensures forall s ::
      LastStatus([m] + rest, s) == LastStatus(rest, if Stated(m) then m.status.value else s)
  {
    var all := [m] + rest;
    assert all[0] == m && all[1..] == rest;
    assert forall i | 0 <= i < |rest| :: all[i + 1] == rest[i];
  }

  lemma HandedCons(m: Message, rest: seq<Message>, before: seq<Message>, id: string)
    ensures before + Forwarded([m] + rest, id)
      == (if WellFormed(m) then before + [Decorate(m, id)] else before) + Forwarded(rest, id)
  {
    AttemptsCons(m, rest, id);
    var own := if WellFormed(m) then [Decorate(m, id)] else [];
    assert before + (own + Forwarded(rest, id)) == before + own + Forwarded(rest, id);
    assert before + [] == before;
  }

  /** One attempt, then the run that follows it. */
  lemma RunOfSend(m: Message, sent: App, failed: App, network: Network, before: seq<Message>, id: string, status: int)
    ensures var now := if WellFormed(m) then before + [Decorate(m, id)] else before;
      var next := if WellFormed(m) && network(|before|).None? then sent else failed;
      var run, rest := RunOf(Send(m, sent, failed), network, |before|), RunOf(next, network, |now|);
      && run.ending == rest.ending
      && before + Forwarded(run.attempts, id) == now + Forwarded(rest.attempts, id)
      && (StartAttempted(run.attempts) <==> m.Start? || StartAttempted(rest.attempts))
      && LastStatus(run.attempts, status) == LastStatus(rest.attempts, if Stated(m) then m.status.value else status)
  {
    var now := if WellFormed(m) then before + [Decorate(m, id)] else before;
    var next := if WellFormed(m) && network(|before|).None? then sent else failed;
    var rest := RunOf(next, network, |now|).attempts;
    AttemptsCons(m, rest, id);
    HandedCons(m, rest, before, id);
  }

  method RunApp(context: RequestContext, app: App) returns (raised: Option<Raised>)
    modifies context, context.server
    ensures var run := RunOf(app, context.server.network, |old(context.server.handed)|);
      && raised == run.ending
      && context.server.handed == old(context.server.handed) + Forwarded(run.attempts, context.id)
      && context.responseStarted == (old(context.responseStarted) || StartAttempted(run.attempts))
      && context.statusCode == LastStatus(run.attempts, old(context.statusCode))
    decreases app
  {
    match app {
      case Return => return None;
      case Raise(what) => return Some(what);
      case Send(m, sent, failed) =>
        ghost var before, status, network := context.server.handed, context.statusCode, context.server.network;
        var outcome := context.SendWrapper(m);
        RunOfSend(m, sent, failed, network, before, context.id, status);
        if outcome.None? {
          raised := RunApp(context, sent);
        } else {
          raised := RunApp(context, failed);
        }
    }
  }

  /** The start of the error response; Starlette adds the length of the encoded payload. */
  function ErrorStart(body: string): Message {
    Start(Some(500), Some([("content-length", Decimal(|body|)), ("content-type", "application/json")]))
  }

  /** The messages of the error response that reach the server: the body only if the start was accepted. */
  function ErrorTail(network: Network, handed: nat, id: string, body: string): seq<Message> {
    [Decorate(ErrorStart(body), id)] + if network(handed).None? then [Body(body, false)] else []
  }

  /** The middleware answers for the application exactly when it raised without attempting any start. */
  predicate AnswersForApp(run: Trace) {
    run.ending.Some? && run.ending.value.isException && !StartAttempted(run.attempts)
  }

  /** Everything one call leaves behind. */
  datatype Effects = Effects(handed: seq<Message>, raised: Option<Raised>, records: seq<Record>)

  /** What reaches server, caller and log for an HTTP scope, in terms of the application's own run. */
  function Outcome(app: App, network: Network, handed: nat, id: string, body: string): Effects {
    var run := RunOf(app, network, handed);
    var own := Forwarded(run.attempts, id);
    var n := handed + |own|;
    var caught := run.ending.Some? && run.ending.value.isException;
    if AnswersForApp(run) then
      Effects(own + ErrorTail(network, n, id, body),
              if network(n).Some? then network(n) else network(n + 1),
              [Failed(id), Completed(id, 500)])
    else
      Effects(own, run.ending,
              (if caught then [Failed(id)] else []) + [Completed(id, LastStatus(run.attempts, 500))])
  }

  /** The application's run directly on the server, without any middleware. */
  function DirectRun(app: App, network: Network, handed: nat): Trace
    decreases app
  {
    match app
    case Return => Trace([], None)
    case Raise(what) => Trace([], Some(what))
    case Send(m, sent, failed) =>
      var rest := DirectRun(if network(handed).None? then sent else failed, network, handed + 1);
      Trace([m] + rest.attempts, rest.ending)
  }

  method RunDirectly(server: Server, app: App) returns (raised: Option<Raised>)
    modifies server
    ensures var run := DirectRun(app, server.network, |old(server.handed)|);
      server.handed == old(server.handed) + run.attempts && raised == run.ending
    decreases app
  {
    match app {
      case Return => return None;
      case Raise(what) => return Some(what);
      case Send(m, sent, failed) =>
        var outcome := server.Send(m);
        if outcome.None? {
          raised := RunDirectly(server, sent);
        } else {
          raised := RunDirectly(server, failed);
        }
    }
  }

  /** The parts of an ASGI scope the middleware looks at, and the entry it adds to the scope's state. */
  class Scope {
    const kind: string
    const header: Option<string>
    var requestId: Option<string>

    constructor (kind: string, header: Option<string>, requestId: Option<string>)
      ensures this.kind == kind && this.header == header && this.requestId == requestId
    {
      this.kind := kind;
      this.header := header;
      this.requestId := requestId;
    }
  }

  /** The internal error response, sent through the wrapper like any other: the body only after its start. */
  method SendError(context: RequestContext, body: string) returns (raised: Option<Raised>)
    modifies context, context.server
    ensures var network, n := context.server.network, |old(context.server.handed)|;
      && context.server.handed == old(context.server.handed) + ErrorTail(network, n, context.id, body)
      && raised == (if network(n).Some? then network(n) else network(n + 1))
      && context.statusCode == 500
  {
    raised := context.SendWrapper(ErrorStart(body));
    if raised.None? {
      raised := context.SendWrapper(Body(body, false));
    }
  }

  /** The body of `__call__` for an HTTP scope: try, except and finally around the application. */
  method CallHttp(server: Server, logger: Logger, id: string, app: App, body: string) returns (raised: Option<Raised>)
    modifies server, logger
    ensures var o := Outcome(app, server.network, |old(server.handed)|, id, body);
      && server.handed == old(server.handed) + o.handed
      && raised == o.raised
      && logger.records == old(logger.records) + o.records
  {
    var context := new RequestContext(server, id);
    ghost var run := RunOf(app, server.network, |server.handed|);
    raised := RunApp(context, app);
    if raised.Some? && raised.value.isException {
      logger.Log(Failed(id));
      if !context.responseStarted {
        raised := SendError(context, body);
      }
    }
    logger.Log(Completed(id, context.statusCode));
  }

  /**
   `__call__`. A scope that is not HTTP is left as it was, nothing is logged, and the server is handed the
   application's own messages exactly as if there were no middleware. For an HTTP scope the identifier is
   the header's if acceptable and a random one otherwise; it is stored in the scope and used throughout.
   `errorBody` is the encoding of the internal_error payload.
   */
  method Call(scope: Scope, server: Server, logger: Logger, uuid: seq<int>, app: App, errorBody: string -> string)
    returns (raised: Option<Raised>)
    requires RequestIds.RandomBytes(uuid)
    modifies scope, server, logger
    ensures scope.kind != "http" ==>
      && unchanged(scope) && unchanged(logger)
      && var run := DirectRun(app, server.network, |old(server.handed)|);
         server.handed == old(server.handed) + run.attempts && raised == run.ending
    ensures scope.kind == "http" ==>
      && var id := RequestIds.PythonRequestId(scope.header, uuid);
         var o := Outcome(app, server.network, |old(server.handed)|, id, errorBody(id));
         && scope.requestId == Some(id) && RequestIds.PythonUses(scope.header, uuid, id)
         && server.handed == old(server.handed) + o.handed && raised == o.raised
         && logger.records == old(logger.records) + o.records
  {
    if scope.kind != "http" {
      raised := RunDirectly(server, app);
      return;
    }
    var id := RequestIds.PythonRequestId(scope.header, uuid);
    RequestIds.PythonIdMeans(scope.header, uuid);
    scope.requestId := Some(id);
    raised := CallHttp(server, logger, id, app, errorBody(id));
  }

  // ---------------------------------------------------------------------------------------------
  // Properties of every run
  // ---------------------------------------------------------------------------------------------

  predicate AllWellFormed(messages: seq<Message>) {
    forall i | 0 <= i < |messages| :: WellFormed(messages[i])
  }

  function DecorateAll(messages: seq<Message>, id: string): seq<Message>
    requires AllWellFormed(messages)
  {
    seq(|messages|, i requires 0 <= i < |messages| => Decorate(messages[i], id))
  }

  lemma {:induction false} ForwardedIsDecorated(messages: seq<Message>, id: string)
    requires AllWellFormed(messages)
    ensures Forwarded(messages, id) == DecorateAll(messages, id)
  {
    if messages != [] {
      ForwardedIsDecorated(messages[1..], id);
      assert DecorateAll(messages, id) == [Decorate(messages[0], id)] + DecorateAll(messages[1..], id);
    }
  }

  /** The middleware changes nothing the application can observe, as long as its starts are well formed. */
  lemma {:induction false} MiddlewareIsTransparent(app: App, network: Network, handed: nat)
    requires AllWellFormed(DirectRun(app, network, handed).attempts)
    ensures RunOf(app, network, handed) == DirectRun(app, network, handed)
    decreases app
  {
    if app.Send? {
      var run := DirectRun(app, network, handed);
      var next := if network(handed).None? then app.sent else app.failed;
      assert run.attempts[0] == app.message;
      assert DirectRun(next, network, handed + 1).attempts == run.attempts[1..];
      MiddlewareIsTransparent(next, network, handed + 1);
    }
  }

  lemma HandedIsDecorated(app: App, network: Network, id: string, body: string)
    requires AllWellFormed(DirectRun(app, network, 0).attempts)
    ensures var run, o := DirectRun(app, network, 0), Outcome(app, network, 0, id, body);
      && DecorateAll(run.attempts, id) <= o.handed
      && (if AnswersForApp(run) then
            && o.handed[|run.attempts|..] == ErrorTail(network, |run.attempts|, id, body)
            && o.raised == network(|o.handed| - 1)
          else o.handed == DecorateAll(run.attempts, id) && o.raised == run.ending)
  {
    MiddlewareIsTransparent(app, network, 0);
    ForwardedIsDecorated(DirectRun(app, network, 0).attempts, id);
  }

  lemma DecoratedOnlyForced(messages: seq<Message>, handed: seq<Message>, id: string)
    requires AllWellFormed(messages) && DecorateAll(messages, id) <= handed
    ensures forall i | 0 <= i < |messages| :: OnlyForced(messages[i], handed[i], id)
  {
    forall i | 0 <= i < |messages| ensures OnlyForced(messages[i], handed[i], id) {
      DecorateMeans(messages[i], id);
      assert handed[i] == DecorateAll(messages, id)[i];
    }
  }

  /** The start of the internal error response, for an encoded payload of `size` characters. */
  ghost predicate IsErrorStart(m: Message, id: string, size: nat) {
    && m.Start? && m.status == Some(500) && m.headers.Some?
    && var h := m.headers.value;
       && Values(h, REQUEST_ID) == [id] && Values(h, CACHE_CONTROL) == [NO_STORE]
       && Values(h, "content-type") == ["application/json"]
       && exists length :: Values(h, "content-length") == [length] && NumeralValue(length) == size
  }

  lemma ErrorStartMeans(id: string, body: string)
    ensures IsErrorStart(Decorate(ErrorStart(body), id), id, |body|)
  {
    var length, kind := ("content-length", Decimal(|body|)), ("content-type", "application/json");
    var h, own := Decorate(ErrorStart(body), id).headers.value, [length, kind];
    DecorateMeans(ErrorStart(body), id);
    DecimalDenotes(|body|);
    assert |REQUEST_ID| == 12 && |"content-type"| == 12 && REQUEST_ID[0] == 'x' && "content-type"[0] == 'c';
    assert |CACHE_CONTROL| == 13 && |"content-length"| == 14;
    var last := [kind];
    assert own[1..] == last && last[1..] == [];
    assert forall name :: Values(last, name) == if name == "content-type" then ["application/json"] else [];
    assert "content-type" != "content-length";
    assert Values(own, "content-length") == [Decimal(|body|)] && Values(own, "content-type") == ["application/json"];
    assert Values(h, "content-length") == Values(own, "content-length");
    assert Values(h, "content-type") == Values(own, "content-type");
  }

  /** The application raised an `Exception`, and had not attempted a start. */
  predicate FailedUnstarted(run: Trace) {
    && run.ending.Some? && run.ending.value.isException
    && forall i | 0 <= i < |run.attempts| :: run.attempts[i].Body?
  }

  /**
   For an application whose starts are well formed the server is handed the application's own messages, in
   order, with nothing but the two forced headers changed, followed by the error response exactly when the
   application raised an `Exception` before its first start: start and body, or the start alone if it was
   refused. The caller then sees how the last of these sends ended, and in every other case the application's
   own ending.
   */
  lemma ServerSeesTheApplication(app: App, network: Network, id: string, body: string)
    requires AllWellFormed(DirectRun(app, network, 0).attempts)
    ensures var run, o := DirectRun(app, network, 0), Outcome(app, network, 0, id, body);
      var n := |run.attempts|;
      && |o.handed| == n + (if !FailedUnstarted(run) then 0 else if network(n).Some? then 1 else 2)
      && (forall i | 0 <= i < n :: OnlyForced(run.attempts[i], o.handed[i], id))
      && (FailedUnstarted(run) ==>
            && IsErrorStart(o.handed[n], id, |body|) && (network(n).None? ==> o.handed[n + 1] == Body(body, false)))
      && o.raised == if FailedUnstarted(run) then network(|o.handed| - 1) else run.ending
  {
    HandedIsDecorated(app, network, id, body);
    var run, o := DirectRun(app, network, 0), Outcome(app, network, 0, id, body);
    var n := |run.attempts|;
    DecoratedOnlyForced(run.attempts, o.handed, id);
    assert AnswersForApp(run) <==> FailedUnstarted(run);
    if AnswersForApp(run) {
      var tail := ErrorTail(network, n, id, body);
      ErrorStartMeans(id, body);
      assert o.handed[n..][0] == tail[0];
      if network(n).None? { assert o.handed[n..][1] == tail[1]; }
    }
  }

  function Starts(messages: seq<Message>): nat {
    if messages == [] then 0 else (if messages[0].Start? then 1 else 0) + Starts(messages[1..])
  }

  lemma {:induction false} StartsConcat(a: seq<Message>, b: seq<Message>)
    ensures Starts(a + b) == Starts(a) + Starts(b)
  {
    if a == [] {
      assert a + b == b;
    } else {
      assert (a + b)[1..] == a[1..] + b;
      StartsConcat(a[1..], b);
    }
  }

  function MalformedStarts(messages: seq<Message>): nat {
    if messages == [] then 0 else (if !WellFormed(messages[0]) then 1 else 0) + MalformedStarts(messages[1..])
  }

  lemma {:induction false} ForwardedStarts(attempts: seq<Message>, id: string)
    ensures Starts(Forwarded(attempts, id)) + MalformedStarts(attempts) == Starts(attempts)
    ensures Starts(attempts) > 0 <==> StartAttempted(attempts)
  {
    if attempts != [] {
      var rest := Forwarded(attempts[1..], id);
      ForwardedStarts(attempts[1..], id);
      if WellFormed(attempts[0]) { assert ([Decorate(attempts[0], id)] + rest)[1..] == rest; }
      assert [] + rest == rest;
      if i :| 0 <= i < |attempts[1..]| && attempts[1..][i].Start? { assert attempts[i + 1].Start?; }
      if i :| 0 < i < |attempts| && attempts[i].Start? { assert attempts[1..][i - 1].Start?; }
    }
  }

  /**
   The starts the server is handed are the application's well-formed ones, plus the middleware's own when it
   answers for the application, which it never does after a start: an application that attempts at most one
   start makes the server see at most one.
   */
  lemma StartsHanded(app: App, network: Network, id: string, body: string)
    ensures var run, starts := RunOf(app, network, 0), Starts(Outcome(app, network, 0, id, body).handed);
      && starts == Starts(run.attempts) - MalformedStarts(run.attempts) + (if AnswersForApp(run) then 1 else 0)
      && (AnswersForApp(run) ==> starts == 1)
      && (Starts(run.attempts) <= 1 ==> starts <= 1)
  {
    var run := RunOf(app, network, 0);
    ForwardedStarts(run.attempts, id);
    if AnswersForApp(run) {
      var n := |Forwarded(run.attempts, id)|;
      var tail := ErrorTail(network, n, id, body);
      StartsConcat(Forwarded(run.attempts, id), tail);
      assert tail[1..] == if network(n).None? then [Body(body, false)] else [];
      assert [Body(body, false)][1..] == [];
      assert Starts(tail[1..]) == 0;
    }
  }

  /** A response in ASGI order: one start, then bodies of which only the last ends the response. */
  predicate InOrder(messages: seq<Message>) {
    && (forall i | 0 <= i < |messages| :: messages[i].Start? <==> i == 0)
    && (forall i | 0 <= i < |messages| - 1 :: messages[i].Body? ==> messages[i].more)
  }

  lemma ForcedInOrder(own: seq<Message>, handed: seq<Message>, id: string)
    requires InOrder(own) && |own| == |handed| && forall i | 0 <= i < |own| :: OnlyForced(own[i], handed[i], id)
    ensures InOrder(handed)
  {
    forall i | 0 <= i < |own|
      ensures (handed[i].Start? <==> i == 0) && (i < |own| - 1 && handed[i].Body? ==> handed[i].more)
    {
      assert OnlyForced(own[i], handed[i], id);
    }
  }

  /** An application that keeps ASGI order on its own still does behind the middleware, error response included. */
  lemma OrderIsKept(app: App, network: Network, id: string, body: string)
    requires AllWellFormed(DirectRun(app, network, 0).attempts) && InOrder(DirectRun(app, network, 0).attempts)
    ensures InOrder(Outcome(app, network, 0, id, body).handed)
  {
    ServerSeesTheApplication(app, network, id, body);
    var run, handed := DirectRun(app, network, 0), Outcome(app, network, 0, id, body).handed;
    if run.attempts != [] {
      assert run.attempts[0].Start? && !FailedUnstarted(run);
      ForcedInOrder(run.attempts, handed, id);
    }
  }

  /** Every start the server is handed carries the request's identifier and forbids caching, once each. */
  lemma {:induction false} ForwardedStartsAreMarked(attempts: seq<Message>, id: string, i: nat)
    requires i < |Forwarded(attempts, id)| && Forwarded(attempts, id)[i].Start?
    ensures var h := Forwarded(attempts, id)[i].headers;
      h.Some? && Values(h.value, REQUEST_ID) == [id] && Values(h.value, CACHE_CONTROL) == [NO_STORE]
  {
    var m := attempts[0];
    if WellFormed(m) && i == 0 {
      if m.Start? {
        var first := Assign(m.headers.value, REQUEST_ID, id);
        AssignLaw(m.headers.value, REQUEST_ID, id, REQUEST_ID);
        AssignLaw(first, CACHE_CONTROL, NO_STORE, REQUEST_ID);
        AssignLaw(first, CACHE_CONTROL, NO_STORE, CACHE_CONTROL);
      }
    } else {
      ForwardedStartsAreMarked(attempts[1..], id, if WellFormed(m) then i - 1 else i);
    }
  }

  lemma {:induction false} ForwardedConcat(a: seq<Message>, b: seq<Message>, id: string)
    ensures Forwarded(a + b, id) == Forwarded(a, id) + Forwarded(b, id)
  {
    if a == [] {
      assert a + b == b;
    } else {
      ForwardedConcat(a[1..], b, id);
      AttemptsCons(a[0], a[1..] + b, id);
      assert a + b == [a[0]] + (a[1..] + b);
    }
  }

  /** The same for everything handed to the server, the middleware's own response included. */
  lemma EveryStartIsMarked(app: App, network: Network, id: string, body: string, i: nat)
    requires i < |Outcome(app, network, 0, id, body).handed|
    requires Outcome(app, network, 0, id, body).handed[i].Start?
    ensures var h := Outcome(app, network, 0, id, body).handed[i].headers;
      h.Some? && Values(h.value, REQUEST_ID) == [id] && Values(h.value, CACHE_CONTROL) == [NO_STORE]
  {
    var attempts := RunOf(app, network, 0).attempts;
    var own := Forwarded(attempts, id);
    if i < |own| {
      ForwardedStartsAreMarked(attempts, id, i);
    } else {
      var start := [ErrorStart(body)];
      ForwardedConcat(attempts, start, id);
      assert start[1..] == [];
      ForwardedStartsAreMarked(attempts + start, id, |own|);
    }
  }

  /** All starts that state a status state this one. */
  predicate AllState(messages: seq<Message>, status: int) {
    forall m | m in messages && Stated(m) :: m.status.value == status
  }

  lemma {:induction false} LastOfOneStatus(messages: seq<Message>, status: int)
    requires AllState(messages, status)
    ensures LastStatus(messages, status) == status
  {
    if messages != [] { LastOfOneStatus(messages[1..], status); }
  }

  /**
   Log accounting on every exit: exactly one completion record, and last; one failure record before it
   exactly when the application raised an `Exception`; and the completion record's status is that of the
   last start the application attempted, 500 if there was none.
   */
  lemma LogAccounting(app: App, network: Network, id: string, body: string)
    ensures var run, records := RunOf(app, network, 0), Outcome(app, network, 0, id, body).records;
      && records == (if run.ending.Some? && run.ending.value.isException then [Failed(id)] else [])
           + [Completed(id, LastStatus(run.attempts, 500))]
  {
    var run := RunOf(app, network, 0);
    if AnswersForApp(run) {
      assert AllState(run.attempts, 500);
      LastOfOneStatus(run.attempts, 500);
    }
  }

  /** Position of the last start that states a status, -1 if there is none. */
  function LastStated(messages: seq<Message>): (i: int)
    ensures -1 <= i < |messages|
    ensures i >= 0 ==> Stated(messages[i])
    ensures forall j | i < j < |messages| :: !Stated(messages[j])
  {
    if messages == [] then -1
    else if Stated(messages[|messages| - 1]) then |messages| - 1
    else LastStated(messages[..|messages| - 1])
  }

  lemma {:induction false} LastStatusConcat(a: seq<Message>, b: seq<Message>, status: int)
    ensures LastStatus(a + b, status) == LastStatus(b, LastStatus(a, status))
    decreases |a|
  {
    if a == [] {
      assert a + b == b;
    } else {
      var m := a[0];
      assert (a + b)[0] == m && (a + b)[1..] == a[1..] + b;
      LastStatusConcat(a[1..], b, if Stated(m) then m.status.value else status);
    }
  }

  predicate NothingStated(messages: seq<Message>) {
    forall m | m in messages :: !Stated(m)
  }

  lemma {:induction false} UnstatedForwarded(attempts: seq<Message>, id: string)
    requires NothingStated(attempts)
    ensures NothingStated(Forwarded(attempts, id))
  {
    if attempts != [] {
      assert attempts[0] in attempts;
      UnstatedForwarded(attempts[1..], id);
    }
  }

  /** The messages that reach the client; `reaches` says so for each call of the server's `send`. */
  function Received(handed: seq<Message>, reaches: nat -> bool, first: nat): seq<Message> {
    if handed == [] then []
    else (if reaches(first) then [handed[0]] else []) + Received(handed[1..], reaches, first + 1)
  }

  lemma ReceivedCons(m: Message, rest: seq<Message>, reaches: nat -> bool, first: nat)
    ensures Received([m] + rest, reaches, first)
      == (if reaches(first) then [m] else []) + Received(rest, reaches, first + 1)
  {
    assert ([m] + rest)[1..] == rest;
  }

  lemma {:induction false} ReceivedConcat(a: seq<Message>, b: seq<Message>, reaches: nat -> bool, first: nat)
    ensures Received(a + b, reaches, first) == Received(a, reaches, first) + Received(b, reaches, first + |a|)
    decreases |a|
  {
    if a == [] {
      assert a + b == b;
    } else {
      var rest := a[1..];
      assert a + b == [a[0]] + (rest + b);
      ReceivedCons(a[0], rest + b, reaches, first);
      ReceivedConcat(rest, b, reaches, first + 1);
    }
  }

  lemma {:induction false} ReceivedAmongHanded(handed: seq<Message>, reaches: nat -> bool, first: nat)
    ensures forall m | m in Received(handed, reaches, first) :: m in handed
  {
    if handed != [] { ReceivedAmongHanded(handed[1..], reaches, first + 1); }
  }

  lemma {:induction false} EverythingReceived(handed: seq<Message>, reaches: nat -> bool, first: nat)
    requires forall n: nat :: reaches(n)
    ensures Received(handed, reaches, first) == handed
  {
    if handed != [] { EverythingReceived(handed[1..], reaches, first + 1); }
  }

  /** The status the client got of these messages: that of the last start that reached it, 500 if none did. */
  function ClientStatus(handed: seq<Message>, reaches: nat -> bool): int {
    LastStatus(Received(handed, reaches, 0), 500)
  }

  lemma ClientStatusAllState(handed: seq<Message>, reaches: nat -> bool)
    requires AllState(handed, 500)
    ensures ClientStatus(handed, reaches) == 500
  {
    ReceivedAmongHanded(handed, reaches, 0);
    LastOfOneStatus(Received(handed, reaches, 0), 500);
  }

  /** Messages that state nothing change nothing. */
  lemma ClientStatusUnstatedTail(own: seq<Message>, tail: seq<Message>, reaches: nat -> bool)
    requires NothingStated(tail)
    ensures ClientStatus(own + tail, reaches) == ClientStatus(own, reaches)
  {
    var late := Received(tail, reaches, |own|);
    ReceivedConcat(own, tail, reaches, 0);
    ReceivedAmongHanded(tail, reaches, |own|);
    LastStatusConcat(Received(own, reaches, 0), late, 500);
    LastOfOneStatus(late, ClientStatus(own, reaches));
  }

  lemma ClientStatusSnoc(own: seq<Message>, m: Message, reaches: nat -> bool)
    requires Stated(m)
    ensures ClientStatus(own + [m], reaches) == if reaches(|own|) then m.status.value else ClientStatus(own, reaches)
  {
    ReceivedConcat(own, [m], reaches, 0);
    assert [m][1..] == [];
    assert Received([m], reaches, |own|) == if reaches(|own|) then [m] else [];
    LastStatusConcat(Received(own, reaches, 0), Received([m], reaches, |own|), 500);
  }

  lemma ForwardedSplit(attempts: seq<Message>, i: nat, id: string)
    requires i < |attempts|
    ensures var m := attempts[i];
      Forwarded(attempts, id) == Forwarded(attempts[..i], id) + (if WellFormed(m) then [Decorate(m, id)] else [])
                                 + Forwarded(attempts[i + 1..], id)
  {
    var before, m, after := attempts[..i], attempts[i], attempts[i + 1..];
    assert attempts == before + ([m] + after);
    ForwardedConcat(before, [m] + after, id);
    AttemptsCons(m, after, id);
  }

  lemma {:induction false} ForwardedCount(attempts: seq<Message>, id: string)
    ensures |Forwarded(attempts, id)| + MalformedStarts(attempts) == |attempts|
  {
    if attempts != [] { ForwardedCount(attempts[1..], id); }
  }

  /**
   For every application: each well-formed message it attempts is handed over, after as many messages as there
   were well-formed ones before it, and with nothing but the two forced headers changed.
   */
  lemma AttemptHandedOver(app: App, network: Network, id: string, body: string, k: nat)
    requires k < |RunOf(app, network, 0).attempts| && WellFormed(RunOf(app, network, 0).attempts[k])
    ensures var attempts, o := RunOf(app, network, 0).attempts, Outcome(app, network, 0, id, body);
      var n := k - MalformedStarts(attempts[..k]);
      0 <= n < |o.handed| && OnlyForced(attempts[k], o.handed[n], id)
  {
    var attempts := RunOf(app, network, 0).attempts;
    var m, before, own := attempts[k], Forwarded(attempts[..k], id), Forwarded(attempts, id);
    ForwardedSplit(attempts, k, id);
    ForwardedCount(attempts[..k], id);
    DecorateMeans(m, id);
    assert own == before + ([Decorate(m, id)] + Forwarded(attempts[k + 1..], id));
    assert own[|before|] == Decorate(m, id);
    assert Outcome(app, network, 0, id, body).handed[..|own|] == own;
  }

  /** The status logged, in terms of the last start that states one. */
  lemma LastStatusFromStated(attempts: seq<Message>)
    ensures var i := LastStated(attempts);
      LastStatus(attempts, 500) == if i < 0 then 500 else attempts[i].status.value
  {
    var i := LastStated(attempts);
    if i < 0 {
      LastOfOneStatus(attempts, 500);
    } else {
      var before, m, after := attempts[..i], attempts[i], attempts[i + 1..];
      assert attempts == before + ([m] + after);
      LastStatusConcat(before, [m] + after, 500);
      AttemptsCons(m, after, "");
      LastOfOneStatus(after, m.status.value);
    }
  }

  /** The status received, in terms of the last start that states one. */
  lemma ClientStatusFromStated(attempts: seq<Message>, id: string, reaches: nat -> bool)
    ensures var i := LastStated(attempts);
      ClientStatus(Forwarded(attempts, id), reaches) ==
        if i < 0 then 500
        else
          var own := Forwarded(attempts[..i], id);
          if attempts[i].headers.Some? && reaches(|own|) then attempts[i].status.value else ClientStatus(own, reaches)
  {
    var i := LastStated(attempts);
    if i < 0 {
      UnstatedForwarded(attempts, id);
      ClientStatusAllState(Forwarded(attempts, id), reaches);
    } else {
      var own, m, tail := Forwarded(attempts[..i], id), attempts[i], Forwarded(attempts[i + 1..], id);
      ForwardedSplit(attempts, i, id);
      UnstatedForwarded(attempts[i + 1..], id);
      if m.headers.Some? {
        ClientStatusUnstatedTail(own + [Decorate(m, id)], tail, reaches);
        ClientStatusSnoc(own, Decorate(m, id), reaches);
      } else {
        assert own + [] == own;
        ClientStatusUnstatedTail(own, tail, reaches);
      }
    }
  }

  /** The status of the completion record, which `LogAccounting` shows to be the last record. */
  function LoggedStatus(o: Effects): int
    requires o.records != [] && o.records[|o.records| - 1].Completed?
  {
    o.records[|o.records| - 1].status
  }

  /**
   When the log tells the truth, for whatever part of the messages handed to the server reaches the client: the
   logged status is the client's exactly when the application's last start with a status had headers and reached
   the client, or stated just the status the client had without it.
   */
  lemma LogTruthfulIff(app: App, network: Network, reaches: nat -> bool, id: string, body: string)
    ensures var run, o := RunOf(app, network, 0), Outcome(app, network, 0, id, body);
      var i := LastStated(run.attempts);
      ClientStatus(o.handed, reaches) == LoggedStatus(o) <==>
        || i < 0
        || (var own := Forwarded(run.attempts[..i], id);
            || (run.attempts[i].headers.Some? && reaches(|own|))
            || run.attempts[i].status.value == ClientStatus(own, reaches))
  {
    var run := RunOf(app, network, 0);
    LastStatusFromStated(run.attempts);
    ClientStatusFromStated(run.attempts, id, reaches);
    if AnswersForApp(run) {
      UnstatedForwarded(run.attempts, id);
      ClientStatusAllState(Outcome(app, network, 0, id, body).handed, reaches);
    }
  }

  lemma {:induction false} OnlyStart(attempts: seq<Message>, i: nat)
    requires Starts(attempts) <= 1 && i < |attempts| && attempts[i].Start?
    ensures forall j | 0 <= j < |attempts| && j != i :: !attempts[j].Start?
  {
    if i == 0 {
      ForwardedStarts(attempts[1..], "");
      assert forall j | 1 <= j < |attempts| :: attempts[j] == attempts[1..][j - 1];
    } else {
      OnlyStart(attempts[1..], i - 1);
      ForwardedStarts(attempts[1..], "");
      assert attempts[1..][i - 1].Start?;
      assert forall j | 1 <= j < |attempts| :: attempts[j] == attempts[1..][j - 1];
    }
  }

  /** The calls of the server's `send` that did not raise. */
  function Accepted(network: Network): nat -> bool {
    (n: nat) => network(n).None?
  }

  /**
   For at most one start, over a server whose accepted messages reach the client: the log misleads exactly when
   that start states a status other than the 500 assumed without it, and either has no headers or was refused.
   */
  lemma SingleStartLogTruthfulIff(app: App, network: Network, id: string, body: string)
    requires Starts(RunOf(app, network, 0).attempts) <= 1
    ensures var run, o := RunOf(app, network, 0), Outcome(app, network, 0, id, body);
      ClientStatus(o.handed, Accepted(network)) == LoggedStatus(o) <==>
        forall k | 0 <= k < |run.attempts| && Stated(run.attempts[k]) && run.attempts[k].status.value != 500 ::
          run.attempts[k].headers.Some? && network(|Forwarded(run.attempts[..k], id)|).None?
  {
    var attempts := RunOf(app, network, 0).attempts;
    LogTruthfulIff(app, network, Accepted(network), id, body);
    var i := LastStated(attempts);
    if i >= 0 {
      OnlyStart(attempts, i);
      UnstatedForwarded(attempts[..i], id);
      ClientStatusAllState(Forwarded(attempts[..i], id), Accepted(network));
    }
  }

  lemma {:induction false} StartsForwardedIff(attempts: seq<Message>, id: string)
    ensures Starts(Forwarded(attempts, id)) == 0 <==>
      forall i | 0 <= i < |attempts| && attempts[i].Start? :: !WellFormed(attempts[i])
  {
    if attempts != [] {
      var rest := attempts[1..];
      StartsForwardedIff(rest, id);
      assert forall i | 0 <= i < |rest| :: rest[i] == attempts[i + 1];
      assert forall i | 1 <= i < |attempts| :: attempts[i] == rest[i - 1];
      if WellFormed(attempts[0]) {
        assert ([Decorate(attempts[0], id)] + Forwarded(rest, id))[1..] == Forwarded(rest, id);
      } else {
        assert [] + Forwarded(rest, id) == Forwarded(rest, id);
      }
    }
  }

  /**
   Exactly when an `Exception` of the application leaves the server without any start: the application
   attempted starts, and every one of them was malformed. The middleware then believes the response started.
   */
  lemma UnansweredExceptionIff(app: App, network: Network, id: string, body: string)
    requires RunOf(app, network, 0).ending.Some? && RunOf(app, network, 0).ending.value.isException
    ensures var run, o := RunOf(app, network, 0), Outcome(app, network, 0, id, body);
      Starts(o.handed) == 0 <==>
        && StartAttempted(run.attempts)
        && forall i | 0 <= i < |run.attempts| && run.attempts[i].Start? :: !WellFormed(run.attempts[i])
  {
    var run := RunOf(app, network, 0);
    ForwardedStarts(run.attempts, id);
    StartsForwardedIff(run.attempts, id);
    if AnswersForApp(run) {
      var tail := ErrorTail(network, |Forwarded(run.attempts, id)|, id, body);
      StartsConcat(Forwarded(run.attempts, id), tail);
      assert tail[0].Start?;
    }
  }

  /** The attempted start is malformed, or what the server is handed of it does not reach the client. */
  predicate Lost(attempts: seq<Message>, k: nat, id: string, reaches: nat -> bool)
    requires k < |attempts|
  {
    !WellFormed(attempts[k]) || !reaches(|Forwarded(attempts[..k], id)|)
  }

  lemma LastForwarded(attempts: seq<Message>, id: string)
    requires attempts != []
    ensures var n := |attempts| - 1;
      Forwarded(attempts, id)
        == Forwarded(attempts[..n], id) + if WellFormed(attempts[n]) then [Decorate(attempts[n], id)] else []
  {
    var n := |attempts| - 1;
    ForwardedSplit(attempts, n, id);
    assert attempts[n + 1..] == [];
  }

  lemma ReceivedOne(handed: seq<Message>, reaches: nat -> bool, first: nat)
    requires |handed| <= 1
    ensures Received(handed, reaches, first) == if reaches(first) then handed else []
    ensures Starts(handed) == if handed != [] && handed[0].Start? then 1 else 0
  {
    if handed != [] { assert handed[1..] == [] && handed == [handed[0]]; }
  }

  lemma StartsReceivedAppended(own: seq<Message>, handed: seq<Message>, reaches: nat -> bool)
    requires |handed| <= 1
    ensures Starts(Received(own + handed, reaches, 0)) == Starts(Received(own, reaches, 0))
      + if handed != [] && handed[0].Start? && reaches(|own|) then 1 else 0
  {
    ReceivedConcat(own, handed, reaches, 0);
    ReceivedOne(handed, reaches, |own|);
    StartsConcat(Received(own, reaches, 0), Received(handed, reaches, |own|));
  }

  lemma StartsReceivedLast(attempts: seq<Message>, id: string, reaches: nat -> bool)
    requires attempts != []
    ensures var n := |attempts| - 1;
      Starts(Received(Forwarded(attempts, id), reaches, 0))
        == Starts(Received(Forwarded(attempts[..n], id), reaches, 0))
           + if attempts[n].Start? && !Lost(attempts, n, id, reaches) then 1 else 0
  {
    var n := |attempts| - 1;
    var handed := if WellFormed(attempts[n]) then [Decorate(attempts[n], id)] else [];
    LastForwarded(attempts, id);
    StartsReceivedAppended(Forwarded(attempts[..n], id), handed, reaches);
  }

  lemma {:induction false} StartsReceivedIff(attempts: seq<Message>, id: string, reaches: nat -> bool)
    ensures Starts(Received(Forwarded(attempts, id), reaches, 0)) == 0 <==>
      forall k | 0 <= k < |attempts| && attempts[k].Start? :: Lost(attempts, k, id, reaches)
  {
    if attempts != [] {
      var n := |attempts| - 1;
      var before := attempts[..n];
      StartsReceivedIff(before, id, reaches);
      assert forall k | 0 <= k < n :: before[k] == attempts[k] && before[..k] == attempts[..k];
      assert forall k | 0 <= k < n :: Lost(before, k, id, reaches) <==> Lost(attempts, k, id, reaches);
      StartsReceivedLast(attempts, id, reaches);
    }
  }

  lemma StartsReceivedOfError(own: seq<Message>, network: Network, reaches: nat -> bool, id: string, body: string)
    ensures Starts(Received(own + ErrorTail(network, |own|, id, body), reaches, 0))
      == Starts(Received(own, reaches, 0)) + if reaches(|own|) then 1 else 0
  {
    var start := [Decorate(ErrorStart(body), id)];
    var rest := if network(|own|).None? then [Body(body, false)] else [];
    assert own + ErrorTail(network, |own|, id, body) == own + start + rest;
    StartsReceivedAppended(own + start, rest, reaches);
    StartsReceivedAppended(own, start, reaches);
  }

  /**
   Exactly when an `Exception` of the application leaves the client without any start, for whatever part of the
   handed messages reaches it: every attempted start was lost, and the middleware's own, which is handed over
   only if none was attempted, did not reach the client either.
   */
  lemma ClientUnansweredIff(app: App, network: Network, reaches: nat -> bool, id: string, body: string)
    requires RunOf(app, network, 0).ending.Some? && RunOf(app, network, 0).ending.value.isException
    ensures var run, o := RunOf(app, network, 0), Outcome(app, network, 0, id, body);
      Starts(Received(o.handed, reaches, 0)) == 0 <==>
        && (forall k | 0 <= k < |run.attempts| && run.attempts[k].Start? :: Lost(run.attempts, k, id, reaches))
        && (StartAttempted(run.attempts) || !reaches(|Forwarded(run.attempts, id)|))
  {
    var run := RunOf(app, network, 0);
    StartsReceivedIff(run.attempts, id, reaches);
    if AnswersForApp(run) {
      StartsReceivedOfError(Forwarded(run.attempts, id), network, reaches, id, body);
    }
  }

  /**
   A start without headers, which ASGI allows, followed by the error it provokes: the client gets nothing, the
   log says 200.
   */
  lemma HeaderlessStartIsLost(network: Network, id: string, body: string)
    ensures var app := Send(Start(Some(200), None), Return, Raise(BAD_MESSAGE));
      Outcome(app, network, 0, id, body) == Effects([], Some(BAD_MESSAGE), [Failed(id), Completed(id, 200)])
  {
    var app := Send(Start(Some(200), None), Return, Raise(BAD_MESSAGE));
    var run := RunOf(app, network, 0);
    assert run.attempts == [Start(Some(200), None)] && run.attempts[1..] == [];
    assert run.attempts[0].Start?;
    assert Forwarded(run.attempts, id) == [];
    assert LastStatus(run.attempts, 500) == LastStatus(run.attempts[1..], 200);
  }

  /** A start the server refuses is logged as if it had been sent. */
  lemma RefusedStartIsLogged(network: Network, status: int, id: string, body: string)
    requires network(0).Some?
    ensures var o := Outcome(Send(Start(Some(status), Some([])), Return, Return), network, 0, id, body);
      && Received(o.handed, Accepted(network), 0) == [] && o.raised == None
      && o.records == [Completed(id, status)]
  {
    var m := Start(Some(status), Some([]));
    assert RunOf(Send(m, Return, Return), network, 0).attempts == [m] + [];
    AttemptsCons(m, [], id);
    assert m in [m];
    assert [Decorate(m, id)][1..] == [];
  }

  /** A second start, which ASGI servers refuse, replaces the status in the log but not the client's. */
  lemma RefusedSecondStartIsLogged(network: Network, id: string, body: string)
    requires network(0).None? && network(1).Some?
    ensures var ok, missing := Start(Some(200), Some([])), Start(Some(404), Some([]));
      var o := Outcome(Send(ok, Send(missing, Return, Return), Return), network, 0, id, body);
      && Received(o.handed, Accepted(network), 0) == [Decorate(ok, id)] && o.raised == None
      && o.records == [Completed(id, 404)]
  {
    var ok, missing := Start(Some(200), Some([])), Start(Some(404), Some([]));
    var app := Send(ok, Send(missing, Return, Return), Return);
    assert RunOf(app, network, 0).attempts == [ok] + ([missing] + []);
    AttemptsCons(ok, [missing] + [], id);
    AttemptsCons(missing, [], id);
    var handed := [Decorate(ok, id), Decorate(missing, id)];
    assert Forwarded([ok] + ([missing] + []), id) == handed;
    var refused := [Decorate(missing, id)];
    assert refused[1..] == [] && handed[1..] == refused;
    assert Received(refused, Accepted(network), 1) == [];
  }
}
