/**
 The search API's middleware chain: request identifier, then panic recovery, then access log, around an
 arbitrary handler.
 */
module HttpMiddleware {
  import opened Wrappers
  import opened HttpServer
  import RequestIds
  import SystemStatus

  /** `Header.Set` stores the name in its canonical spelling. */
  const REQUEST_ID := "X-Request-Id"

  const CONTENT_TYPE := "Content-Type"
  const CACHE_CONTROL := "Cache-Control"
  const JSON_TYPE := "application/json; charset=utf-8"
  const NO_STORE := "no-store"

  /** One call a handler makes on its writer; a guarded `WriteHeader` runs under the handler's own recover. */
  datatype Op =
    | SetHeader(name: string, value: string)
    | DelHeader(name: string)
    | WriteHeader(code: int, guarded: bool)
    | Write(data: string)

  /** A finished run of a handler: its calls in order, and whether it ends in a panic of its own. */
  datatype Script = Script(ops: seq<Op>, panics: bool)

  datatype Record = Completed(id: string, status: int) | Recovered(id: string)

  class Logger {
    var records: seq<Record>

    constructor ()
      ensures records == []
    {
      records := [];
    }

    method Log(r: Record)
      modifies this
      ensures records == old(records) + [r]
    {
      records := records + [r];
    }
  }

  // ---------------------------------------------------------------------------------------------
  // The recorder and the chain
  // ---------------------------------------------------------------------------------------------

  /** Recorder and writer together, and whether a panic has left the handler. */
  datatype State = State(wire: Wire, status: int, wroteHeader: bool, aborted: bool)

  function AfterRecorderWriteHeader(s: State, code: int): State {
    if s.wroteHeader then s else s.(wire := AfterWriteHeader(s.wire, code), status := code, wroteHeader := true)
  }

  /** The live header map after one call. */
  function Edit(h: Header, op: Op): Header {
    match op
    case SetHeader(name, value) => h[name := value]
    case DelHeader(name) => h - {name}
    case _ => h
  }

  function AfterOp(s: State, op: Op): State {
    match op
    case SetHeader(_, _) => s.(wire := s.wire.(header := Edit(s.wire.header, op)))
    case DelHeader(_) => s.(wire := s.wire.(header := Edit(s.wire.header, op)))
    case WriteHeader(code, guarded) =>
      AfterRecorderWriteHeader(s, code).(aborted := !guarded && !s.wroteHeader && Refused(s.wire, code))
    case Write(data) =>
      var t := AfterRecorderWriteHeader(s, 200);
      t.(wire := AfterWrite(t.wire, data))
  }

  /** The handler runs until its calls are used up or one of them panics. */
  function AfterOps(s: State, ops: seq<Op>): State
    decreases |ops|
  {
    if ops == [] || s.aborted then s else AfterOps(AfterOp(s, ops[0]), ops[1..])
  }

  class StatusRecorder {
    const writer: ResponseWriter
    var status: int
    var wroteHeader: bool

    constructor (writer: ResponseWriter)
      ensures this.writer == writer && View() == State(writer.View(), 200, false, false)
    {
      this.writer := writer;
      this.status := 200;
      this.wroteHeader := false;
    }

    function View(): State
      reads this, writer
    {
      State(writer.View(), status, wroteHeader, false)
    }

    method WriteHeader(code: int) returns (panicked: bool)
      modifies this, writer
      ensures View() == AfterRecorderWriteHeader(old(View()), code)
      ensures panicked == (!old(wroteHeader) && Refused(old(writer.View()), code))
    {
      if wroteHeader {
        return false;
      }
      status := code;
      wroteHeader := true;
      panicked := writer.WriteHeader(code);
    }

    method Write(data: string)
      modifies this, writer
      ensures View() == AfterOp(old(View()), Op.Write(data))
    {
      if !wroteHeader {
        var panicked := WriteHeader(200);
      }
      writer.Write(data);
    }
  }

  /** The inner handler, run against the recorder. */
  method RunHandler(recorder: StatusRecorder, script: Script) returns (panicked: bool)
    modifies recorder, recorder.writer
    ensures var s := AfterOps(old(recorder.View()), script.ops);
      recorder.View() == s.(aborted := false) && panicked == (s.aborted || script.panics)
  {
    ghost var final := AfterOps(recorder.View(), script.ops);
    var i := 0;
    while i < |script.ops|
      invariant 0 <= i <= |script.ops|
      invariant AfterOps(recorder.View(), script.ops[i..]) == final
    {
      var op := script.ops[i];
      ghost var s := recorder.View();
      assert script.ops[i..][0] == op && script.ops[i..][1..] == script.ops[i + 1..];
      assert AfterOps(AfterOp(s, op), script.ops[i + 1..]) == final;
      match op {
        case SetHeader(name, value) => recorder.writer.SetHeader(name, value);
        case DelHeader(name) => recorder.writer.DelHeader(name);
        case WriteHeader(code, guarded) =>
          var refused := recorder.WriteHeader(code);
          if refused && !guarded {
            return true;
          }
        case Write(data) => recorder.Write(data);
      }
      i := i + 1;
    }
    return script.panics;
  }

  method AccessLog(logger: Logger, writer: ResponseWriter, id: string, script: Script) returns (panicked: bool)
    modifies logger, writer
    ensures var s := AfterOps(State(old(writer.View()), 200, false, false), script.ops);
      && writer.View() == s.wire
      && panicked == (s.aborted || script.panics)
      && logger.records == old(logger.records) + if panicked then [] else [Completed(id, s.status)]
  {
    var recorder := new StatusRecorder(writer);
    panicked := RunHandler(recorder, script);
    if !panicked {
      logger.Log(Completed(id, recorder.status));
    }
  }

  function AfterWriteJson(w: Wire, code: int, body: string): Wire {
    var labelled := w.(header := w.header[CONTENT_TYPE := JSON_TYPE][CACHE_CONTROL := NO_STORE]);
    AfterWrite(AfterWriteHeader(labelled, code), body)
  }

  /** The deferred function of `recoveryMiddleware` writes past the recorder, straight to the outer writer. */
  method Recovery(logger: Logger, writer: ResponseWriter, id: string, script: Script, errorBody: string)
    modifies logger, writer
    ensures var s := AfterOps(State(old(writer.View()), 200, false, false), script.ops);
      var panicked := s.aborted || script.panics;
      && writer.View() == (if panicked then AfterWriteJson(s.wire, 500, errorBody) else s.wire)
      && logger.records == old(logger.records) + [if panicked then Recovered(id) else Completed(id, s.status)]
  {
    var panicked := AccessLog(logger, writer, id, script);
    if panicked {
      logger.Log(Recovered(id));
      writer.SetHeader(CONTENT_TYPE, JSON_TYPE);
      writer.SetHeader(CACHE_CONTROL, NO_STORE);
      var refused := writer.WriteHeader(500);
      writer.Write(errorBody);
    }
  }

  /** What one request leaves behind: the response and what the chain logged. */
  datatype Exchange = Exchange(head: Head, interim: seq<int>, body: string, records: seq<Record>)

  function Opened(id: string): Wire {
    Wire(map[REQUEST_ID := id], [], None, "")
  }

  /** Operationally: the handler's calls, then recovery, then the server's own commit. */
  function Serve(id: string, script: Script, errorBody: string): Exchange {
    var s := AfterOps(State(Opened(id), 200, false, false), script.ops);
    var panicked := s.aborted || script.panics;
    var w := AfterWriteHeader(if panicked then AfterWriteJson(s.wire, 500, errorBody) else s.wire, 200);
    Exchange(w.head.value, w.interim, w.body, [if panicked then Recovered(id) else Completed(id, s.status)])
  }

  method ChooseId(raw: string, random: Option<seq<int>>, now: int, count: nat) returns (id: string)
    requires random.Some? ==> RequestIds.RandomBytes(random.value)
    requires -RequestIds.INT64_MAX - 1 <= now <= RequestIds.INT64_MAX && count < RequestIds.UINT64
    ensures id == RequestIds.ChooseRequestId(raw, random, now, count)
    ensures RequestIds.GoUses(raw, random, now, count, id)
  {
    id := RequestIds.ChooseRequestId(raw, random, now, count);
    RequestIds.GoIdMeans(raw, random, now, count);
  }

  method HandleWithId(id: string, script: Script, errorBody: string) returns (exchange: Exchange)
    ensures exchange == Serve(id, script, errorBody)
  {
    var writer := new ResponseWriter();
    var logger := new Logger();
    writer.SetHeader(REQUEST_ID, id);
    assert writer.View() == Opened(id);
    Recovery(logger, writer, id, script, errorBody);
    writer.Finish();
    exchange := Exchange(writer.head.value, writer.interim, writer.body, logger.records);
  }

  /**
   The whole chain for one request. `inner` is any handler, `errorBody` the encoding of the
   internal_error payload; both may depend on the identifier chosen.
   */
  method Handle(raw: string, random: Option<seq<int>>, now: int, count: nat,
                inner: string -> Script, errorBody: string -> string) returns (id: string, exchange: Exchange)
    requires random.Some? ==> RequestIds.RandomBytes(random.value)
    requires -RequestIds.INT64_MAX - 1 <= now <= RequestIds.INT64_MAX && count < RequestIds.UINT64
    ensures id == RequestIds.ChooseRequestId(raw, random, now, count)
    ensures RequestIds.GoUses(raw, random, now, count, id)
    ensures exchange == Serve(id, inner(id), errorBody(id))
  {
    id := ChooseId(raw, random, now, count);
    exchange := HandleWithId(id, inner(id), errorBody(id));
  }

  // ---------------------------------------------------------------------------------------------
  // What reaches the wire and the log, declaratively
  // ---------------------------------------------------------------------------------------------

  predicate Decisive(op: Op) { op.WriteHeader? || op.Write? }

  /** Position of the first call that writes a header or a body, `|ops|` if there is none. */
  function FirstDecisive(ops: seq<Op>): (i: nat)
    ensures i <= |ops|
    ensures i < |ops| ==> Decisive(ops[i])
    ensures forall j | 0 <= j < i :: !Decisive(ops[j])
  {
    if ops == [] || Decisive(ops[0]) then 0 else 1 + FirstDecisive(ops[1..])
  }

  function FirstWrite(ops: seq<Op>): (i: nat)
    ensures i <= |ops|
    ensures i < |ops| ==> ops[i].Write?
    ensures forall j | 0 <= j < i :: !ops[j].Write?
  {
    if ops == [] || ops[0].Write? then 0 else 1 + FirstWrite(ops[1..])
  }

  /** The handler announces a status that commits nothing: an interim or an invalid one. */
  predicate Misannounces(ops: seq<Op>) {
    var i := FirstDecisive(ops);
    i < |ops| && ops[i].WriteHeader? && !FinalCode(ops[i].code)
  }

  /** That announcement panics out of the handler. */
  predicate Aborts(ops: seq<Op>) {
    Misannounces(ops) && var op := ops[FirstDecisive(ops)]; !ValidCode(op.code) && !op.guarded
  }

  /** Position of the call that commits the response, `|ops|` if none does. */
  function CommitAt(ops: seq<Op>): (i: nat)
    ensures i <= |ops|
    ensures i < |ops| ==> Decisive(ops[i])
  {
    if Aborts(ops) then |ops| else if Misannounces(ops) then FirstWrite(ops) else FirstDecisive(ops)
  }

  function CommittedCode(op: Op): int
    requires Decisive(op)
  {
    if op.WriteHeader? then op.code else 200
  }

  function HeaderAfter(h: Header, ops: seq<Op>): Header
    decreases |ops|
  {
    if ops == [] then h else HeaderAfter(Edit(h, ops[0]), ops[1..])
  }

  function Written(ops: seq<Op>): string {
    if ops == [] then "" else if ops[0].Write? then ops[0].data + Written(ops[1..]) else Written(ops[1..])
  }

  /** How many calls take place before a panic, if any, ends the handler. */
  function ExecutedCount(ops: seq<Op>): (n: nat)
    ensures n <= |ops|
  {
    if Aborts(ops) then FirstDecisive(ops) + 1 else |ops|
  }

  lemma HeaderPrefix(h: Header, ops: seq<Op>, n: nat)
    requires 1 <= n <= |ops|
    ensures HeaderAfter(h, ops[..n]) == HeaderAfter(Edit(h, ops[0]), ops[1..][..n - 1])
  {
    assert ops[..n][1..] == ops[1..][..n - 1];
  }

  lemma {:induction false} CommittedRun(s: State, ops: seq<Op>)
    requires s.wire.head.Some? && s.wroteHeader && !s.aborted
    ensures AfterOps(s, ops) == s.(wire := s.wire.(
      header := HeaderAfter(s.wire.header, ops),
      body := s.wire.body + if BodyAllowed(s.wire.head.value.status) then Written(ops) else ""))
    decreases |ops|
  {
    if ops == [] {
      assert s.wire.body + "" == s.wire.body;
    } else {
      var t := AfterOp(s, ops[0]);
      CommittedRun(t, ops[1..]);
      if ops[0].Write? && BodyAllowed(s.wire.head.value.status) {
        assert s.wire.body + ops[0].data + Written(ops[1..]) == s.wire.body + (ops[0].data + Written(ops[1..]));
      } else {
        assert t.wire.body == s.wire.body;
      }
    }
  }

  /** A recorder that believes the header written over a writer that is still open. */
  lemma {:induction false} StuckRun(s: State, ops: seq<Op>)
    requires s.wire.head.None? && s.wire.body == "" && s.wroteHeader && !s.aborted
    ensures var t, k := AfterOps(s, ops), FirstWrite(ops);
      && t.wire.header == HeaderAfter(s.wire.header, ops) && t.wire.interim == s.wire.interim
      && t.status == s.status && t.wroteHeader && !t.aborted
      && t.wire.head == (if k == |ops| then None else Some(Head(200, HeaderAfter(s.wire.header, ops[..k]))))
      && t.wire.body == Written(ops) && (k == |ops| ==> Written(ops) == "")
    decreases |ops|
  {
    if ops != [] {
      var t := AfterOp(s, ops[0]);
      if ops[0].Write? {
        assert t.wire.body == ops[0].data by { assert "" + ops[0].data == ops[0].data; }
        CommittedRun(t, ops[1..]);
        assert ops[..0] == [];
      } else {
        StuckRun(t, ops[1..]);
        HeaderPrefix(s.wire.header, ops, if FirstWrite(ops) == 0 then 1 else FirstWrite(ops));
      }
    }
  }

  /** What a fresh recorder and its writer look like after any calls. */
  ghost predicate FreshOutcome(h: Header, ops: seq<Op>, t: State) {
    var i, k := FirstDecisive(ops), CommitAt(ops);
    && t.aborted == Aborts(ops)
    && t.wire.header == HeaderAfter(h, ops[..ExecutedCount(ops)])
    && t.wire.head == (if k == |ops| then None else Some(Head(CommittedCode(ops[k]), HeaderAfter(h, ops[..k]))))
    && t.wire.body == (if k < |ops| && BodyAllowed(CommittedCode(ops[k])) then Written(ops) else "")
    && t.wire.interim == (if Misannounces(ops) && InterimCode(ops[i].code) then [ops[i].code] else [])
    && t.wroteHeader == (i < |ops|)
    && t.status == if i < |ops| then CommittedCode(ops[i]) else 200
  }

  predicate Fresh(s: State) {
    s.wire.head.None? && s.wire.body == "" && s.wire.interim == [] && s.status == 200 && !s.wroteHeader && !s.aborted
  }

  /** Reading the declarative view past a leading header call. */
  lemma OutcomeShift(h: Header, ops: seq<Op>, t: State)
    requires ops != [] && !Decisive(ops[0]) && FreshOutcome(Edit(h, ops[0]), ops[1..], t)
    ensures FreshOutcome(h, ops, t)
  {
    var rest := ops[1..];
    assert FirstDecisive(ops) == 1 + FirstDecisive(rest) && FirstWrite(ops) == 1 + FirstWrite(rest);
    assert CommitAt(ops) == 1 + CommitAt(rest) && ExecutedCount(ops) == 1 + ExecutedCount(rest);
    HeaderPrefix(h, ops, ExecutedCount(ops));
    HeaderPrefix(h, ops, CommitAt(ops));
  }

  lemma FirstCallDecides(s: State, ops: seq<Op>)
    requires Fresh(s) && ops != [] && Decisive(ops[0])
    ensures FreshOutcome(s.wire.header, ops, AfterOps(s, ops))
  {
    var t, rest, h := AfterOp(s, ops[0]), ops[1..], s.wire.header;
    assert FirstDecisive(ops) == 0 && ops[..0] == [] && ops[..|ops|] == ops;
    if t.aborted {
      HeaderPrefix(h, ops, 1);
      assert rest[..0] == [];
    } else if t.wire.head.None? {
      StuckRun(t, rest);
      var k := FirstWrite(ops);
      assert k == 1 + FirstWrite(rest);
      HeaderPrefix(h, ops, k);
      HeaderPrefix(h, ops, |ops|);
      assert rest[..|rest|] == rest;
    } else {
      assert ops[0].Write? ==> t.wire.body == ops[0].data by {
        assert ops[0].Write? ==> "" + ops[0].data == ops[0].data;
      }
      CommittedRun(t, rest);
      assert ops[0].WriteHeader? ==> "" + Written(rest) == Written(rest);
    }
  }

  lemma {:induction false} FreshRun(s: State, ops: seq<Op>)
    requires Fresh(s)
    ensures FreshOutcome(s.wire.header, ops, AfterOps(s, ops))
    decreases |ops|
  {
    if ops != [] {
      if !Decisive(ops[0]) {
        FreshRun(AfterOp(s, ops[0]), ops[1..]);
        OutcomeShift(s.wire.header, ops, AfterOps(s, ops));
      } else {
        FirstCallDecides(s, ops);
      }
    }
  }

  /** The client-visible status: the first committed one, otherwise 500 for a panic and 200 for a return. */
  function WireStatus(script: Script): int {
    var k := CommitAt(script.ops);
    if k < |script.ops| then CommittedCode(script.ops[k])
    else if Aborts(script.ops) || script.panics then 500
    else 200
  }

  /**
   What reaches the wire and the log, for every handler. A committed status and its headers survive a later
   panic; without one a panic yields the internal error; and a panic always adds the error text to the body.
   */
  lemma ServeMeans(id: string, script: Script, errorBody: string)
    ensures var x, ops := Serve(id, script, errorBody), script.ops;
      var k, h := CommitAt(ops), map[REQUEST_ID := id];
      var panicked := Aborts(ops) || script.panics;
      && x.head.status == WireStatus(script)
      && x.head.header == (
           if k < |ops| then HeaderAfter(h, ops[..k])
           else if panicked then
             HeaderAfter(h, ops[..ExecutedCount(ops)])[CONTENT_TYPE := JSON_TYPE][CACHE_CONTROL := NO_STORE]
           else HeaderAfter(h, ops))
      && x.body == (
           if !BodyAllowed(x.head.status) then ""
           else (if k < |ops| then Written(ops) else "") + if panicked then errorBody else "")
      && x.interim == (
           if Misannounces(ops) && InterimCode(ops[FirstDecisive(ops)].code) then [ops[FirstDecisive(ops)].code]
           else [])
      && x.records == [
           if panicked then Recovered(id)
           else Completed(id, if FirstDecisive(ops) < |ops| then CommittedCode(ops[FirstDecisive(ops)]) else 200)]
  {
    FreshRun(State(Opened(id), 200, false, false), script.ops);
    assert script.ops[..|script.ops|] == script.ops;
    var s := AfterOps(State(Opened(id), 200, false, false), script.ops);
    assert s.wire.body + "" == s.wire.body && "" + errorBody == errorBody;
  }

  /** The access log of a normal return tells the client's status exactly when the handler did not misannounce. */
  lemma AccessLogTruthfulIff(id: string, script: Script, errorBody: string)
    requires !script.panics && !Aborts(script.ops)
    ensures var x := Serve(id, script, errorBody);
      && |x.records| == 1 && x.records[0].Completed?
      && (x.records[0].status == x.head.status <==> !Misannounces(script.ops))
  {
    ServeMeans(id, script, errorBody);
  }

  /** A handler that announces 103 before its 404 is logged as 103 while the client receives 200. */
  lemma EarlyHintsHideTheStatus(id: string, errorBody: string)
    ensures var x := Serve(id, Script([WriteHeader(103, false), WriteHeader(404, false)], false), errorBody);
      x.head.status == 200 && x.records == [Completed(id, 103)] && x.interim == [103]
  {
    var ops := [WriteHeader(103, false), WriteHeader(404, false)];
    FreshRun(State(Opened(id), 200, false, false), ops);
    ServeMeans(id, Script(ops, false), errorBody);
    assert FirstWrite(ops) == 2;
  }

  /** Recorder and writer agree on whether and with which status the response has started. */
  predicate Agree(s: State) {
    && (s.wroteHeader <==> s.wire.head.Some?)
    && s.status == if s.wire.head.Some? then s.wire.head.value.status else 200
  }

  /** After any calls recorder and writer agree exactly when the first announcement was a final status. */
  lemma RecorderSimulatesIff(id: string, ops: seq<Op>)
    ensures Agree(AfterOps(State(Opened(id), 200, false, false), ops)) <==> !Misannounces(ops)
  {
    FreshRun(State(Opened(id), 200, false, false), ops);
  }

  // ---------------------------------------------------------------------------------------------
  // The service's own handlers
  // ---------------------------------------------------------------------------------------------

  /** What the handlers encode as JSON. */
  datatype Payload =
    | Health(service: string, status: string, version: string)
    | Status(payload: SystemStatus.Payload)
    | ApiError(code: string, message: string, requestId: string)

  function WriteJson(code: int, body: string): seq<Op> {
    [SetHeader(CONTENT_TYPE, JSON_TYPE), SetHeader(CACHE_CONTROL, NO_STORE), WriteHeader(code, false), Write(body)]
  }

  predicate Known(path: string) { path == "/healthz" || path == "/readyz" || path == "/v1/system/status" }

  /** The request reaches the status handler. */
  predicate AsksForStatus(requestMethod: string, path: string) {
    requestMethod == "GET" && path == "/v1/system/status"
  }

  /** Status and payload of a request by route and method; `status` is what the status handler would report. */
  function Answer(requestMethod: string, path: string, id: string, version: string, status: SystemStatus.Payload)
    : (int, Payload)
  {
    if !Known(path) then (404, ApiError("not_found", "the requested resource was not found", id))
    else if requestMethod != "GET" then
      (405, ApiError("method_not_allowed", "method " + requestMethod + " is not allowed for this resource", id))
    else if path == "/healthz" then (200, Health("search-api", "healthy", version))
    else if path == "/readyz" then (200, Health("search-api", "ready", version))
    else (200, Status(status))
  }

  /** The multiplexer, `requireMethod` and the handlers behind it. */
  function Route(requestMethod: string, path: string, id: string, version: string, status: SystemStatus.Payload,
                 encode: Payload -> string): Script
  {
    var (code, payload) := Answer(requestMethod, path, id, version, status);
    var allow := if Known(path) && requestMethod != "GET" then [SetHeader("Allow", "GET")] else [];
    Script(allow + WriteJson(code, encode(payload)), false)
  }

  lemma HeaderOfTwo(h: Header, ops: seq<Op>)
    requires |ops| == 2
    ensures HeaderAfter(h, ops) == Edit(Edit(h, ops[0]), ops[1])
  {
    var rest := ops[1..];
    assert rest[1..] == [];
    assert HeaderAfter(Edit(h, ops[0]), rest) == HeaderAfter(Edit(Edit(h, ops[0]), rest[0]), rest[1..]);
  }

  lemma {:induction false} HeaderAfterConcat(h: Header, a: seq<Op>, b: seq<Op>)
    ensures HeaderAfter(h, a + b) == HeaderAfter(HeaderAfter(h, a), b)
    decreases |a|
  {
    if a == [] {
      assert a + b == b;
    } else {
      HeaderAfterConcat(Edit(h, a[0]), a[1..], b);
      assert (a + b)[1..] == a[1..] + b;
    }
  }

  lemma JsonHeader(h: Header, extra: seq<Op>, code: int, body: string)
    ensures HeaderAfter(h, (extra + WriteJson(code, body))[..|extra| + 2])
      == HeaderAfter(h, extra)[CONTENT_TYPE := JSON_TYPE][CACHE_CONTROL := NO_STORE]
  {
    var two := WriteJson(code, body)[..2];
    assert (extra + WriteJson(code, body))[..|extra| + 2] == extra + two;
    HeaderAfterConcat(h, extra, two);
    HeaderOfTwo(HeaderAfter(h, extra), two);
  }

  lemma {:induction false} WrittenLast(ops: seq<Op>, body: string)
    requires |ops| >= 1 && ops[|ops| - 1] == Write(body)
    requires forall j | 0 <= j < |ops| - 1 :: !ops[j].Write?
    ensures Written(ops) == body
  {
    if |ops| == 1 {
      assert ops[1..] == [] && body + "" == body;
    } else {
      WrittenLast(ops[1..], body);
    }
  }

  /** One JSON answer after at most one extra header. */
  lemma JsonAnswered(id: string, extra: seq<Op>, code: int, body: string, errorBody: string)
    requires extra == [] || extra == [SetHeader("Allow", "GET")]
    requires FinalCode(code) && BodyAllowed(code)
    ensures var x := Serve(id, Script(extra + WriteJson(code, body), false), errorBody);
      && x.head.status == code && x.body == body && x.records == [Completed(id, code)] && x.interim == []
      && x.head.header ==
           HeaderAfter(map[REQUEST_ID := id], extra)[CONTENT_TYPE := JSON_TYPE][CACHE_CONTROL := NO_STORE]
  {
    var json := WriteJson(code, body);
    var ops := extra + json;
    var k := |extra| + 2;
    assert ops[k] == WriteHeader(code, false) && forall j | 0 <= j < k :: !Decisive(ops[j]);
    assert FirstDecisive(ops) == k;
    ServeMeans(id, Script(ops, false), errorBody);
    JsonHeader(map[REQUEST_ID := id], extra, code, body);
    WrittenLast(ops, body);
    assert body + "" == body;
  }

  lemma AnswerServed(requestMethod: string, path: string, id: string, version: string, status: SystemStatus.Payload,
                     encode: Payload -> string, errorBody: string)
    ensures var x := Serve(id, Route(requestMethod, path, id, version, status, encode), errorBody);
      var (code, payload) := Answer(requestMethod, path, id, version, status);
      && x.head.status == code && x.body == encode(payload) && x.records == [Completed(id, code)] && x.interim == []
      && x.head.header == map[REQUEST_ID := id, CONTENT_TYPE := JSON_TYPE, CACHE_CONTROL := NO_STORE]
           + if code == 405 then map["Allow" := "GET"] else map[]
  {
    var (code, payload) := Answer(requestMethod, path, id, version, status);
    var h := map[REQUEST_ID := id];
    if code == 405 {
      JsonAnswered(id, [SetHeader("Allow", "GET")], code, encode(payload), errorBody);
    } else {
      assert Route(requestMethod, path, id, version, status, encode).ops == [] + WriteJson(code, encode(payload));
      JsonAnswered(id, [], code, encode(payload), errorBody);
    }
  }

  /** The response to a route: status, JSON body, headers, and one log record with that same status. */
  predicate Answered(x: Exchange, id: string, code: int, body: string, allow: bool) {
    && x.head.status == code && x.body == body && x.records == [Completed(id, code)] && x.interim == []
    && x.head.header == map["X-Request-Id" := id, "Content-Type" := "application/json; charset=utf-8",
                            "Cache-Control" := "no-store"] + if allow then map["Allow" := "GET"] else map[]
  }

  /** What the public contract promises for a request by its route and method, with the payloads written out. */
  predicate RouteContract(x: Exchange, requestMethod: string, path: string, id: string, version: string,
                          status: SystemStatus.Payload, encode: Payload -> string)
  {
    && (requestMethod == "GET" && path == "/healthz" ==>
          Answered(x, id, 200, encode(Health("search-api", "healthy", version)), false))
    && (requestMethod == "GET" && path == "/readyz" ==>
          Answered(x, id, 200, encode(Health("search-api", "ready", version)), false))
    && (requestMethod == "GET" && path == "/v1/system/status" ==>
          Answered(x, id, 200, encode(Status(status)), false))
    && (requestMethod != "GET" && path in {"/healthz", "/readyz", "/v1/system/status"} ==>
          Answered(x, id, 405,
                   encode(ApiError("method_not_allowed",
                                   "method " + requestMethod + " is not allowed for this resource", id)), true))
    && (path !in {"/healthz", "/readyz", "/v1/system/status"} ==>
          Answered(x, id, 404, encode(ApiError("not_found", "the requested resource was not found", id)), false))
  }

  /**
   Every request to the real handlers is answered with its route's status and payload, under the request's
   identifier, never cached, and logged once with that same status.
   */
  lemma EveryRequestAnswered(requestMethod: string, path: string, id: string, version: string,
                             status: SystemStatus.Payload, encode: Payload -> string, errorBody: string)
    ensures var x := Serve(id, Route(requestMethod, path, id, version, status, encode), errorBody);
      RouteContract(x, requestMethod, path, id, version, status, encode)
  {
    AnswerServed(requestMethod, path, id, version, status, encode, errorBody);
    assert |"/healthz"| == 8 && |"/readyz"| == 7 && |"/v1/system/status"| == 17;
  }
}
