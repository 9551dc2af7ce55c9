/**
 `run`: a listener goroutine, a one-slot channel, a cancellation signal, a shutdown deadline and two
 selects, as a transition system over every interleaving.
 */
module Shutdown {
  import opened Wrappers
  import opened GoErrors

  /** What `ListenAndServe` and `Shutdown` return: nil, or an error. */
  type Verdict = Option<Error>

  datatype Listener = Serving | Stopped(verdict: Verdict) | Delivered(verdict: Verdict)

  /** Where `run` is: in its first select, in `Shutdown`, in its second select, or back at its caller. */
  datatype Point = AwaitExit | InShutdown | AwaitDrain | Returned(result: Option<Error>)

  datatype System = System(
    point: Point,
    listener: Listener,
    channel: Option<Verdict>,
    cancelled: bool,
    deadlineArmed: bool,
    deadlinePassed: bool,
    shutdownCalls: nat)

  const START := System(AwaitExit, Serving, None, false, false, false, 0)

  /** `err == nil || errors.Is(err, http.ErrServerClosed)`. */
  predicate CleanExit(v: Verdict) {
    v.None? || Is(v.value, ServerClosed)
  }

  /** The result of either select's receive. */
  function ExitResult(v: Verdict): Option<Error> {
    if CleanExit(v) then None else Some(Wrap(v.value))
  }

  const DEADLINE_ERROR := Wrap(Error(DeadlineExceeded, {}, Some(true), []))

  /** One atomic step of the listener goroutine, of the world around it, or of `run` itself. */
  datatype Event =
    | ListenReturns(verdict: Verdict)
    | ListenerSends
    | Cancel
    | DeadlinePasses
    | ReceiveFirst
    | SeeCancellation
    | ShutdownReturns(verdict: Verdict)
    | ReceiveSecond
    | SeeDeadline

  predicate Enabled(s: System, e: Event) {
    match e
    case ListenReturns(_) => s.listener.Serving?
    case ListenerSends => s.listener.Stopped? && s.channel.None?
    case Cancel => !s.cancelled
    case DeadlinePasses => s.deadlineArmed && !s.deadlinePassed
    case ReceiveFirst => s.point.AwaitExit? && s.channel.Some?
    case SeeCancellation => s.point.AwaitExit? && s.cancelled
    case ShutdownReturns(_) => s.point.InShutdown?
    case ReceiveSecond => s.point.AwaitDrain? && s.channel.Some?
    case SeeDeadline => s.point.AwaitDrain? && s.deadlinePassed
  }

  function Next(s: System, e: Event): System
    requires Enabled(s, e)
  {
    match e
    case ListenReturns(v) => s.(listener := Stopped(v))
    case ListenerSends => s.(listener := Delivered(s.listener.verdict), channel := Some(s.listener.verdict))
    case Cancel => s.(cancelled := true)
    case DeadlinePasses => s.(deadlinePassed := true)
    case ReceiveFirst => s.(point := Returned(ExitResult(s.channel.value)), channel := None)
    case SeeCancellation => s.(point := InShutdown, deadlineArmed := true, shutdownCalls := s.shutdownCalls + 1)
    case ShutdownReturns(v) =>
      if v.Some? then s.(point := Returned(Some(Wrap(v.value)))) else s.(point := AwaitDrain)
    case ReceiveSecond => s.(point := Returned(ExitResult(s.channel.value)), channel := None)
    case SeeDeadline => s.(point := Returned(Some(DEADLINE_ERROR)))
  }

  /** The events can happen in this order from `s`. */
  predicate Possible(s: System, run: seq<Event>)
    decreases |run|
  {
    run == [] || (Enabled(s, run[0]) && Possible(Next(s, run[0]), run[1..]))
  }

  function After(s: System, run: seq<Event>): System
    requires Possible(s, run)
    decreases |run|
  {
    if run == [] then s else After(Next(s, run[0]), run[1..])
  }

  // ---------------------------------------------------------------------------------------------
  // Safety
  // ---------------------------------------------------------------------------------------------

  /** The listener's verdict has been taken out of the channel. */
  predicate Taken(s: System) {
    s.listener.Delivered? && s.channel.None?
  }

  ghost predicate Invariant(s: System) {
    && (s.channel.Some? ==> s.listener == Delivered(s.channel.value))
    && (Taken(s) ==> s.point == Returned(ExitResult(s.listener.verdict)))
    && s.shutdownCalls == (if s.deadlineArmed then 1 else 0)
    && (s.deadlineArmed ==> s.cancelled)
    && (s.deadlinePassed ==> s.deadlineArmed)
    && (s.point.AwaitExit? ==> !s.deadlineArmed)
    && (s.point.InShutdown? || s.point.AwaitDrain? ==> s.deadlineArmed)
    && (s.point == Returned(None) ==> s.listener.Delivered? && CleanExit(s.listener.verdict))
    && (s.point.Returned? && s.point.result.Some? && !s.deadlineArmed ==>
          && s.listener.Delivered? && !CleanExit(s.listener.verdict)
          && s.point.result == Some(Wrap(s.listener.verdict.value)))
  }

  lemma InvariantStep(s: System, e: Event)
    requires Invariant(s) && Enabled(s, e)
    ensures Invariant(Next(s, e))
  {
  }

  lemma {:induction false} InvariantRun(s: System, run: seq<Event>)
    requires Invariant(s) && Possible(s, run)
    ensures Invariant(After(s, run))
    decreases |run|
  {
    if run != [] {
      InvariantStep(s, run[0]);
      InvariantRun(Next(s, run[0]), run[1..]);
    }
  }

  /**
   In every interleaving: success means the listener really ended with nil or with an error that is
   `ErrServerClosed`, so a genuine listen failure is never reported as success; `Shutdown` runs at most once,
   and only after cancellation; and the goroutine finds the channel empty whenever it comes to send, before
   and after `run` has returned.
   */
  lemma RunIsSafe(run: seq<Event>)
    requires Possible(START, run)
    ensures var s := After(START, run);
      && (s.point == Returned(None) ==>
            s.listener.Delivered? && (s.listener.verdict.None? || Is(s.listener.verdict.value, ServerClosed)))
      && s.shutdownCalls <= 1 && (s.shutdownCalls == 1 ==> s.cancelled)
      && (s.listener.Stopped? ==> Enabled(s, ListenerSends))
  {
    InvariantRun(START, run);
  }

  /**
   What the caller is told of a listener that ended this way: nothing after nil or an error that is
   `ErrServerClosed`, otherwise an error in which every other error is still found as before.
   */
  ghost predicate Reports(result: Option<Error>, verdict: Verdict) {
    && (result.None? <==> verdict.None? || Is(verdict.value, ServerClosed))
    && (result.Some? ==>
          && (forall target | target != Other(0) :: Is(result.value, target) <==> Is(verdict.value, target))
          && AsNetError(result.value) == AsNetError(verdict.value))
  }

  lemma ExitResultReports(verdict: Verdict)
    ensures Reports(ExitResult(verdict), verdict)
  {
    if verdict.Some? {
      forall target | target != Other(0) ensures Is(Wrap(verdict.value), target) <==> Is(verdict.value, target) {
        WrapIsTransparent(verdict.value, target);
      }
      WrapIsTransparent(verdict.value, ServerClosed);
    }
  }

  /** Without cancellation the caller gets the listener's own verdict, wrapped so that it is still found. */
  lemma UncancelledResult(run: seq<Event>)
    requires Possible(START, run)
    requires var s := After(START, run); !s.cancelled && s.point.Returned?
    ensures var s := After(START, run);
      s.listener.Delivered? && Reports(s.point.result, s.listener.verdict)
  {
    InvariantRun(START, run);
    ExitResultReports(After(START, run).listener.verdict);
  }

  // ---------------------------------------------------------------------------------------------
  // Where a result comes from
  // ---------------------------------------------------------------------------------------------

  /** The event by which `run` returns. */
  predicate Returns(e: Event) {
    e.ReceiveFirst? || e.ReceiveSecond? || e.SeeDeadline? || (e.ShutdownReturns? && e.verdict.Some?)
  }

  /** One of the selects receives from the channel. */
  predicate Receives(e: Event) {
    e.ReceiveFirst? || e.ReceiveSecond?
  }

  lemma {:induction false} ReturnedStays(s: System, run: seq<Event>)
    requires s.point.Returned? && Possible(s, run)
    ensures After(s, run).point == s.point
    ensures forall i | 0 <= i < |run| :: !Returns(run[i])
    decreases |run|
  {
    if run != [] {
      ReturnedStays(Next(s, run[0]), run[1..]);
      assert forall i | 1 <= i < |run| :: run[i] == run[1..][i - 1];
    }
  }

  /** `run` returns once, and a `Shutdown` error or the deadline is reported as just that. */
  lemma {:induction false} ResultExplained(s: System, run: seq<Event>) returns (k: nat)
    requires !s.point.Returned? && Possible(s, run) && After(s, run).point.Returned?
    ensures k < |run| && Returns(run[k]) && forall i | 0 <= i < |run| && i != k :: !Returns(run[i])
    ensures Possible(s, run[..k]) && Enabled(After(s, run[..k]), run[k])
    ensures var before, result := After(s, run[..k]), After(s, run).point.result;
      match run[k]
      case ShutdownReturns(v) => result == Some(Wrap(v.value))
      case SeeDeadline => before.deadlinePassed && result == Some(DEADLINE_ERROR)
      case _ =>
        && before.channel.Some? && result == ExitResult(before.channel.value)
        && Reports(result, before.channel.value)
    decreases |run|
  {
    var next := Next(s, run[0]);
    if next.point.Returned? {
      k := 0;
      ReturnedStays(next, run[1..]);
      assert forall i | 1 <= i < |run| :: run[i] == run[1..][i - 1];
      assert run[..0] == [];
      if Receives(run[0]) { ExitResultReports(s.channel.value); }
    } else {
      var j := ResultExplained(next, run[1..]);
      k := j + 1;
      assert forall i | 1 <= i < |run| :: run[i] == run[1..][i - 1];
      assert run[..k][0] == run[0] && run[..k][1..] == run[1..][..j];
    }
  }

  lemma DeadlineErrorIs()
    ensures Is(DEADLINE_ERROR, DeadlineExceeded) && !Is(DEADLINE_ERROR, ServerClosed)
  {
    var cause := Error(DeadlineExceeded, {}, Some(true), []);
    WrapIsTransparent(cause, DeadlineExceeded);
    WrapIsTransparent(cause, ServerClosed);
    assert !IsAny([], ServerClosed);
  }

  /**
   Nothing happens without its cause: the second select is only reached through a `Shutdown` that returned nil,
   `Shutdown` only through cancellation seen, and that only through a cancellation.
   */
  lemma {:induction false} CausesPrecede(s: System, run: seq<Event>)
    requires Possible(s, run)
    ensures After(s, run).point.AwaitDrain? || ReceiveSecond in run || SeeDeadline in run ==>
      s.point.AwaitDrain? || ShutdownReturns(None) in run
    ensures (exists v :: ShutdownReturns(v) in run) ==> s.point.InShutdown? || SeeCancellation in run
    ensures SeeCancellation in run ==> s.cancelled || Cancel in run
    ensures After(s, run).shutdownCalls == s.shutdownCalls + if SeeCancellation in run then 1 else 0
    ensures !s.point.AwaitExit? ==> SeeCancellation !in run
    decreases |run|
  {
    if run != [] {
      CausesPrecede(Next(s, run[0]), run[1..]);
      assert run == [run[0]] + run[1..];
    }
  }

  predicate HasReceive(run: seq<Event>) {
    exists i | 0 <= i < |run| :: Receives(run[i])
  }

  lemma {:induction false} TakenByReceive(s: System, run: seq<Event>)
    requires Invariant(s) && Possible(s, run)
    ensures Taken(After(s, run)) <==> Taken(s) || HasReceive(run)
    decreases |run|
  {
    if run != [] {
      var next := Next(s, run[0]);
      InvariantStep(s, run[0]);
      TakenByReceive(next, run[1..]);
      assert Taken(next) <==> Taken(s) || Receives(run[0]);
      assert forall i | 1 <= i < |run| :: run[i] == run[1..][i - 1];
      if i :| 0 <= i < |run[1..]| && Receives(run[1..][i]) { assert Receives(run[i + 1]); }
    }
  }

  /**
   When the listener's verdict is what `run` reports. Exactly when one of the selects received it, it has been
   taken out of the channel, and the result is its result. Otherwise `run` returned on a failed `Shutdown` or on
   the deadline, and reports that alone, whatever the verdict is.
   */
  lemma VerdictReportedIff(run: seq<Event>)
    requires Possible(START, run) && After(START, run).point.Returned?
    ensures var s := After(START, run);
      && (Taken(s) <==> HasReceive(run))
      && (Taken(s) ==> Reports(s.point.result, s.listener.verdict))
      && (!Taken(s) <==> exists k | 0 <= k < |run| :: Returns(run[k]) && !Receives(run[k]))
      && (!Taken(s) ==>
            || (exists e :: ShutdownReturns(Some(e)) in run && s.point.result == Some(Wrap(e)))
            || (SeeDeadline in run && s.point.result.Some? && Is(s.point.result.value, DeadlineExceeded)))
  {
    InvariantRun(START, run);
    if Taken(After(START, run)) { ExitResultReports(After(START, run).listener.verdict); }
    DeadlineErrorIs();
    TakenByReceive(START, run);
    var k := ResultExplained(START, run);
    assert Receives(run[k]) ==> HasReceive(run);
    match run[k] {
      case ShutdownReturns(v) => assert ShutdownReturns(Some(v.value)) in run;
      case SeeDeadline => assert SeeDeadline in run;
      case _ =>
    }
  }

  // ---------------------------------------------------------------------------------------------
  // Termination
  // ---------------------------------------------------------------------------------------------

  /** How many events can still happen: every event uses up something that never comes back. */
  function Remaining(s: System): nat {
    (match s.listener case Serving => 2 case Stopped(_) => 1 case Delivered(_) => 0)
    + (if s.cancelled then 0 else 1)
    + (if s.deadlinePassed then 0 else 1)
    + (match s.point case AwaitExit => 3 case InShutdown => 2 case AwaitDrain => 1 case Returned(_) => 0)
  }

  lemma {:induction false} RunsAreBounded(s: System, run: seq<Event>)
    requires Possible(s, run)
    ensures |run| + Remaining(After(s, run)) <= Remaining(s)
    decreases |run|
  {
    if run != [] { RunsAreBounded(Next(s, run[0]), run[1..]); }
  }

  /** An event that needs nobody's goodwill: a step of `run`, of the goroutine, or the passing of the deadline. */
  predicate Inevitable(e: Event) {
    !e.ListenReturns? && !e.Cancel? && !e.ShutdownReturns?
  }

  /** `Shutdown` honours its context: it returns at the latest once the deadline has passed. */
  predicate ShutdownDue(s: System, e: Event) {
    e.ShutdownReturns? && s.deadlinePassed
  }

  /**
   After cancellation no reachable state is stuck: as long as `run` has not returned, an inevitable event
   is possible, or `Shutdown` is due. With the bound on run lengths this means every run in which such
   events are not put off for ever comes to a return.
   */
  lemma CancelledRunProgresses(run: seq<Event>) returns (e: Event)
    requires Possible(START, run)
    requires After(START, run).cancelled && !After(START, run).point.Returned?
    ensures var s := After(START, run);
      && Enabled(s, e) && (Inevitable(e) || ShutdownDue(s, e))
      && Remaining(Next(s, e)) < Remaining(s)
  {
    InvariantRun(START, run);
    var s := After(START, run);
    e := if s.point.AwaitExit? then SeeCancellation
         else if !s.deadlinePassed then DeadlinePasses
         else if s.point.InShutdown? then ShutdownReturns(None)
         else SeeDeadline;
  }

  /** A run that was cancelled and in which nothing inevitable or due is left to happen has returned. */
  lemma CompleteCancelledRunReturned(run: seq<Event>)
    requires Possible(START, run) && After(START, run).cancelled
    requires forall e :: Enabled(After(START, run), e) ==> !Inevitable(e) && !ShutdownDue(After(START, run), e)
    ensures After(START, run).point.Returned?
  {
    if !After(START, run).point.Returned? {
      var e := CancelledRunProgresses(run);
    }
  }

  /** A step of `run` itself. */
  predicate OfRun(e: Event) {
    !e.ListenReturns? && !e.ListenerSends? && !e.Cancel? && !e.DeadlinePasses?
  }

  function OwnSteps(run: seq<Event>): nat {
    if run == [] then 0 else (if OfRun(run[0]) then 1 else 0) + OwnSteps(run[1..])
  }

  lemma {:induction false} OwnStepsOfOne(run: seq<Event>, j: nat)
    requires j < |run| && OfRun(run[j])
    ensures OwnSteps(run) >= 1
  {
    if j > 0 { OwnStepsOfOne(run[1..], j - 1); }
  }

  lemma {:induction false} OwnStepsOfTwo(run: seq<Event>, i: nat, j: nat)
    requires i < j < |run| && OfRun(run[i]) && OfRun(run[j])
    ensures OwnSteps(run) >= 2
  {
    if i > 0 { OwnStepsOfTwo(run[1..], i - 1, j - 1); } else { OwnStepsOfOne(run[1..], j - 1); }
  }

  lemma {:induction false} OwnStepsCount(s: System, run: seq<Event>)
    requires Possible(s, run) && !s.point.AwaitExit?
    ensures After(s, run).point.Returned? || (OwnSteps(run) <= 1 && (s.point.AwaitDrain? ==> OwnSteps(run) == 0))
    ensures s.point.Returned? ==> After(s, run).point.Returned?
    decreases |run|
  {
    if run != [] { OwnStepsCount(Next(s, run[0]), run[1..]); }
  }

  /**
   No event outlives the deadline: from any reachable state after it, the only events that keep `run` from
   returning are `Shutdown`'s own return and one step of the second select.
   */
  lemma ReturnsByDeadline(run: seq<Event>, later: seq<Event>)
    requires Possible(START, run) && After(START, run).deadlinePassed
    requires Possible(After(START, run), later)
    requires exists i, j :: 0 <= i < j < |later| && OfRun(later[i]) && OfRun(later[j])
    ensures After(After(START, run), later).point.Returned?
  {
    InvariantRun(START, run);
    var i, j :| 0 <= i < j < |later| && OfRun(later[i]) && OfRun(later[j]);
    OwnStepsCount(After(START, run), later);
    OwnStepsOfTwo(later, i, j);
  }

  // ---------------------------------------------------------------------------------------------
  // Races the design allows
  // ---------------------------------------------------------------------------------------------

  lemma RunCons(s: System, e: Event, rest: seq<Event>)
    requires Enabled(s, e) && Possible(Next(s, e), rest)
    ensures Possible(s, [e] + rest) && After(s, [e] + rest) == After(Next(s, e), rest)
  {
    assert ([e] + rest)[1..] == rest;
  }

  /** The listener ends, and cancellation is seen first: its verdict waits in the channel during `Shutdown`. */
  function Racing(verdict: Verdict): System {
    System(InShutdown, Delivered(verdict), Some(verdict), true, true, false, 1)
  }

  function RaceThen(verdict: Verdict, rest: seq<Event>): seq<Event> {
    [ListenReturns(verdict)] + ([ListenerSends] + ([Cancel] + ([SeeCancellation] + rest)))
  }

  lemma RaceReached(verdict: Verdict, rest: seq<Event>)
    requires Possible(Racing(verdict), rest)
    ensures Possible(START, RaceThen(verdict, rest))
    ensures After(START, RaceThen(verdict, rest)) == After(Racing(verdict), rest)
  {
    var s1 := Next(START, ListenReturns(verdict));
    var s2 := Next(s1, ListenerSends);
    var s3 := Next(s2, Cancel);
    RunCons(s3, SeeCancellation, rest);
    RunCons(s2, Cancel, [SeeCancellation] + rest);
    RunCons(s1, ListenerSends, [Cancel] + ([SeeCancellation] + rest));
    RunCons(START, ListenReturns(verdict), [ListenerSends] + ([Cancel] + ([SeeCancellation] + rest)));
  }

  /** A possible run in which `run` returns this result and leaves this in the channel. */
  predicate MayEnd(run: seq<Event>, result: Option<Error>, left: Option<Verdict>) {
    Possible(START, run) && After(START, run).point == Returned(result) && After(START, run).channel == left
  }

  /** Any verdict of the listener is lost when it races with cancellation and `Shutdown` fails. */
  lemma RacingFailureMayBeHidden(verdict: Verdict, shutdownError: Error)
    ensures exists run :: MayEnd(run, Some(Wrap(shutdownError)), Some(verdict))
  {
    var e := ShutdownReturns(Some(shutdownError));
    RunCons(Racing(verdict), e, []);
    RaceReached(verdict, [e] + []);
    assert MayEnd(RaceThen(verdict, [e] + []), Some(Wrap(shutdownError)), Some(verdict));
  }

  /**
   Any verdict, that of a clean exit included, is also lost when `Shutdown` succeeds but the deadline passes:
   with both branches of the second select ready, a server that has stopped may be reported as one that did not.
   */
  lemma CleanExitMayBeReportedAsDeadline(verdict: Verdict)
    ensures exists run :: MayEnd(run, Some(DEADLINE_ERROR), Some(verdict))
  {
    var s1 := Next(Racing(verdict), ShutdownReturns(None));
    var s2 := Next(s1, DeadlinePasses);
    RunCons(s2, SeeDeadline, []);
    RunCons(s1, DeadlinePasses, [SeeDeadline] + []);
    RunCons(Racing(verdict), ShutdownReturns(None), [DeadlinePasses] + ([SeeDeadline] + []));
    var rest := [ShutdownReturns(None)] + ([DeadlinePasses] + ([SeeDeadline] + []));
    RaceReached(verdict, rest);
    assert MayEnd(RaceThen(verdict, rest), Some(DEADLINE_ERROR), Some(verdict));
  }
}
