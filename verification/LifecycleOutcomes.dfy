/**
 What the events of a run decide: how an `init` ends by what its connection and its hook
 did, how a shutdown ends by its teardown, and which adapter starts end well.
 */
module LifecycleOutcomes {
  import opened Lifecycle

  // ---------------------------------------------------------------- how an init ends

  /** What the awaited operations of the latest body of `init` have done so far. */
  function InitTrace(s: State, events: seq<Event>, soFar: seq<bool>): seq<bool>
    decreases |events|
  {
    if events == [] || !Enabled(s, events[0]) then soFar
    else InitTrace(Next(s, events[0]), events[1..], InitNoted(s, events[0], soFar))
  }

  function InitNoted(s: State, e: Event, soFar: seq<bool>): seq<bool>
    requires Enabled(s, e)
  {
    if Next(s, e).begun != s.begun then [] else if e.InitMoves? then soFar + [e.ok] else soFar
  }

  /** Connect first, then the configured hook; after a failure the rollback, hook and all if it was begun. */
  ghost predicate TraceFits(s: State, trace: seq<bool>) {
    && (s.begun == 0 ==> trace == [] && s.init.NoInit? && s.succeeded == {})
    && (s.begun > 0 ==>
          match s.init
          case Connecting => trace == []
          case ConfigHook => trace == [true]
          case RollbackHook => trace == [true, false]
          case RollbackDatabase => trace == [false] || (|trace| == 3 && trace[..2] == [true, false])
          case NoInit => s.begun in s.succeeded <==> trace == [true, true] && s.begun !in s.interrupted)
  }

  lemma InitMovesKeepTrace(s: State, e: Event, trace: seq<bool>)
    requires Inv(s) && TraceFits(s, trace) && Enabled(s, e) && e.InitMoves?
    ensures TraceFits(Next(s, e), InitNoted(s, e, trace))
  {
    var longer := trace + [e.ok];
    assert longer[|trace|] == e.ok && longer[..|trace|] == trace;
    assert trace != [] ==> longer[0] == trace[0];
  }

  /** Steps of shutdowns and of calls leave a body of `init` alone, or begin a new one. */
  lemma InitIsUntouched(s: State, t: State, trace: seq<bool>)
    requires TraceFits(s, trace)
    requires t.begun == s.begun && t.init == s.init && t.succeeded == s.succeeded
    requires s.init.NoInit? ==> t.interrupted == s.interrupted
    ensures TraceFits(t, trace)
  {
  }

  lemma ShutdownLeavesInit(s: State)
    ensures
      var t := CallShutdown(s).0;
      && t.begun == s.begun && t.init == s.init && t.succeeded == s.succeeded
      && (s.init.NoInit? ==> t.interrupted == s.interrupted)
  {
  }

  lemma NewCallsKeepTrace(s: State, kind: Kind, trace: seq<bool>)
    requires Inv(s) && TraceFits(s, trace)
    ensures TraceFits(Begin(s, kind), InitNoted(s, NewCall(kind), trace))
  {
    ShutdownLeavesInit(s);
    if Begin(s, kind).begun == s.begun {
      InitIsUntouched(s, Begin(s, kind), trace);
    }
  }

  lemma TeardownKeepsTrace(s: State, ok: bool, open: bool, trace: seq<bool>)
    requires TraceFits(s, trace) && DownEnabled(s)
    ensures TraceFits(DownStep(s, ok, open), InitNoted(s, DownMoves(ok, open), trace))
  {
    InitIsUntouched(s, DownStep(s, ok, open), trace);
  }

  lemma CallsLeaveInit(s: State, i: nat, ok: bool)
    requires CallEnabled(s, i)
    ensures
      var t := CallStep(s, i, ok);
      && t.begun == s.begun && t.init == s.init && t.succeeded == s.succeeded
      && (s.init.NoInit? ==> t.interrupted == s.interrupted)
  {
    ShutdownLeavesInit(s);
  }

  lemma CallsKeepTrace(s: State, i: nat, ok: bool, trace: seq<bool>)
    requires TraceFits(s, trace) && CallEnabled(s, i)
    ensures TraceFits(CallStep(s, i, ok), InitNoted(s, CallMoves(i, ok), trace))
  {
    CallsLeaveInit(s, i, ok);
    InitIsUntouched(s, CallStep(s, i, ok), trace);
  }

  lemma {:induction false} RunKeepsTrace(s: State, events: seq<Event>, t: State, trace: seq<bool>)
    requires Inv(s) && TraceFits(s, trace) && Runs(s, events, t)
    ensures TraceFits(t, InitTrace(s, events, trace)) && Inv(t)
    decreases |events|
  {
    if events != [] {
      var e := events[0];
      StepKeepsInv(s, e);
      match e {
        case InitMoves(_, _) => InitMovesKeepTrace(s, e, trace);
        case NewCall(kind) => NewCallsKeepTrace(s, kind, trace);
        case DownMoves(ok, open) => TeardownKeepsTrace(s, ok, open, trace);
        case CallMoves(i, ok) => CallsKeepTrace(s, i, ok, trace);
      }
      RunKeepsTrace(Next(s, e), events[1..], t, InitNoted(s, e, trace));
    }
  }

  /**
   In every run, once the latest body of `init` has ended, it made the runtime ready exactly
   when the connection and then the configured hook did well and no shutdown began meanwhile;
   and a ready runtime is one it made ready.
   */
  lemma InitSucceedsIffAllWent(disconnects: bool, events: seq<Event>, t: State)
    requires Runs(Created(disconnects), events, t)
    ensures t.init.NoInit? && t.begun > 0 ==>
              (t.begun in t.succeeded
               <==> InitTrace(Created(disconnects), events, []) == [true, true] && t.begun !in t.interrupted)
    ensures t.life.Ready? ==> InitTrace(Created(disconnects), events, []) == [true, true]
  {
    CreatedFits(disconnects);
    RunKeepsTrace(Created(disconnects), events, t, []);
  }

  /** A body of `init` that ends: ready or failed, or left to the shutdown; and everybody who awaits it is told. */
  lemma InitEndsFor(s: State, ok: bool, open: bool)
    requires Inv(s) && !s.init.NoInit? && InitStep(s, ok, open).init.NoInit?
    ensures
      var t, ready := InitStep(s, ok, open), s.init.ConfigHook? && ok && !s.life.Stopping?;
      && t.life == (if s.life.Stopping? then Stopping else if ready then Ready else Failed)
      && t.succeeded == (if ready then s.succeeded + {s.begun} else s.succeeded)
      && |t.calls| == |s.calls|
      && forall i :: 0 <= i < |s.calls| ==>
           t.calls[i] == if s.calls[i].stage.AwaitInit? then Call(s.calls[i].kind, InitReturned(ready)) else s.calls[i]
  {
  }

  /** From its first step on: an uninterrupted `init` goes on exactly as its operations do. */
  lemma InitGoesOn(s: State, ok: bool, open: bool)
    requires Inv(s) && s.life.Initializing?
    ensures
      var t := InitStep(s, ok, open);
      match s.init
      case Connecting => t.life == s.life && (if ok then t.init.ConfigHook? && t.open else t.init.RollbackDatabase?)
      case ConfigHook => if ok then t.life.Ready? && t.init.NoInit? else t.life == s.life && t.init.RollbackHook?
      case RollbackHook => t.life == s.life && t.init.RollbackDatabase?
      case _ => t.life.Failed? && t.init.NoInit? && (ok ==> !t.open)
  {
  }

  /**
   What a call gets from `init`: success of a ready runtime, a refusal exactly while or after
   a shutdown, and otherwise the promise of the one body there is, begun now if none was.
   */
  lemma InitIsAnswered(s: State, kind: Kind)
    requires Inv(s) && (kind.InitCall? || kind.AdapterStart?)
    ensures
      var t, n := Begin(s, kind), |s.calls|;
      && |t.calls| == n + 1 && t.calls[..n] == s.calls && t.calls[n].kind == kind
      && (t.calls[n].stage == InitReturned(true) <==> s.life.Ready?)
      && (t.calls[n].stage == InitReturned(false) <==> IsTerminalShutdown(s))
      && (t.calls[n].stage.AwaitInit? <==> !s.life.Ready? && !IsTerminalShutdown(s))
      && (t.calls[n].stage.AwaitInit? ==> t.life.Initializing? && !t.init.NoInit?)
      && t.begun == s.begun + if t.calls[n].stage.AwaitInit? && !s.life.Initializing? then 1 else 0
  {
  }

  // ---------------------------------------------------------------- how a shutdown ends

  /** What the configured hook and the database did in the teardown of the latest shutdown. */
  function DownTrace(s: State, events: seq<Event>, soFar: seq<bool>): seq<bool>
    decreases |events|
  {
    if events == [] || !Enabled(s, events[0]) then soFar
    else DownTrace(Next(s, events[0]), events[1..], DownNoted(s, events[0], soFar))
  }

  function DownNoted(s: State, e: Event, soFar: seq<bool>): seq<bool>
    requires Enabled(s, e)
  {
    if s.down.NoDown? && !Next(s, e).down.NoDown? then []
    else if e.DownMoves? && (s.down.TeardownHook? || s.down.TeardownDatabase?) then soFar + [e.ok]
    else soFar
  }

  ghost predicate DownFits(s: State, trace: seq<bool>) {
    match s.down
    case NoDown => s.life.Stopped? ==> trace == [true, true]
    case TeardownDatabase(failed) => trace == [!failed]
    case Finalizing => |trace| == 2 && s.life == if trace == [true, true] then Stopped else Failed
    case _ => trace == []
  }

  lemma StepKeepsDownTrace(s: State, e: Event, trace: seq<bool>)
    requires Inv(s) && DownFits(s, trace) && Enabled(s, e)
    ensures DownFits(Next(s, e), DownNoted(s, e, trace))
  {
    match e
    case DownMoves(_, _) => DownMovesKeepTrace(s, e, trace);
    case InitMoves(_, _) =>
    case NewCall(kind) => NewCallsKeepDown(s, kind, trace);
    case CallMoves(i, ok) => CallMovesKeepDown(s, i, ok, trace);
  }

  lemma DownMovesKeepTrace(s: State, e: Event, trace: seq<bool>)
    requires Inv(s) && DownFits(s, trace) && Enabled(s, e) && e.DownMoves?
    ensures DownFits(Next(s, e), DownNoted(s, e, trace))
  {
    var longer := trace + [e.ok];
    assert longer[|trace|] == e.ok && longer[..|trace|] == trace;
    assert trace != [] ==> longer[0] == trace[0];
  }

  lemma NewCallsKeepDown(s: State, kind: Kind, trace: seq<bool>)
    requires Inv(s) && DownFits(s, trace)
    ensures DownFits(Begin(s, kind), DownNoted(s, NewCall(kind), trace))
  {
  }

  lemma CallMovesKeepDown(s: State, i: nat, ok: bool, trace: seq<bool>)
    requires Inv(s) && DownFits(s, trace) && CallEnabled(s, i)
    ensures DownFits(CallStep(s, i, ok), DownNoted(s, CallMoves(i, ok), trace))
  {
  }

  lemma {:induction false} RunKeepsDownTrace(s: State, events: seq<Event>, t: State, trace: seq<bool>)
    requires Inv(s) && DownFits(s, trace) && Runs(s, events, t)
    ensures DownFits(t, DownTrace(s, events, trace)) && Inv(t)
    decreases |events|
  {
    if events != [] {
      StepKeepsInv(s, events[0]);
      StepKeepsDownTrace(s, events[0], trace);
      RunKeepsDownTrace(Next(s, events[0]), events[1..], t, DownNoted(s, events[0], trace));
    }
  }

  /**
   In every run, a teardown runs the configured hook once and then the database once; the
   shutdown ends stopped exactly when both did well, and failed otherwise.
   */
  lemma ShutdownStopsIffAllWent(disconnects: bool, events: seq<Event>, t: State)
    requires Runs(Created(disconnects), events, t)
    ensures
      var trace := DownTrace(Created(disconnects), events, []);
      && (t.down.Finalizing? ==> |trace| == 2 && t.life == if trace == [true, true] then Stopped else Failed)
      && (t.life.Stopped? ==> trace == [true, true])
  {
    CreatedFits(disconnects);
    RunKeepsDownTrace(Created(disconnects), events, t, []);
  }

  /**
   What a call gets from `shutdown`: nothing to wait for in a stopped runtime, and otherwise
   the promise of the one shutdown there is, begun now if none was.
   */
  lemma ShutdownIsAnswered(s: State)
    requires Inv(s)
    ensures
      var t, n := Begin(s, ShutdownCall), |s.calls|;
      && |t.calls| == n + 1 && t.calls[..n] == s.calls
      && t.calls[n] == Call(ShutdownCall, if s.life.Stopped? then ShutdownReturned else AwaitShutdown)
      && (s.life.Stopped? || !s.down.NoDown? ==> t.life == s.life && t.down == s.down)
      && (!s.life.Stopped? ==> !t.down.NoDown?)
      && (!s.life.Stopped? && s.down.NoDown? ==> t.life.Stopping? && (t.down.WaitInit? <==> s.life.Initializing?))
  {
  }

  /** A caller that has cleaned up shuts the runtime down, or joins whoever does. */
  lemma CleanupShutsDown(s: State, i: nat, ok: bool)
    requires Inv(s) && CallEnabled(s, i) && s.calls[i].stage.CallerCleanup?
    ensures
      var t := CallStep(s, i, ok);
      && t.calls[i].stage == (if s.life.Stopped? then ShutdownReturned else AwaitShutdown)
      && (!s.life.Stopped? ==> !t.down.NoDown?)
      && (!s.life.Stopped? && s.down.NoDown? ==> t.life.Stopping?)
  {
  }

  // ---------------------------------------------------------------- how a call ends

  predicate EndedWell(s: State, i: nat) {
    i < |s.calls| && s.calls[i] == Call(AdapterStart, Done(true))
  }

  /** Only the end of its own hook lets an adapter start end well. */
  lemma EndsWellByItsHook(s: State, e: Event, i: nat)
    requires Enabled(s, e) && EndedWell(Next(s, e), i) && !EndedWell(s, i)
    ensures e == CallMoves(i, true) && s.calls[i].stage.CallerHook? && !IsTerminalShutdown(s)
  {
    match e
    case NewCall(kind) => assert false by { BeginsUnended(s, kind, i); }
    case CallMoves(j, ok) =>
      if j != i {
        OtherCallsStay(s, j, ok, i);
      } else {
        CallEndsWellByItsHook(s, i, ok);
      }
    case InitMoves(ok, open) => assert false by { InitEndsNoCallWell(s, ok, open, i); }
    case DownMoves(ok, open) => assert false by { DownEndsNoCallWell(s, ok, open, i); }
  }

  lemma CallEndsWellByItsHook(s: State, i: nat, ok: bool)
    requires CallEnabled(s, i) && EndedWell(CallStep(s, i, ok), i)
    ensures ok && s.calls[i].stage.CallerHook? && !IsTerminalShutdown(s)
  {
  }

  lemma InitEndsNoCallWell(s: State, ok: bool, open: bool, i: nat)
    ensures EndedWell(InitStep(s, ok, open), i) ==> EndedWell(s, i)
  {
  }

  lemma DownEndsNoCallWell(s: State, ok: bool, open: bool, i: nat)
    requires DownEnabled(s)
    ensures EndedWell(DownStep(s, ok, open), i) ==> EndedWell(s, i)
  {
  }

  lemma BeginsUnended(s: State, kind: Kind, i: nat)
    ensures EndedWell(Begin(s, kind), i) <==> EndedWell(s, i)
  {
  }

  lemma OtherCallsStay(s: State, j: nat, ok: bool, i: nat)
    requires CallEnabled(s, j) && i != j && i < |s.calls|
    ensures |CallStep(s, j, ok).calls| == |s.calls| && CallStep(s, j, ok).calls[i] == s.calls[i]
  {
  }

  /** In every run, an adapter start that ended well was let on by its own init hook. */
  lemma {:induction false} StartEndsWellByItsHook(s: State, events: seq<Event>, t: State, i: nat)
    requires Runs(s, events, t) && EndedWell(t, i) && !EndedWell(s, i)
    ensures CallMoves(i, true) in events
    decreases |events|
  {
    if events != [] {
      var s1 := Next(s, events[0]);
      if EndedWell(s1, i) {
        EndsWellByItsHook(s, events[0], i);
      } else {
        StartEndsWellByItsHook(s1, events[1..], t, i);
      }
    }
  }

  /** `early` are starts that were pending when the composed shutdown `i` began; it has yet to see which remain. */
  ghost predicate WaitsForStarts(s: State, i: nat, early: set<nat>) {
    && i < |s.calls| && s.calls[i].kind.ComposedShutdown?
    && (forall k :: k in early ==> k < |s.calls|)
    && early * s.pending <= if s.calls[i].stage.WaitAdapters? then s.calls[i].stage.seen else {}
  }

  lemma OtherStepsKeepWaiting(s: State, e: Event, i: nat, early: set<nat>)
    requires WaitsForStarts(s, i, early) && Enabled(s, e) && (e.InitMoves? || e.DownMoves?)
    requires Inv(s)
    ensures WaitsForStarts(Next(s, e), i, early)
  {
    assert CallFits(s, s.calls[i]);
  }

  lemma NewCallsKeepWaiting(s: State, kind: Kind, i: nat, early: set<nat>)
    requires WaitsForStarts(s, i, early)
    ensures WaitsForStarts(Begin(s, kind), i, early)
  {
    assert Begin(s, kind).calls[i] == s.calls[i];
  }

  lemma CallsKeepWaiting(s: State, j: nat, ok: bool, i: nat, early: set<nat>)
    requires WaitsForStarts(s, i, early) && CallEnabled(s, j)
    ensures WaitsForStarts(CallStep(s, j, ok), i, early)
  {
    assert CallStep(s, j, ok).pending <= s.pending;
    if j != i {
      OtherCallsStay(s, j, ok, i);
    }
  }

  lemma {:induction false} RunKeepsWaiting(s: State, events: seq<Event>, t: State, i: nat, early: set<nat>)
    requires Inv(s) && WaitsForStarts(s, i, early) && Runs(s, events, t)
    ensures WaitsForStarts(t, i, early)
    decreases |events|
  {
    if events != [] {
      StepKeepsInv(s, events[0]);
      match events[0] {
        case NewCall(kind) => NewCallsKeepWaiting(s, kind, i, early);
        case CallMoves(j, ok) => CallsKeepWaiting(s, j, ok, i, early);
        case _ => OtherStepsKeepWaiting(s, events[0], i, early);
      }
      RunKeepsWaiting(Next(s, events[0]), events[1..], t, i, early);
    }
  }

  /**
   In every run from where a composed shutdown is called: once it no longer waits, none of the
   starts that were pending at the call is pending any more.
   */
  lemma ComposedShutdownWaits(s: State, events: seq<Event>, t: State)
    requires Inv(s) && Runs(Begin(s, ComposedShutdown), events, t)
    ensures |s.calls| < |t.calls|
    ensures !t.calls[|s.calls|].stage.WaitAdapters? ==> s.pending * t.pending == {}
  {
    StepKeepsInv(s, NewCall(ComposedShutdown));
    PendingAreCalls(s);
    RunKeepsWaiting(Begin(s, ComposedShutdown), events, t, |s.calls|, s.pending);
  }

  lemma PendingAreCalls(s: State)
    requires Inv(s)
    ensures forall k :: k in s.pending ==> k < |s.calls|
  {
  }

  /** An adapter start whose init has returned: refused, or on to the caller's hook, which decides. */
  lemma StartGoesOn(s: State, i: nat, ok: bool)
    requires Inv(s) && CallEnabled(s, i) && s.calls[i].kind.AdapterStart?
    ensures
      var t := CallStep(s, i, ok);
      match s.calls[i].stage
      case InitReturned(returned) =>
        if returned then t.calls[i].stage.CallerHook? && i in t.pending
        else t.calls[i].stage == Done(false) && i !in t.pending
      case CallerHook =>
        && i !in t.pending
        && t.calls[i].stage == if !ok then CallerCleanup else Done(s.life.Ready? && s.down.NoDown?)
      case ShutdownReturned => t.calls[i].stage == Done(false)
      case _ => true
  {
    assert CallFits(s, s.calls[i]);
  }

  /** The other calls end with what they awaited: `init` as it went, a shutdown once it is over. */
  lemma CallEnds(s: State, i: nat, ok: bool)
    requires CallEnabled(s, i) && !s.calls[i].kind.AdapterStart?
    ensures
      var t := CallStep(s, i, ok);
      match s.calls[i].stage
      case InitReturned(returned) => t.calls[i].stage == Done(returned)
      case ShutdownReturned => t.calls[i].stage == Done(true)
      case _ => true
  {
  }
}
