/**
 The lifecycle of a runtime: `init`, `shutdown` and the starts and stops of adapters
 run concurrently, with hooks that may fail. Each stretch of code between two awaits is
 one atomic step; any enabled step may come next.
 */
module Lifecycle {
  import opened Sequences

  datatype Life = Idle | Initializing | Ready | Stopping | Stopped | Failed

  /** Where the body of `init` awaits. */
  datatype InitStage = NoInit | Connecting | ConfigHook | RollbackHook | RollbackDatabase

  /** Where the body of `shutdown` awaits; `Round` awaits the adapter starts it has seen pending. */
  datatype DownStage =
    | NoDown
    | WaitInit | InitSettled
    | Round(seen: set<nat>) | Drained
    | TeardownHook | TeardownDatabase(failed: bool)
    | Finalizing

  datatype Kind = AdapterStart | ComposedShutdown | InitCall | ShutdownCall

  /** Where a call awaits. */
  datatype Stage =
    | AwaitInit | InitReturned(ok: bool) | CallerHook
    | WaitAdapters(seen: set<nat>) | AdaptersDrained
    | CallerCleanup
    | AwaitShutdown | ShutdownReturned
    | Done(ok: bool)

  datatype Call = Call(kind: Kind, stage: Stage)

  /**
   `pending` numbers the adapter starts that have an entry; `open` tells whether the owned
   connection is open, and `disconnects` whether a shutdown is to close it. The last three
   record history: how many times the body of `init` began, which of these were under way
   when a shutdown began, and which ended ready.
   */
  datatype State = State(
    life: Life,
    init: InitStage,
    down: DownStage,
    pending: set<nat>,
    calls: seq<Call>,
    open: bool,
    disconnects: bool,
    begun: nat,
    interrupted: set<nat>,
    succeeded: set<nat>)

  function Created(disconnects: bool): State {
    State(Idle, NoInit, NoDown, {}, [], false, disconnects, 0, {}, {})
  }

  // ---------------------------------------------------------------- init and shutdown as they are called

  /** What a call to `init` or `shutdown` gets: a promise to await, or its answer at once. */
  datatype Answer = Joined | Returned(ok: bool)

  function CallInit(s: State): (State, Answer) {
    if s.life.Ready? then (s, Returned(true))
    else if s.life.Initializing? && !s.init.NoInit? then (s, Joined)
    else if !s.down.NoDown? then (s, Returned(false))
    else if s.life.Stopping? || s.life.Stopped? then (s, Returned(false))
    else (s.(life := Initializing, init := Connecting, begun := s.begun + 1), Joined)
  }

  function Snapshot(pending: set<nat>): DownStage {
    if pending == {} then Drained else Round(pending)
  }

  function CallShutdown(s: State): (State, Answer) {
    if s.life.Stopped? then (s, Returned(true))
    else if !s.down.NoDown? then (s, Joined)
    else if s.life.Initializing? && !s.init.NoInit? then
      (s.(life := Stopping, down := WaitInit, interrupted := s.interrupted + {s.begun}), Joined)
    else (s.(life := Stopping, down := Snapshot(s.pending)), Joined)
  }

  // ---------------------------------------------------------------- the body of init

  function Settled(calls: seq<Call>, from: Stage, to: Stage): (r: seq<Call>)
    ensures |r| == |calls|
    ensures forall i :: 0 <= i < |calls| ==>
                          r[i] == if calls[i].stage == from then Call(calls[i].kind, to) else calls[i]
  {
    seq(|calls|, i requires 0 <= i < |calls| => if calls[i].stage == from then Call(calls[i].kind, to) else calls[i])
  }

  /** The body of `init` ends: its promise settles for everyone who awaits it. */
  function SettleInit(s: State, ok: bool): State {
    s.(init := NoInit,
       calls := Settled(s.calls, AwaitInit, InitReturned(ok)),
       down := if s.down.WaitInit? then InitSettled else s.down)
  }

  /**
   The awaited operation of the body of `init` ends, well or not. Once a shutdown has
   begun, the body only rejects and leaves all cleaning to that shutdown.
   */
  function InitStep(s: State, ok: bool, open: bool): State {
    match s.init
    case NoInit => s
    case Connecting =>
      var s1 := s.(open := if ok then true else open);
      if s.life.Stopping? then SettleInit(s1, false)
      else if ok then s1.(init := ConfigHook)
      else s1.(init := RollbackDatabase)
    case ConfigHook =>
      if s.life.Stopping? then SettleInit(s, false)
      else if ok then SettleInit(s.(life := Ready, succeeded := s.succeeded + {s.begun}), true)
      else s.(init := RollbackHook)
    case RollbackHook => s.(init := RollbackDatabase)
    case RollbackDatabase =>
      var s1 := s.(open := s.open && !ok && open);
      if s.life.Stopping? then SettleInit(s1, false) else SettleInit(s1.(life := Failed), false)
  }

  // ---------------------------------------------------------------- the body of shutdown

  predicate DownEnabled(s: State) {
    match s.down
    case NoDown => false
    case WaitInit => false
    case Round(seen) => seen * s.pending == {}
    case _ => true
  }

  function DownStep(s: State, ok: bool, open: bool): State
    requires DownEnabled(s)
  {
    match s.down
    case InitSettled => s.(down := Snapshot(s.pending))
    case Round(_) => s.(down := Snapshot(s.pending))
    case Drained => s.(down := TeardownHook)
    case TeardownHook => s.(down := TeardownDatabase(!ok))
    case TeardownDatabase(failed) =>
      s.(open := s.open && (!s.disconnects || (!ok && open)),
         life := if failed || !ok then Failed else Stopped,
         down := Finalizing)
    case Finalizing => s.(down := NoDown, calls := Settled(s.calls, AwaitShutdown, ShutdownReturned))
  }

  // ---------------------------------------------------------------- the calls

  predicate IsTerminalShutdown(s: State) {
    !s.down.NoDown? || s.life.Stopping? || s.life.Stopped?
  }

  function Begin(s: State, kind: Kind): State {
    var i := |s.calls|;
    match kind
    case AdapterStart =>
      var (s1, answer) := CallInit(s.(pending := s.pending + {i}));
      s1.(calls := s.calls + [Call(kind, if answer.Joined? then AwaitInit else InitReturned(answer.ok))])
    case InitCall =>
      var (s1, answer) := CallInit(s);
      s1.(calls := s.calls + [Call(kind, if answer.Joined? then AwaitInit else InitReturned(answer.ok))])
    case ComposedShutdown =>
      s.(calls := s.calls + [Call(kind, if s.pending == {} then AdaptersDrained else WaitAdapters(s.pending))])
    case ShutdownCall =>
      var (s1, answer) := CallShutdown(s);
      s1.(calls := s.calls + [Call(kind, if answer.Joined? then AwaitShutdown else ShutdownReturned)])
  }

  predicate CallEnabled(s: State, i: nat) {
    && i < |s.calls|
    && match s.calls[i].stage
       case AwaitInit => false
       case AwaitShutdown => false
       case Done(_) => false
       case WaitAdapters(seen) => seen * s.pending == {}
       case _ => true
  }

  function Move(s: State, i: nat, stage: Stage): State
    requires i < |s.calls|
  {
    s.(calls := s.calls[i := Call(s.calls[i].kind, stage)])
  }

  function Release(s: State, i: nat): State {
    s.(pending := s.pending - {i})
  }

  /** The awaited operation of call `i` ends, well or not. */
  function CallStep(s: State, i: nat, ok: bool): State
    requires CallEnabled(s, i)
  {
    match s.calls[i].stage
    case InitReturned(returned) =>
      if !s.calls[i].kind.AdapterStart? then Move(s, i, Done(returned))
      else if returned then Move(s, i, CallerHook)
      else Move(Release(s, i), i, Done(false))
    case CallerHook =>
      if ok then Move(Release(s, i), i, Done(!IsTerminalShutdown(s)))
      else Move(Release(s, i), i, CallerCleanup)
    case WaitAdapters(_) => Move(s, i, if s.pending == {} then AdaptersDrained else WaitAdapters(s.pending))
    case AdaptersDrained => Move(s, i, CallerCleanup)
    case CallerCleanup =>
      var (s1, answer) := CallShutdown(s);
      Move(s1, i, if answer.Joined? then AwaitShutdown else ShutdownReturned)
    case ShutdownReturned => Move(s, i, Done(!s.calls[i].kind.AdapterStart?))
  }

  // ---------------------------------------------------------------- runs

  datatype Event =
    | NewCall(kind: Kind)
    | InitMoves(ok: bool, open: bool)
    | DownMoves(ok: bool, open: bool)
    | CallMoves(i: nat, ok: bool)

  predicate Enabled(s: State, e: Event) {
    match e
    case NewCall(_) => true
    case InitMoves(_, _) => !s.init.NoInit?
    case DownMoves(_, _) => DownEnabled(s)
    case CallMoves(i, _) => CallEnabled(s, i)
  }

  function Next(s: State, e: Event): State
    requires Enabled(s, e)
  {
    match e
    case NewCall(kind) => Begin(s, kind)
    case InitMoves(ok, open) => InitStep(s, ok, open)
    case DownMoves(ok, open) => DownStep(s, ok, open)
    case CallMoves(i, ok) => CallStep(s, i, ok)
  }

  predicate Runs(s: State, events: seq<Event>, t: State)
    decreases |events|
  {
    if events == [] then s == t
    else Enabled(s, events[0]) && Runs(Next(s, events[0]), events[1..], t)
  }

  lemma {:induction false} RunGoesOn(s: State, events: seq<Event>, t: State, e: Event)
    requires Runs(s, events, t) && Enabled(t, e)
    ensures Runs(s, events + [e], Next(t, e))
    decreases |events|
  {
    if events == [] {
      assert [e][1..] == [];
    } else {
      RunGoesOn(Next(s, events[0]), events[1..], t, e);
      assert (events + [e])[1..] == events[1..] + [e];
    }
  }

  // ---------------------------------------------------------------- what every run keeps

  /** An adapter start that has its entry among the pending ones. */
  predicate HasEntry(c: Call) {
    c.kind.AdapterStart? && (c.stage.AwaitInit? || c.stage.InitReturned? || c.stage.CallerHook?)
  }

  /** The caller's init hook runs, or nothing but its turn is missing. */
  predicate MayRunCallerHook(c: Call) {
    c.kind.AdapterStart? && (c.stage == InitReturned(true) || c.stage.CallerHook?)
  }

  ghost predicate StagesFit(s: State) {
    && (s.life.Initializing? ==> !s.init.NoInit?)
    && (!s.init.NoInit? ==> if s.life.Initializing? then s.down.NoDown? else s.life.Stopping? && s.down.WaitInit?)
    && (s.down.WaitInit? ==> !s.init.NoInit?)
    && (s.life.Stopping? <==> !s.down.NoDown? && !s.down.Finalizing?)
    && (s.down.Finalizing? ==> s.life.Stopped? || s.life.Failed?)
  }

  ghost predicate CallsFit(s: State) {
    && (forall i :: 0 <= i < |s.calls| ==> CallFits(s, s.calls[i]))
    && (forall i: nat :: i in s.pending <==> i < |s.calls| && HasEntry(s.calls[i]))
  }

  ghost predicate CallFits(s: State, c: Call) {
    && (c.stage.AwaitInit? ==> !s.init.NoInit?)
    && (c.stage.AwaitShutdown? ==> !s.down.NoDown?)
    && (c.stage.CallerHook? ==> c.kind.AdapterStart?)
    && (MayRunCallerHook(c) ==> s.init.NoInit? && if s.life.Ready? then s.down.NoDown? else s.down.Round?)
  }

  ghost predicate HistoryFits(s: State) {
    && s.interrupted !! s.succeeded
    && (forall n :: n in s.interrupted || n in s.succeeded ==> n <= s.begun)
    && (!s.init.NoInit? ==> s.begun !in s.succeeded)
    && (!s.init.NoInit? && s.life.Initializing? ==> s.begun !in s.interrupted)
    && (s.down.WaitInit? ==> s.begun in s.interrupted)
    && (s.life.Ready? ==> s.begun in s.succeeded)
  }

  ghost predicate ConnectionFits(s: State) {
    && (s.life.Idle? || (s.life.Stopped? && s.disconnects) ==> !s.open)
    && (s.life.Ready? || s.init.ConfigHook? || s.init.RollbackHook? ==> s.open)
  }

  ghost predicate Inv(s: State) {
    StagesFit(s) && CallsFit(s) && HistoryFits(s) && ConnectionFits(s)
  }

  ghost predicate CoreFits(s: State) {
    StagesFit(s) && HistoryFits(s) && ConnectionFits(s)
  }

  lemma CallInitFits(s: State)
    requires CoreFits(s)
    ensures CoreFits(CallInit(s).0)
    ensures CallInit(s).1.Joined? ==> !CallInit(s).0.init.NoInit?
    ensures CallInit(s).1 == Returned(true) ==> CallInit(s).0 == s && s.life.Ready?
    ensures CallInit(s).0.down == s.down
  {
  }

  lemma CallShutdownFits(s: State)
    requires CoreFits(s)
    ensures CoreFits(CallShutdown(s).0)
    ensures CallShutdown(s).1.Joined? ==> !CallShutdown(s).0.down.NoDown?
  {
  }

  lemma InitStepFitsStages(s: State, ok: bool, open: bool)
    requires StagesFit(s) && !s.init.NoInit?
    ensures ConnectionFits(s) ==> ConnectionFits(InitStep(s, ok, open))
    ensures StagesFit(InitStep(s, ok, open))
  {
  }

  lemma InitStepFitsHistory(s: State, ok: bool, open: bool)
    requires CoreFits(s) && !s.init.NoInit?
    ensures HistoryFits(InitStep(s, ok, open))
  {
  }

  lemma DownStepFitsCore(s: State, ok: bool, open: bool)
    requires CoreFits(s) && DownEnabled(s)
    ensures CoreFits(DownStep(s, ok, open))
  {
  }

  // ---------------------------------------------------------------- each step keeps it

  lemma InitStepFitsCall(s: State, ok: bool, open: bool, i: nat)
    requires StagesFit(s) && !s.init.NoInit? && i < |s.calls| && CallFits(s, s.calls[i])
    ensures
      var t := InitStep(s, ok, open);
      |t.calls| == |s.calls| && CallFits(t, t.calls[i])
  {
  }

  lemma InitStepKeepsEntry(s: State, ok: bool, open: bool, i: nat)
    requires !s.init.NoInit? && i < |s.calls|
    ensures |InitStep(s, ok, open).calls| == |s.calls|
    ensures HasEntry(InitStep(s, ok, open).calls[i]) == HasEntry(s.calls[i])
  {
  }

  lemma InitStepKeepsCalls(s: State, ok: bool, open: bool)
    requires !s.init.NoInit?
    ensures |InitStep(s, ok, open).calls| == |s.calls| && InitStep(s, ok, open).pending == s.pending
  {
  }

  lemma InitStepKeepsInv(s: State, ok: bool, open: bool)
    requires Inv(s) && !s.init.NoInit?
    ensures Inv(InitStep(s, ok, open))
  {
    InitStepFitsStages(s, ok, open);
    InitStepFitsHistory(s, ok, open);
    InitStepKeepsCalls(s, ok, open);
    forall i | 0 <= i < |s.calls|
      ensures CallFits(InitStep(s, ok, open), InitStep(s, ok, open).calls[i])
      ensures HasEntry(InitStep(s, ok, open).calls[i]) == HasEntry(s.calls[i])
    {
      InitStepFitsCall(s, ok, open, i);
      InitStepKeepsEntry(s, ok, open, i);
    }
  }

  lemma DownStepKeepsInv(s: State, ok: bool, open: bool)
    requires Inv(s) && DownEnabled(s)
    ensures Inv(DownStep(s, ok, open))
  {
    DownStepFitsCore(s, ok, open);
    var t := DownStep(s, ok, open);
    forall i | 0 <= i < |t.calls|
      ensures CallFits(t, t.calls[i]) && HasEntry(t.calls[i]) == HasEntry(s.calls[i])
    {
      assert CallFits(s, s.calls[i]);
      if MayRunCallerHook(s.calls[i]) {
        assert i in s.pending;
      }
    }
  }

  lemma ShutdownCallKeepsInv(s: State)
    requires Inv(s)
    ensures Inv(CallShutdown(s).0)
    ensures CallShutdown(s).0.calls == s.calls && CallShutdown(s).0.pending == s.pending
  {
    CallShutdownFits(s);
    var t := CallShutdown(s).0;
    forall j | 0 <= j < |t.calls|
      ensures CallFits(t, t.calls[j])
    {
      assert CallFits(s, s.calls[j]);
      if MayRunCallerHook(s.calls[j]) {
        assert j in s.pending;
      }
    }
  }

  lemma InitCallKeepsInv(s: State)
    requires Inv(s)
    ensures Inv(CallInit(s).0)
    ensures CallInit(s).0.calls == s.calls && CallInit(s).0.pending == s.pending
  {
    CallInitFits(s);
    var t := CallInit(s).0;
    forall j | 0 <= j < |t.calls|
      ensures CallFits(t, t.calls[j])
    {
      assert CallFits(s, s.calls[j]);
    }
  }

  lemma AppendKeepsInv(s: State, c: Call)
    requires Inv(s) && CallFits(s, c)
    ensures
      var pending := if HasEntry(c) then s.pending + {|s.calls|} else s.pending;
      Inv(s.(calls := s.calls + [c], pending := pending))
  {
    var t := s.(calls := s.calls + [c]);
    forall j | 0 <= j < |t.calls|
      ensures CallFits(s, t.calls[j])
    {
    }
  }

  lemma BeginKeepsInv(s: State, kind: Kind)
    requires Inv(s)
    ensures Inv(Begin(s, kind))
  {
    match kind
    case ComposedShutdown => AppendKeepsInv(s, Begin(s, kind).calls[|s.calls|]);
    case ShutdownCall => BeginShutdownKeepsInv(s);
    case _ => BeginInitKeepsInv(s, kind);
  }

  lemma BeginShutdownKeepsInv(s: State)
    requires Inv(s)
    ensures Inv(Begin(s, ShutdownCall))
  {
    ShutdownCallKeepsInv(s);
    CallShutdownFits(s);
    AppendKeepsInv(CallShutdown(s).0, Begin(s, ShutdownCall).calls[|s.calls|]);
  }

  /** The entry of an adapter start makes no difference to what `init` does. */
  lemma EntryOfInit(s: State, pending: set<nat>)
    ensures CallInit(s.(pending := pending)).0 == CallInit(s).0.(pending := pending)
    ensures CallInit(s.(pending := pending)).1 == CallInit(s).1
  {
  }

  lemma BeginInitKeepsInv(s: State, kind: Kind)
    requires Inv(s) && (kind.AdapterStart? || kind.InitCall?)
    ensures Inv(Begin(s, kind))
  {
    var (s1, answer) := CallInit(s);
    var c := Call(kind, if answer.Joined? then AwaitInit else InitReturned(answer.ok));
    InitCallKeepsInv(s);
    CallInitFits(s);
    EntryOfInit(s, s.pending + {|s.calls|});
    AppendKeepsInv(s1, c);
  }

  lemma MoveKeepsInv(s: State, i: nat, stage: Stage, t: State)
    requires Inv(s) && i < |s.calls|
    requires CallFits(s, Call(s.calls[i].kind, stage))
    requires t == if HasEntry(Call(s.calls[i].kind, stage)) then Move(s, i, stage) else Move(Release(s, i), i, stage)
    requires HasEntry(Call(s.calls[i].kind, stage)) ==> HasEntry(s.calls[i])
    ensures Inv(t)
  {
    forall j | 0 <= j < |t.calls|
      ensures CallFits(t, t.calls[j])
    {
      assert CallFits(s, s.calls[j]);
    }
  }

  lemma NothingToRelease(s: State, i: nat)
    requires Inv(s) && i < |s.calls| && !HasEntry(s.calls[i])
    ensures Release(s, i) == s
  {
    assert i !in s.pending;
    assert s.pending - {i} == s.pending;
  }

  lemma CallStepKeepsInv(s: State, i: nat, ok: bool)
    requires Inv(s) && CallEnabled(s, i)
    ensures Inv(CallStep(s, i, ok))
  {
    var t := CallStep(s, i, ok);
    assert CallFits(s, s.calls[i]);
    if s.calls[i].stage.CallerCleanup? {
      CallShutdownFits(s);
      ShutdownCallKeepsInv(s);
      var s1 := CallShutdown(s).0;
      NothingToRelease(s1, i);
      MoveKeepsInv(s1, i, t.calls[i].stage, t);
    } else {
      if !HasEntry(s.calls[i]) {
        NothingToRelease(s, i);
      }
      MoveKeepsInv(s, i, t.calls[i].stage, t);
    }
  }

  lemma StepKeepsInv(s: State, e: Event)
    requires Inv(s) && Enabled(s, e)
    ensures Inv(Next(s, e))
  {
    match e
    case NewCall(kind) => BeginKeepsInv(s, kind);
    case InitMoves(ok, open) => InitStepKeepsInv(s, ok, open);
    case DownMoves(ok, open) => DownStepKeepsInv(s, ok, open);
    case CallMoves(i, ok) => CallStepKeepsInv(s, i, ok);
  }

  lemma {:induction false} RunKeepsInv(s: State, events: seq<Event>, t: State)
    requires Inv(s) && Runs(s, events, t)
    ensures Inv(t)
    decreases |events|
  {
    if events != [] {
      StepKeepsInv(s, events[0]);
      RunKeepsInv(Next(s, events[0]), events[1..], t);
    }
  }

  // ---------------------------------------------------------------- safety

  lemma CreatedFits(disconnects: bool)
    ensures Inv(Created(disconnects))
  {
  }

  /** A stopped runtime stays stopped, whatever is called. */
  lemma {:induction false} StoppedIsAbsorbing(s: State, events: seq<Event>, t: State)
    requires Inv(s) && s.life.Stopped? && Runs(s, events, t)
    ensures t.life.Stopped? && t.begun == s.begun
    decreases |events|
  {
    if events != [] {
      StepKeepsInv(s, events[0]);
      StoppedIsAbsorbing(Next(s, events[0]), events[1..], t);
    }
  }

  lemma {:induction false} InterruptedForGood(s: State, events: seq<Event>, t: State, n: nat)
    requires Inv(s) && n in s.interrupted && Runs(s, events, t)
    ensures n in t.interrupted
    decreases |events|
  {
    if events != [] {
      StepKeepsInv(s, events[0]);
      InterruptedForGood(Next(s, events[0]), events[1..], t, n);
    }
  }

  /** An init under way when a shutdown begins never makes the runtime ready; only a later init can. */
  lemma InterruptedInitIsNeverReady(s: State, events: seq<Event>, t: State)
    requires Inv(s) && s.life.Stopping? && !s.init.NoInit? && Runs(s, events, t)
    ensures t.life.Ready? ==> t.begun != s.begun
  {
    InterruptedForGood(s, events, t, s.begun);
    RunKeepsInv(s, events, t);
  }

  ghost predicate NoInitHook(s: State) {
    s.init.NoInit? && forall i :: 0 <= i < |s.calls| ==> !MayRunCallerHook(s.calls[i])
  }

  predicate TearsDown(s: State) {
    s.down.Drained? || s.down.TeardownHook? || s.down.TeardownDatabase?
  }

  /**
   In every run, no init hook of the configuration or of a caller runs, or is about to,
   from the moment the pending starts are drained until the teardown is over; and none
   does in a stopped runtime.
   */
  lemma TeardownIsAlone(disconnects: bool, events: seq<Event>, t: State)
    requires Runs(Created(disconnects), events, t) && (TearsDown(t) || t.life.Stopped?)
    ensures NoInitHook(t)
  {
    CreatedFits(disconnects);
    RunKeepsInv(Created(disconnects), events, t);
    forall i | 0 <= i < |t.calls|
      ensures !MayRunCallerHook(t.calls[i])
    {
      assert CallFits(t, t.calls[i]);
    }
  }

  lemma {:induction false} FlagIsFixed(s: State, events: seq<Event>, t: State)
    requires Runs(s, events, t)
    ensures t.disconnects == s.disconnects
    decreases |events|
  {
    if events != [] {
      FlagIsFixed(Next(s, events[0]), events[1..], t);
    }
  }

  /** A ready runtime holds its connection open; a stopped one does not, if it is to disconnect. */
  lemma ConnectionFollowsLife(disconnects: bool, events: seq<Event>, t: State)
    requires Runs(Created(disconnects), events, t)
    ensures t.life.Stopped? && disconnects ==> !t.open
    ensures t.life.Ready? ==> t.open
  {
    CreatedFits(disconnects);
    RunKeepsInv(Created(disconnects), events, t);
    FlagIsFixed(Created(disconnects), events, t);
  }

  /** In every run, an adapter start that ends well ends in a ready runtime that nobody shuts down. */
  lemma SuccessfulStartIsReady(disconnects: bool, events: seq<Event>, s: State, i: nat, ok: bool)
    requires Runs(Created(disconnects), events, s) && CallEnabled(s, i) && s.calls[i].kind.AdapterStart?
    ensures CallStep(s, i, ok).calls[i].stage == Done(true) ==> s.life.Ready? && s.down.NoDown? && s.init.NoInit?
  {
    CreatedFits(disconnects);
    RunKeepsInv(Created(disconnects), events, s);
    assert CallFits(s, s.calls[i]);
  }

  // ---------------------------------------------------------------- every call settles

  predicate IsQuiet(s: State) {
    s.init.NoInit? && s.down.NoDown? && forall i :: 0 <= i < |s.calls| ==> s.calls[i].stage.Done?
  }

  lemma EntryBlocks(s: State, i: nat)
    requires Inv(s) && s.init.NoInit? && i in s.pending
    ensures CallEnabled(s, i)
  {
    assert CallFits(s, s.calls[i]);
  }

  /** Nothing ever waits for something that waits for it: as long as anything is unsettled, some step is enabled. */
  lemma NoDeadlock(s: State)
    requires Inv(s) && !IsQuiet(s)
    ensures exists e :: Enabled(s, e) && !e.NewCall?
  {
    if !s.init.NoInit? {
      assert Enabled(s, InitMoves(true, true));
    } else if s.pending != {} {
      var i :| i in s.pending;
      EntryBlocks(s, i);
      assert Enabled(s, CallMoves(i, true));
    } else if !s.down.NoDown? {
      assert Enabled(s, DownMoves(true, true));
    } else {
      var i :| 0 <= i < |s.calls| && !s.calls[i].stage.Done?;
      assert CallFits(s, s.calls[i]);
      assert Enabled(s, CallMoves(i, true));
    }
  }

  function InitRank(init: InitStage): nat {
    match init
    case NoInit => 0
    case RollbackDatabase => 1
    case RollbackHook => 2
    case ConfigHook => 3
    case Connecting => 4
  }

  function DownRank(down: DownStage, pending: set<nat>): nat {
    match down
    case NoDown => 0
    case Finalizing => 1
    case TeardownDatabase(_) => 2
    case TeardownHook => 3
    case Drained => 4
    case Round(seen) => 5 + |pending - seen|
    case InitSettled => 6 + |pending|
    case WaitInit => 7 + |pending|
  }

  function CallRank(stage: Stage, pending: set<nat>, n: nat): nat {
    match stage
    case Done(_) => 0
    case ShutdownReturned => 1
    case AwaitShutdown => 2
    case CallerCleanup => 11 + n
    case CallerHook => 12 + n
    case InitReturned(_) => 13 + n
    case AwaitInit => 14 + n
    case AdaptersDrained => 12 + n
    case WaitAdapters(seen) => 13 + n + |pending - seen|
  }

  function CallRanks(calls: seq<Call>, pending: set<nat>, n: nat): nat {
    if calls == [] then 0
    else CallRanks(calls[..|calls| - 1], pending, n) + CallRank(calls[|calls| - 1].stage, pending, n)
  }

  /** How many steps are left, at most, if no more calls are made. */
  function Measure(s: State): nat {
    InitRank(s.init) + DownRank(s.down, s.pending) + CallRanks(s.calls, s.pending, |s.calls|)
  }

  lemma FewerPending(pending: set<nat>, fewer: set<nat>, seen: set<nat>)
    requires fewer <= pending
    ensures |fewer - seen| <= |pending - seen| && |fewer| <= |pending|
  {
    Fewer(fewer - seen, pending - seen);
    Fewer(fewer, pending);
  }

  /** Ranks only fall when calls move on and entries are released. */
  lemma {:induction false} RanksFall(calls: seq<Call>, later: seq<Call>, pending: set<nat>, fewer: set<nat>, n: nat)
    requires |calls| == |later| && fewer <= pending
    requires forall i :: 0 <= i < |calls| ==>
                           CallRank(later[i].stage, fewer, n) <= CallRank(calls[i].stage, pending, n)
    ensures CallRanks(later, fewer, n) <= CallRanks(calls, pending, n)
  {
    if calls != [] {
      var k := |calls| - 1;
      RanksFall(calls[..k], later[..k], pending, fewer, n);
    }
  }

  lemma {:induction false} OneRankFalls(calls: seq<Call>, i: nat, c: Call, pending: set<nat>, fewer: set<nat>, n: nat)
    requires i < |calls| && fewer <= pending
    ensures CallRanks(calls[i := c], fewer, n) + CallRank(calls[i].stage, pending, n)
         <= CallRanks(calls, pending, n) + CallRank(c.stage, fewer, n)
  {
    var k := |calls| - 1;
    var later := calls[i := c];
    StagesFall(calls[..k], pending, fewer, n);
    if i < k {
      OneRankFalls(calls[..k], i, c, pending, fewer, n);
      assert later[..k] == calls[..k][i := c];
      StageFalls(calls[k].stage, pending, fewer, n);
    } else {
      assert later[..k] == calls[..k];
    }
  }

  lemma StageFalls(stage: Stage, pending: set<nat>, fewer: set<nat>, n: nat)
    requires fewer <= pending
    ensures CallRank(stage, fewer, n) <= CallRank(stage, pending, n)
  {
    if stage.WaitAdapters? {
      FewerPending(pending, fewer, stage.seen);
    }
  }

  lemma StagesFall(calls: seq<Call>, pending: set<nat>, fewer: set<nat>, n: nat)
    requires fewer <= pending
    ensures CallRanks(calls, fewer, n) <= CallRanks(calls, pending, n)
  {
    forall i | 0 <= i < |calls|
      ensures CallRank(calls[i].stage, fewer, n) <= CallRank(calls[i].stage, pending, n)
    {
      StageFalls(calls[i].stage, pending, fewer, n);
    }
    RanksFall(calls, calls, pending, fewer, n);
  }

  lemma SettledRanks(calls: seq<Call>, from: Stage, to: Stage, pending: set<nat>, n: nat)
    requires CallRank(to, pending, n) <= CallRank(from, pending, n)
    ensures CallRanks(Settled(calls, from, to), pending, n) <= CallRanks(calls, pending, n)
  {
    RanksFall(calls, Settled(calls, from, to), pending, pending, n);
  }

  lemma InitStepRanks(s: State, ok: bool, open: bool)
    requires !s.init.NoInit?
    ensures
      var t := InitStep(s, ok, open);
      && InitRank(t.init) < InitRank(s.init)
      && DownRank(t.down, s.pending) <= DownRank(s.down, s.pending)
      && t.pending == s.pending
  {
  }

  lemma InitStepCalls(s: State, ok: bool, open: bool)
    requires !s.init.NoInit?
    ensures
      var t := InitStep(s, ok, open);
      || t.calls == s.calls
      || t.calls == Settled(s.calls, AwaitInit, InitReturned(true))
      || t.calls == Settled(s.calls, AwaitInit, InitReturned(false))
  {
  }

  lemma InitStepCounts(s: State, ok: bool, open: bool)
    requires !s.init.NoInit?
    ensures Measure(InitStep(s, ok, open)) < Measure(s)
  {
    var t := InitStep(s, ok, open);
    InitStepRanks(s, ok, open);
    InitStepCalls(s, ok, open);
    SettledRanks(s.calls, AwaitInit, InitReturned(true), s.pending, |s.calls|);
    SettledRanks(s.calls, AwaitInit, InitReturned(false), s.pending, |s.calls|);
    MeasureFalls(s, t);
  }

  /** Fewer steps left for the two bodies, and no more for the calls. */
  lemma MeasureFalls(s: State, t: State)
    requires |t.calls| == |s.calls| && t.pending == s.pending
    requires InitRank(t.init) + DownRank(t.down, s.pending) < InitRank(s.init) + DownRank(s.down, s.pending)
    requires CallRanks(t.calls, s.pending, |s.calls|) <= CallRanks(s.calls, s.pending, |s.calls|)
    ensures Measure(t) < Measure(s)
  {
  }

  lemma NewRoundSeesMore(seen: set<nat>, pending: set<nat>)
    requires seen * pending == {} && pending != {}
    ensures |pending - pending| < |pending - seen|
  {
    assert pending - pending == {} && pending - seen == pending;
  }

  lemma SnapshotRank(seen: set<nat>, pending: set<nat>)
    ensures DownRank(Snapshot(pending), pending) < 6 + |pending|
    ensures seen * pending == {} ==> DownRank(Snapshot(pending), pending) < 5 + |pending - seen|
  {
    assert pending - pending == {};
    if seen * pending == {} && pending != {} {
      NewRoundSeesMore(seen, pending);
    }
  }

  lemma DownStepRanks(s: State, ok: bool, open: bool)
    requires DownEnabled(s)
    ensures
      var t := DownStep(s, ok, open);
      && DownRank(t.down, s.pending) < DownRank(s.down, s.pending)
      && t.init == s.init && t.pending == s.pending
      && (t.calls == s.calls || t.calls == Settled(s.calls, AwaitShutdown, ShutdownReturned))
  {
    SnapshotRank(if s.down.Round? then s.down.seen else {}, s.pending);
  }

  lemma DownStepCounts(s: State, ok: bool, open: bool)
    requires DownEnabled(s)
    ensures Measure(DownStep(s, ok, open)) < Measure(s)
  {
    DownStepRanks(s, ok, open);
    SettledRanks(s.calls, AwaitShutdown, ShutdownReturned, s.pending, |s.calls|);
    MeasureFalls(s, DownStep(s, ok, open));
  }

  lemma {:induction false} PendingFits(pending: set<nat>, n: nat)
    requires forall i :: i in pending ==> i < n
    ensures |pending| <= n
  {
    if n > 0 {
      PendingFits(pending - {n - 1}, n - 1);
      Fewer(pending, (pending - {n - 1}) + {n - 1});
    } else {
      assert pending == {};
    }
  }

  lemma DownRankFalls(down: DownStage, pending: set<nat>, fewer: set<nat>)
    requires fewer <= pending
    ensures DownRank(down, fewer) <= DownRank(down, pending)
  {
    FewerPending(pending, fewer, if down.Round? then down.seen else {});
  }

  lemma ShutdownCallRank(s: State)
    requires |s.pending| <= |s.calls|
    ensures DownRank(CallShutdown(s).0.down, s.pending) <= DownRank(s.down, s.pending) + 7 + |s.calls|
  {
    SnapshotRank({}, s.pending);
  }

  /** A call moves on to a stage of lower rank, and releases its entry or not. */
  lemma MoveCounts(s: State, i: nat, stage: Stage, t: State, more: nat)
    requires i < |s.calls| && t.calls == s.calls[i := Call(s.calls[i].kind, stage)]
    requires t.pending <= s.pending && t.init == s.init
    requires DownRank(t.down, t.pending) <= DownRank(s.down, s.pending) + more
    requires CallRank(stage, t.pending, |s.calls|) + more < CallRank(s.calls[i].stage, s.pending, |s.calls|)
    ensures Measure(t) < Measure(s)
  {
    OneRankFalls(s.calls, i, Call(s.calls[i].kind, stage), s.pending, t.pending, |s.calls|);
  }

  lemma CleanupCounts(s: State, i: nat, ok: bool)
    requires CallEnabled(s, i) && |s.pending| <= |s.calls| && s.calls[i].stage.CallerCleanup?
    ensures Measure(CallStep(s, i, ok)) < Measure(s)
  {
    var t := CallStep(s, i, ok);
    ShutdownCallRank(s);
    CleanupMoves(s, i, ok);
    MoveCounts(s, i, t.calls[i].stage, t, 7 + |s.calls|);
  }

  lemma CleanupMoves(s: State, i: nat, ok: bool)
    requires CallEnabled(s, i) && s.calls[i].stage.CallerCleanup?
    ensures
      var t := CallStep(s, i, ok);
      && |t.calls| == |s.calls| && t.calls == s.calls[i := Call(s.calls[i].kind, t.calls[i].stage)]
      && t.pending == s.pending && t.init == s.init && t.down == CallShutdown(s).0.down
      && CallRank(t.calls[i].stage, t.pending, |s.calls|) <= 2
  {
  }

  lemma WaitCounts(s: State, i: nat, ok: bool)
    requires CallEnabled(s, i) && s.calls[i].stage.WaitAdapters?
    ensures Measure(CallStep(s, i, ok)) < Measure(s)
  {
    assert s.pending - s.pending == {};
    if s.pending != {} {
      NewRoundSeesMore(s.calls[i].stage.seen, s.pending);
    }
    var t := CallStep(s, i, ok);
    MoveCounts(s, i, t.calls[i].stage, t, 0);
  }

  lemma OtherCallsMove(s: State, i: nat, ok: bool)
    requires CallEnabled(s, i) && !s.calls[i].stage.CallerCleanup? && !s.calls[i].stage.WaitAdapters?
    ensures
      var t := CallStep(s, i, ok);
      && t.calls == s.calls[i := t.calls[i]] && t.calls[i].kind == s.calls[i].kind
      && t.init == s.init && t.down == s.down && t.pending <= s.pending
  {
  }

  lemma OtherCallsFall(s: State, i: nat, ok: bool, n: nat)
    requires CallEnabled(s, i) && !s.calls[i].stage.CallerCleanup? && !s.calls[i].stage.WaitAdapters?
    ensures
      var t := CallStep(s, i, ok);
      i < |t.calls| && CallRank(t.calls[i].stage, t.pending, n) < CallRank(s.calls[i].stage, s.pending, n)
  {
  }

  lemma CallStepCounts(s: State, i: nat, ok: bool)
    requires CallEnabled(s, i) && |s.pending| <= |s.calls|
    ensures Measure(CallStep(s, i, ok)) < Measure(s)
  {
    if s.calls[i].stage.CallerCleanup? {
      CleanupCounts(s, i, ok);
    } else if s.calls[i].stage.WaitAdapters? {
      WaitCounts(s, i, ok);
    } else {
      var t := CallStep(s, i, ok);
      OtherCallsMove(s, i, ok);
      OtherCallsFall(s, i, ok, |s.calls|);
      DownRankFalls(s.down, s.pending, t.pending);
      MoveCounts(s, i, t.calls[i].stage, t, 0);
    }
  }

  /** Every step that is not a new call brings all calls closer to their end. */
  lemma StepCounts(s: State, e: Event)
    requires Inv(s) && Enabled(s, e) && !e.NewCall?
    ensures Measure(Next(s, e)) < Measure(s)
  {
    match e
    case InitMoves(ok, open) => InitStepCounts(s, ok, open);
    case DownMoves(ok, open) => DownStepCounts(s, ok, open);
    case CallMoves(i, ok) =>
      PendingFits(s.pending, |s.calls|);
      CallStepCounts(s, i, ok);
  }

  /**
   Every call settles: without new calls a run has at most `Measure` steps, and it can
   always go on until everything is settled.
   */
  lemma {:induction false} EveryCallSettles(s: State, events: seq<Event>, t: State)
    requires Inv(s) && Runs(s, events, t) && forall i :: 0 <= i < |events| ==> !events[i].NewCall?
    ensures |events| + Measure(t) <= Measure(s)
    ensures IsQuiet(t) || exists e :: Enabled(t, e) && !e.NewCall?
    decreases |events|
  {
    if events == [] {
      if !IsQuiet(s) {
        NoDeadlock(s);
      }
    } else {
      StepCounts(s, events[0]);
      StepKeepsInv(s, events[0]);
      EveryCallSettles(Next(s, events[0]), events[1..], t);
    }
  }
}
