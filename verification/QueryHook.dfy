/**
 The request-ownership protocol of the query hooks. Automatic fetches, manual queries,
 aborts, disabling, resets and unmounting interleave freely; the newest invocation owns
 what the hook shows. Each stretch of code between two awaits is one atomic step, and
 observers act through further steps.
 */
module QueryHook {
  import opened Options

  /** Settled pages and errors, told apart and nothing more. */
  type Page = nat
  type Failure = nat

  /** An invocation: whether its signal is aborted, whether its request has settled, and the error it settled with. */
  datatype Invocation = Invocation(aborted: bool, settled: bool, failure: Option<Failure>)

  datatype Applied = Applied(id: nat, page: Page)

  /** What a hook is given once, and what it shows. */
  datatype Config = Config(initial: Page, keepPrevious: bool)

  datatype Shown = Shown(
    isLoading: bool,
    isFetching: bool,
    error: Option<Failure>,
    data: Page,
    previousData: Option<Page>)

  /**
   `runs` holds every invocation by its owner id, `current` the one whose controller the
   abort manager holds. `history` lists the results that were applied, and `sinceReset`
   how many of these precede the last reset.
   */
  datatype State = State(
    config: Config,
    mounted: bool,
    ownerId: nat,
    runs: map<nat, Invocation>,
    current: Option<nat>,
    hasData: bool,
    hasSettled: bool,
    shown: Shown,
    history: seq<Applied>,
    sinceReset: nat)

  function Mounted(config: Config): State {
    State(config, true, 0, map[], None, false, false, Shown(false, false, None, config.initial, None), [], 0)
  }

  // ---------------------------------------------------------------- the steps

  predicate IsRunning(s: State, id: nat) {
    id in s.runs && !s.runs[id].settled
  }

  function Aborted(runs: map<nat, Invocation>, id: nat): map<nat, Invocation> {
    if id in runs && !runs[id].settled then runs[id := Invocation(true, false, None)] else runs
  }

  function AbortedCurrent(s: State): map<nat, Invocation> {
    if s.current.Some? then Aborted(s.runs, s.current.value) else s.runs
  }

  /** React drops what is to be shown after unmount. */
  function Show(s: State, shown: Shown): Shown {
    if s.mounted then shown else s.shown
  }

  /** What is shown once a request is under way, started by the effect or by hand. */
  function Fetching(s: State, automatic: bool): Shown {
    Show(s, s.shown.(
      isFetching := true,
      isLoading := !s.hasData || (!automatic && s.shown.isLoading),
      error := None,
      previousData := if s.config.keepPrevious && s.hasSettled then Some(s.shown.data) else s.shown.previousData))
  }

  /** An invocation starts; a caller's signal may be aborted already. */
  function Start(s: State, automatic: bool, aborted: bool): State {
    var id := s.ownerId + 1;
    s.(ownerId := id,
       current := Some(id),
       runs := AbortedCurrent(s)[id := Invocation(aborted, false, None)],
       shown := Fetching(s, automatic))
  }

  /** The owner's request was cancelled or failed: the flags go down, and data stays. */
  function Converge(s: State, error: Option<Failure>): Shown {
    Show(s, Shown(s.hasData && s.shown.isLoading, false, error, s.shown.data, None))
  }

  function Succeed(s: State, id: nat, page: Page): State
    requires IsRunning(s, id)
  {
    var s1 := s.(runs := s.runs[id := Invocation(s.runs[id].aborted, true, None)]);
    if id != s.ownerId then s1
    else if s.runs[id].aborted then s1.(shown := Converge(s, s.shown.error))
    else if !s.mounted then s1
    else
      s1.(shown := Shown(false, false, s.shown.error, page, None),
          hasSettled := true, hasData := true,
          history := s.history + [Applied(id, page)])
  }

  function Fail(s: State, id: nat, error: Failure): State
    requires IsRunning(s, id)
  {
    var s1 := s.(runs := s.runs[id := Invocation(s.runs[id].aborted, true, Some(error))]);
    if id != s.ownerId then s1
    else s1.(shown := Converge(s, if s.runs[id].aborted then s.shown.error else Some(error)))
  }

  /** The effect runs with nothing to fetch. */
  function Disable(s: State): State {
    s.(ownerId := s.ownerId + 1,
       runs := AbortedCurrent(s),
       shown := s.shown.(isLoading := false, isFetching := false, previousData := None))
  }

  function Reset(s: State): State {
    s.(ownerId := s.ownerId + 1,
       hasData := false,
       hasSettled := false,
       shown := Show(s, Shown(false, false, None, s.config.initial, None)),
       sinceReset := |s.history|)
  }

  function Unmount(s: State): State {
    s.(runs := AbortedCurrent(s), current := None, mounted := false)
  }

  // ---------------------------------------------------------------- runs

  /** `AbortRun` is a caller's signal, or the cleanup of an effect. */
  datatype Event =
    | Starts(automatic: bool, aborted: bool)
    | AbortRun(id: nat)
    | Succeeds(id: nat, page: Page)
    | Fails(id: nat, error: Failure)
    | Disables
    | Resets
    | Unmounts

  predicate Enabled(s: State, e: Event) {
    match e
    case Succeeds(id, _) => IsRunning(s, id)
    case Fails(id, _) => IsRunning(s, id)
    case Disables => s.mounted
    case _ => true
  }

  function Next(s: State, e: Event): State
    requires Enabled(s, e)
  {
    match e
    case Starts(automatic, aborted) => Start(s, automatic, aborted)
    case AbortRun(id) => s.(runs := Aborted(s.runs, id))
    case Succeeds(id, page) => Succeed(s, id, page)
    case Fails(id, error) => Fail(s, id, error)
    case Disables => Disable(s)
    case Resets => Reset(s)
    case Unmounts => Unmount(s)
  }

  predicate Runs(s: State, events: seq<Event>, t: State)
    decreases |events|
  {
    if events == [] then s == t else Enabled(s, events[0]) && Runs(Next(s, events[0]), events[1..], t)
  }

  lemma {:induction false} RunGoesOn(s: State, events: seq<Event>, t: State, e: Event)
    requires Runs(s, events, t) && Enabled(t, e)
    ensures Runs(s, events + [e], Next(t, e))
    decreases |events|
  {
    if events == [] {
      assert [e][1..] == [];
    } else {
      RunGoesOn(Next(s, events[0]), events[1..], t, e);
      assert (events + [e])[1..] == events[1..] + [e];
    }
  }

  // ---------------------------------------------------------------- what every run keeps

  ghost predicate FlagsFit(s: State) {
    && (s.shown.isFetching <==> IsRunning(s, s.ownerId))
    && (s.shown.isLoading <==> s.shown.isFetching && !s.hasData)
    && (s.shown.previousData.Some? ==> s.shown.isFetching && s.hasData && s.shown.previousData.value == s.shown.data)
    && (s.shown.error.Some? ==> !s.shown.isFetching)
    && (s.ownerId in s.runs ==> s.shown.error == ErrorOf(s.runs[s.ownerId]))
  }

  /** The error an owner shows: its own, once it has settled, unless it was aborted. */
  function ErrorOf(i: Invocation): Option<Failure> {
    if i.aborted then None else i.failure
  }

  ghost predicate IdsFit(s: State) {
    && (forall id :: id in s.runs ==> id <= s.ownerId)
    && (s.current.Some? ==> s.current.value <= s.ownerId)
  }

  ghost predicate HistoryFits(s: State) {
    && (forall id :: id in s.runs && !s.runs[id].settled ==> s.runs[id].failure.None?)
    && (forall i, j :: 0 <= i < j < |s.history| ==> s.history[i].id < s.history[j].id)
    && (forall i :: 0 <= i < |s.history| ==>
                      s.history[i].id in s.runs && s.runs[s.history[i].id] == Invocation(false, true, None))
  }

  ghost predicate DataFits(s: State) {
    && s.sinceReset <= |s.history|
    && s.hasSettled == s.hasData
    && (s.mounted ==> (s.hasData <==> |s.history| > s.sinceReset))
    && (s.mounted ==> s.shown.data == if s.hasData then s.history[|s.history| - 1].page else s.config.initial)
  }

  ghost predicate Inv(s: State) {
    IdsFit(s) && HistoryFits(s) && DataFits(s) && (s.mounted ==> FlagsFit(s))
  }

  /** Aborting touches nothing but invocations that have not settled. */
  lemma AbortingKeepsRuns(runs: map<nat, Invocation>, id: nat)
    ensures Aborted(runs, id).Keys == runs.Keys
    ensures forall i :: i in runs ==> Aborted(runs, id)[i].settled == runs[i].settled
    ensures forall i :: i in runs && runs[i].settled ==> Aborted(runs, id)[i] == runs[i]
    ensures forall i :: i in runs && (runs[i].settled || runs[i].failure.None?) ==>
                          Aborted(runs, id)[i].failure == runs[i].failure
  {
  }

  lemma AbortKeepsInv(s: State, id: nat)
    requires Inv(s)
    ensures Inv(s.(runs := Aborted(s.runs, id)))
  {
    AbortingKeepsRuns(s.runs, id);
  }

  lemma AbortCurrentKeepsInv(s: State)
    requires Inv(s)
    ensures Inv(s.(runs := AbortedCurrent(s)))
  {
    if s.current.Some? {
      AbortKeepsInv(s, s.current.value);
    }
  }

  lemma StartKeepsInv(s: State, automatic: bool, aborted: bool)
    requires Inv(s)
    ensures Inv(Start(s, automatic, aborted))
  {
    AbortCurrentKeepsInv(s);
    var s1 := s.(runs := AbortedCurrent(s));
    var t := Start(s, automatic, aborted);
    assert t.runs == s1.runs[s1.ownerId + 1 := Invocation(aborted, false, None)];
  }

  predicate IsApplied(s: State, id: nat)
    requires IsRunning(s, id)
  {
    id == s.ownerId && !s.runs[id].aborted && s.mounted
  }

  lemma AppliedHistoryFits(s: State, id: nat, page: Page)
    requires Inv(s) && IsRunning(s, id) && IsApplied(s, id)
    ensures HistoryFits(Succeed(s, id, page)) && DataFits(Succeed(s, id, page))
  {
    assert forall i :: 0 <= i < |s.history| ==> s.history[i].id in s.runs;
  }

  lemma DroppedKeepsInv(s: State, id: nat, page: Page)
    requires Inv(s) && IsRunning(s, id) && !IsApplied(s, id)
    ensures Inv(Succeed(s, id, page))
  {
  }

  lemma SucceedKeepsInv(s: State, id: nat, page: Page)
    requires Inv(s) && IsRunning(s, id)
    ensures Inv(Succeed(s, id, page))
  {
    if IsApplied(s, id) {
      AppliedHistoryFits(s, id, page);
    } else {
      DroppedKeepsInv(s, id, page);
    }
  }

  lemma FailKeepsInv(s: State, id: nat, error: Failure)
    requires Inv(s) && IsRunning(s, id)
    ensures Inv(Fail(s, id, error))
  {
  }

  lemma ClearKeepsInv(s: State)
    requires Inv(s)
    ensures s.mounted ==> Inv(Disable(s))
    ensures Inv(Unmount(s))
  {
    AbortCurrentKeepsInv(s);
  }

  lemma ResetKeepsInv(s: State)
    requires Inv(s)
    ensures Inv(Reset(s))
  {
  }

  lemma StepKeepsInv(s: State, e: Event)
    requires Inv(s) && Enabled(s, e)
    ensures Inv(Next(s, e))
  {
    match e
    case Starts(automatic, aborted) => StartKeepsInv(s, automatic, aborted);
    case AbortRun(id) => AbortKeepsInv(s, id);
    case Succeeds(id, page) => SucceedKeepsInv(s, id, page);
    case Fails(id, error) => FailKeepsInv(s, id, error);
    case Resets => ResetKeepsInv(s);
    case _ => ClearKeepsInv(s);
  }

  lemma {:induction false} RunKeepsInv(s: State, events: seq<Event>, t: State)
    requires Inv(s) && Runs(s, events, t)
    ensures Inv(t)
    decreases |events|
  {
    if events != [] {
      StepKeepsInv(s, events[0]);
      RunKeepsInv(Next(s, events[0]), events[1..], t);
    }
  }

  // ---------------------------------------------------------------- results

  lemma MountedFits(config: Config)
    ensures Inv(Mounted(config))
  {
  }

  /**
   While the hook is mounted: it is fetching exactly when an unsettled invocation owns the
   current id, loading exactly when no data has settled either, and it shows the previous
   page only while fetching. Its error is that of the owner, unless the owner was aborted.
   */
  lemma FlagsFollowTheOwner(config: Config, events: seq<Event>, t: State)
    requires Runs(Mounted(config), events, t) && t.mounted
    ensures t.shown.isFetching <==> IsRunning(t, t.ownerId)
    ensures t.shown.isLoading <==> IsRunning(t, t.ownerId) && |t.history| == t.sinceReset
    ensures t.shown.previousData.Some? ==> t.shown.isFetching && t.shown.previousData.value == t.shown.data
    ensures t.shown.error.Some? ==> !t.shown.isFetching
    ensures t.ownerId in t.runs ==> t.shown.error == ErrorOf(t.runs[t.ownerId])
  {
    MountedFits(config);
    RunKeepsInv(Mounted(config), events, t);
  }

  /**
   Applied results come from invocations that started in that order, were never aborted
   and were applied once; the newest of them since the last reset is what is shown.
   */
  lemma ResultsAreAppliedInOrder(config: Config, events: seq<Event>, t: State)
    requires Runs(Mounted(config), events, t)
    ensures forall i, j :: 0 <= i < j < |t.history| ==> t.history[i].id < t.history[j].id
    ensures forall i :: 0 <= i < |t.history| ==>
                          t.history[i].id in t.runs && t.runs[t.history[i].id] == Invocation(false, true, None)
    ensures t.sinceReset <= |t.history|
    ensures t.mounted ==>
              t.shown.data == if |t.history| > t.sinceReset then t.history[|t.history| - 1].page else config.initial
  {
    MountedFits(config);
    RunKeepsInv(Mounted(config), events, t);
    ConfigIsFixed(Mounted(config), events, t);
  }

  lemma {:induction false} ConfigIsFixed(s: State, events: seq<Event>, t: State)
    requires Runs(s, events, t)
    ensures t.config == s.config
    decreases |events|
  {
    if events != [] {
      ConfigIsFixed(Next(s, events[0]), events[1..], t);
    }
  }

  /** Whatever is running has an id of at most `floor`, and does not own what is shown. */
  predicate IsOutdated(s: State, floor: nat) {
    floor <= s.ownerId && (s.ownerId == floor ==> floor !in s.runs)
  }

  predicate AppliesOnlyAfter(s: State, floor: nat, t: State) {
    && |s.history| <= |t.history| && t.history[..|s.history|] == s.history
    && forall i :: |s.history| <= i < |t.history| ==> t.history[i].id > floor
  }

  lemma OutdatedStep(s: State, e: Event, floor: nat)
    requires Inv(s) && Enabled(s, e) && IsOutdated(s, floor)
    ensures IsOutdated(Next(s, e), floor) && AppliesOnlyAfter(s, floor, Next(s, e))
  {
  }

  lemma {:induction false} OutdatedRun(s: State, events: seq<Event>, t: State, floor: nat)
    requires Inv(s) && IsOutdated(s, floor) && Runs(s, events, t)
    ensures AppliesOnlyAfter(s, floor, t)
    decreases |events|
  {
    if events != [] {
      var s1 := Next(s, events[0]);
      OutdatedStep(s, events[0], floor);
      StepKeepsInv(s, events[0]);
      OutdatedRun(s1, events[1..], t, floor);
      PrefixOfPrefix(s.history, s1.history, t.history);
      forall i | |s.history| <= i < |t.history|
        ensures t.history[i].id > floor
      {
        if i < |s1.history| {
          assert t.history[i] == t.history[..|s1.history|][i];
        }
      }
    }
  }

  lemma PrefixOfPrefix<T>(a: seq<T>, b: seq<T>, c: seq<T>)
    requires |a| <= |b| <= |c| && b[..|a|] == a && c[..|b|] == b
    ensures c[..|a|] == a
  {
  }

  /** Nothing that started before a disable or a reset is ever applied after it. */
  lemma NothingOlderIsApplied(s: State, e: Event, events: seq<Event>, t: State)
    requires Inv(s) && Enabled(s, e) && (e.Disables? || e.Resets?) && Runs(Next(s, e), events, t)
    ensures AppliesOnlyAfter(s, s.ownerId, t)
    ensures forall id :: id in s.runs ==> id <= s.ownerId
  {
    var s1 := Next(s, e);
    StepKeepsInv(s, e);
    OutdatedRun(s1, events, t, s1.ownerId);
  }
}
