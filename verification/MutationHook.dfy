/**
 The lifecycle of the mutation hooks. Mutations overlap and are never cancelled; the
 newest invocation since the last reset alone may write what the hook shows, and the
 hook is pending until every invocation has settled. Observers run between an
 invocation's answer and its write, so anything may happen in between.
 */
module MutationHook {
  import opened Options

  type Data = nat
  type Failure = nat

  datatype Outcome = Success(data: Data) | Error(error: Failure)

  /** `Observed` has its answer and its observers have been started. */
  datatype Phase = Executing | Observed(outcome: Outcome) | Settled(outcome: Outcome)

  /** An invocation that wrote what the hook shows, and its outcome. */
  datatype Written = Written(id: nat, outcome: Outcome)

  /** `writers` lists these in order, and `sinceReset` counts those before the last reset. */
  datatype State = State(
    mounted: bool,
    latestId: nat,
    activeCount: nat,
    runs: map<nat, Phase>,
    isPending: bool,
    data: Option<Data>,
    error: Option<Failure>,
    writers: seq<Written>,
    sinceReset: nat)

  const MOUNTED := State(true, 0, 0, map[], false, None, None, [], 0)

  // ---------------------------------------------------------------- the steps

  /** An invocation starts; while mounted it clears the error and the hook becomes pending. */
  function Start(s: State): State {
    var id := s.latestId + 1;
    s.(latestId := id,
       activeCount := s.activeCount + 1,
       runs := s.runs[id := Executing],
       isPending := s.mounted || s.isPending,
       error := if s.mounted then None else s.error)
  }

  /** The last statement of every invocation. */
  function Finish(s: State, id: nat, outcome: Outcome): State {
    var count := if s.activeCount > 0 then s.activeCount - 1 else 0;
    s.(activeCount := count,
       runs := s.runs[id := Settled(outcome)],
       isPending := if s.mounted then count > 0 else s.isPending)
  }

  /** The request of an invocation answers: its observers start, unless the hook is unmounted. */
  function Answer(s: State, id: nat, outcome: Outcome): State {
    if s.mounted then s.(runs := s.runs[id := Observed(outcome)]) else Finish(s, id, outcome)
  }

  function Write(s: State, id: nat, outcome: Outcome): State {
    if !s.mounted || id != s.latestId then s
    else
      match outcome
      case Success(data) => s.(data := Some(data), writers := s.writers + [Written(id, outcome)])
      case Error(error) => s.(error := Some(error), writers := s.writers + [Written(id, outcome)])
  }

  /** The observers of an invocation are done. */
  function Conclude(s: State, id: nat): State
    requires id in s.runs && s.runs[id].Observed?
  {
    Finish(Write(s, id, s.runs[id].outcome), id, s.runs[id].outcome)
  }

  function Reset(s: State): State {
    var s1 := s.(latestId := s.latestId + 1);
    if s.mounted then s1.(data := None, error := None, sinceReset := |s.writers|) else s1
  }

  // ---------------------------------------------------------------- runs

  datatype Event = Starts | Answers(id: nat, outcome: Outcome) | Concludes(id: nat) | Resets | Unmounts

  predicate Enabled(s: State, e: Event) {
    match e
    case Answers(id, _) => id in s.runs && s.runs[id].Executing?
    case Concludes(id) => id in s.runs && s.runs[id].Observed?
    case _ => true
  }

  function Next(s: State, e: Event): State
    requires Enabled(s, e)
  {
    match e
    case Starts => Start(s)
    case Answers(id, outcome) => Answer(s, id, outcome)
    case Concludes(id) => Conclude(s, id)
    case Resets => Reset(s)
    case Unmounts => s.(mounted := false)
  }

  predicate Runs(s: State, events: seq<Event>, t: State)
    decreases |events|
  {
    if events == [] then s == t else Enabled(s, events[0]) && Runs(Next(s, events[0]), events[1..], t)
  }

  lemma {:induction false} RunGoesOn(s: State, events: seq<Event>, t: State, e: Event)
    requires Runs(s, events, t) && Enabled(t, e)
    ensures Runs(s, events + [e], Next(t, e))
    decreases |events|
  {
    if events == [] {
      assert [e][1..] == [];
    } else {
      RunGoesOn(Next(s, events[0]), events[1..], t, e);
      assert (events + [e])[1..] == events[1..] + [e];
    }
  }

  // ---------------------------------------------------------------- what every run keeps

  function Unsettled(runs: map<nat, Phase>): set<nat> {
    set id | id in runs && !runs[id].Settled?
  }

  ghost predicate CountFits(s: State) {
    && s.activeCount == |Unsettled(s.runs)|
    && (s.mounted ==> (s.isPending <==> s.activeCount > 0))
    && forall id :: id in s.runs ==> id <= s.latestId
  }

  /** What the hook shows, by what has become of the newest claim. */
  ghost predicate ShownFits(s: State) {
    && s.sinceReset <= |s.writers|
    && s.data == LastSuccess(s.writers[s.sinceReset..])
    && if s.latestId !in s.runs then s.data.None? && s.error.None?
       else
         match s.runs[s.latestId]
         case Settled(Success(data)) => s.data == Some(data) && s.error.None?
         case Settled(Error(error)) => s.error == Some(error)
         case _ => s.error.None?
  }

  function LastSuccess(ws: seq<Written>): Option<Data> {
    if ws == [] then None
    else if ws[|ws| - 1].outcome.Success? then Some(ws[|ws| - 1].outcome.data)
    else LastSuccess(ws[..|ws| - 1])
  }

  ghost predicate WritersFit(s: State) {
    && (forall i, j :: 0 <= i < j < |s.writers| ==> s.writers[i].id < s.writers[j].id)
    && (forall i :: 0 <= i < |s.writers| ==>
                      && s.writers[i].id in s.runs
                      && s.runs[s.writers[i].id] == Settled(s.writers[i].outcome))
  }

  ghost predicate Inv(s: State) {
    CountFits(s) && WritersFit(s) && (s.mounted ==> ShownFits(s))
  }

  lemma UnsettledAfter(runs: map<nat, Phase>, id: nat, phase: Phase)
    ensures Unsettled(runs[id := phase])
         == if phase.Settled? then Unsettled(runs) - {id} else Unsettled(runs) + {id}
  {
  }

  lemma StartKeepsInv(s: State)
    requires Inv(s)
    ensures Inv(Start(s))
  {
    UnsettledAfter(s.runs, s.latestId + 1, Executing);
  }

  lemma AnswerKeepsInv(s: State, id: nat, outcome: Outcome)
    requires Inv(s) && id in s.runs && s.runs[id].Executing?
    ensures Inv(Answer(s, id, outcome))
  {
    UnsettledAfter(s.runs, id, Observed(outcome));
    UnsettledAfter(s.runs, id, Settled(outcome));
    assert id in Unsettled(s.runs);
    assert Unsettled(s.runs) + {id} == Unsettled(s.runs);
  }

  lemma OneMoreWrite(writers: seq<Written>, since: nat, w: Written)
    requires since <= |writers|
    ensures LastSuccess((writers + [w])[since..])
         == if w.outcome.Success? then Some(w.outcome.data) else LastSuccess(writers[since..])
  {
    var recent := writers[since..];
    assert (writers + [w])[since..] == recent + [w];
    assert (recent + [w])[..|recent|] == recent;
  }

  lemma ConcludeCounts(s: State, id: nat)
    requires CountFits(s) && id in s.runs && s.runs[id].Observed?
    ensures CountFits(Conclude(s, id))
  {
    UnsettledAfter(s.runs, id, Settled(s.runs[id].outcome));
    assert id in Unsettled(s.runs);
  }

  lemma ConcludeShows(s: State, id: nat)
    requires ShownFits(s) && s.mounted && id in s.runs && s.runs[id].Observed?
    ensures ShownFits(Conclude(s, id))
  {
    OneMoreWrite(s.writers, s.sinceReset, Written(id, s.runs[id].outcome));
  }

  lemma ConcludeWrites(s: State, id: nat)
    requires WritersFit(s) && CountFits(s) && id in s.runs && s.runs[id].Observed?
    ensures WritersFit(Conclude(s, id))
  {
  }

  lemma ConcludeKeepsInv(s: State, id: nat)
    requires Inv(s) && id in s.runs && s.runs[id].Observed?
    ensures Inv(Conclude(s, id))
  {
    ConcludeCounts(s, id);
    ConcludeWrites(s, id);
    if s.mounted {
      ConcludeShows(s, id);
    }
  }

  lemma StepKeepsInv(s: State, e: Event)
    requires Inv(s) && Enabled(s, e)
    ensures Inv(Next(s, e))
  {
    match e
    case Starts => StartKeepsInv(s);
    case Answers(id, outcome) => AnswerKeepsInv(s, id, outcome);
    case Concludes(id) => ConcludeKeepsInv(s, id);
    case _ =>
  }

  lemma {:induction false} RunKeepsInv(s: State, events: seq<Event>, t: State)
    requires Inv(s) && Runs(s, events, t)
    ensures Inv(t)
    decreases |events|
  {
    if events != [] {
      StepKeepsInv(s, events[0]);
      RunKeepsInv(Next(s, events[0]), events[1..], t);
    }
  }

  // ---------------------------------------------------------------- results

  /** While mounted the hook is pending exactly when some invocation has not settled. */
  lemma PendingWhileUnsettled(events: seq<Event>, t: State)
    requires Runs(MOUNTED, events, t) && t.mounted
    ensures t.isPending <==> exists id :: id in t.runs && !t.runs[id].Settled?
  {
    RunKeepsInv(MOUNTED, events, t);
    assert forall id :: id in t.runs && !t.runs[id].Settled? ==> id in Unsettled(t.runs);
    if t.isPending {
      assert Unsettled(t.runs) != {};
      var id :| id in Unsettled(t.runs);
    }
  }

  /**
   What the hook shows follows the newest claim: a reset clears it, the newest invocation
   shows no error until it settles, its data once it succeeds and its error once it fails;
   data is that of the last successful write since the last reset.
   */
  lemma ShownFollowsTheNewest(events: seq<Event>, t: State)
    requires Runs(MOUNTED, events, t) && t.mounted
    ensures ShownFits(t)
  {
    RunKeepsInv(MOUNTED, events, t);
  }

  /** Every write is by the invocation that is newest then, so writers come in the order they started. */
  lemma WritersComeInOrder(events: seq<Event>, t: State)
    requires Runs(MOUNTED, events, t)
    ensures forall i, j :: 0 <= i < j < |t.writers| ==> t.writers[i].id < t.writers[j].id
  {
    RunKeepsInv(MOUNTED, events, t);
  }

  predicate WritesOnlyAfter(s: State, floor: nat, t: State) {
    && |s.writers| <= |t.writers| && t.writers[..|s.writers|] == s.writers
    && forall i :: |s.writers| <= i < |t.writers| ==> t.writers[i].id > floor
  }

  /** No invocation up to `floor` is the newest claim, nor will be. */
  predicate IsOutdated(s: State, floor: nat) {
    floor <= s.latestId && (s.latestId == floor ==> floor !in s.runs)
  }

  lemma OutdatedStep(s: State, e: Event, floor: nat)
    requires Inv(s) && Enabled(s, e) && IsOutdated(s, floor)
    ensures IsOutdated(Next(s, e), floor) && WritesOnlyAfter(s, floor, Next(s, e))
  {
  }

  lemma {:induction false} OutdatedRun(s: State, events: seq<Event>, t: State, floor: nat)
    requires Inv(s) && IsOutdated(s, floor) && Runs(s, events, t)
    ensures WritesOnlyAfter(s, floor, t)
    decreases |events|
  {
    if events != [] {
      var s1 := Next(s, events[0]);
      OutdatedStep(s, events[0], floor);
      StepKeepsInv(s, events[0]);
      OutdatedRun(s1, events[1..], t, floor);
      assert t.writers[..|s.writers|] == t.writers[..|s1.writers|][..|s.writers|];
      forall i | |s.writers| <= i < |t.writers|
        ensures t.writers[i].id > floor
      {
        if i < |s1.writers| {
          assert t.writers[i] == t.writers[..|s1.writers|][i];
        }
      }
    }
  }

  /** After a reset nothing that started before it writes, though it is still awaited. */
  lemma NothingOlderWrites(s: State, events: seq<Event>, t: State)
    requires Inv(s) && Runs(Reset(s), events, t)
    ensures WritesOnlyAfter(s, s.latestId, t)
    ensures forall id :: id in s.runs ==> id <= s.latestId
    ensures Reset(s).isPending == s.isPending
  {
    StepKeepsInv(s, Resets);
    OutdatedRun(Reset(s), events, t, s.latestId + 1);
  }
}
