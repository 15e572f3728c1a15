/**
 What a query hook shows, told by the events of a run alone: every page was answered, an
 answer to the owner is shown, and every invocation but the current one is aborted.
 */
module QueryResults {
  import opened Options
  import opened QueryHook

  // ---------------------------------------------------------------- what was answered

  lemma {:induction false} AppliedWereAnswered(s: State, events: seq<Event>, t: State)
    requires Runs(s, events, t)
    ensures forall a :: a in t.history ==> a in s.history || Succeeds(a.id, a.page) in events
    decreases |events|
  {
    if events != [] {
      var s1 := Next(s, events[0]);
      AppliedWereAnswered(s1, events[1..], t);
      forall a | a in t.history
        ensures a in s.history || Succeeds(a.id, a.page) in events
      {
        if a in s1.history && a !in s.history {
          assert events[0] == Succeeds(a.id, a.page);
        }
      }
    }
  }

  /**
   In every run each applied result is one that the server answered for that very
   invocation, and what is shown while mounted is such a page, or the initial one.
   */
  lemma ShownWasAnswered(config: Config, events: seq<Event>, t: State)
    requires Runs(Mounted(config), events, t)
    ensures forall a :: a in t.history ==> Succeeds(a.id, a.page) in events
    ensures t.mounted ==> t.shown.data == config.initial || exists id :: Succeeds(id, t.shown.data) in events
  {
    AppliedWereAnswered(Mounted(config), events, t);
    ResultsAreAppliedInOrder(config, events, t);
    if t.mounted && |t.history| > t.sinceReset {
      var a := t.history[|t.history| - 1];
      assert a in t.history && Succeeds(a.id, t.shown.data) in events;
    }
  }

  /** The answer to the owner of a mounted hook, unless it was aborted, is shown and settles the hook. */
  lemma AnswerIsShown(s: State, id: nat, page: Page)
    requires IsRunning(s, id) && IsApplied(s, id)
    ensures
      var t := Next(s, Succeeds(id, page));
      && t.shown == Shown(false, false, s.shown.error, page, None)
      && t.history == s.history + [Applied(id, page)]
  {
  }

  /** Nothing else is: any other answer leaves data, error and history as they are. */
  lemma OtherAnswersAreDropped(s: State, id: nat, page: Page)
    requires IsRunning(s, id) && !IsApplied(s, id)
    ensures
      var t := Next(s, Succeeds(id, page));
      t.shown.data == s.shown.data && t.shown.error == s.shown.error && t.history == s.history
  {
  }

  /** The failure of the owner of a mounted hook, unless it was aborted, is shown beside the data. */
  lemma FailureIsShown(s: State, id: nat, error: Failure)
    requires IsRunning(s, id)
    ensures
      var t := Next(s, Fails(id, error));
      && t.shown.data == s.shown.data && t.history == s.history
      && t.shown.error == if IsApplied(s, id) then Some(error) else s.shown.error
  {
  }

  /** An event that settles an invocation, with an error or without. */
  ghost predicate SettledBy(events: seq<Event>, id: nat, failure: Option<Failure>) {
    match failure
    case Some(error) => Fails(id, error) in events
    case None => exists page :: Succeeds(id, page) in events
  }

  lemma SettledInOneStep(s: State, e: Event, id: nat)
    requires Inv(s) && Enabled(s, e) && id in Next(s, e).runs && Next(s, e).runs[id].settled
    requires id in s.runs ==> !s.runs[id].settled
    ensures SettledBy([e], id, Next(s, e).runs[id].failure)
  {
    assert [e][0] == e;
  }

  lemma MoreEvents(few: seq<Event>, more: seq<Event>, id: nat, failure: Option<Failure>)
    requires SettledBy(few, id, failure) && forall e :: e in few ==> e in more
    ensures SettledBy(more, id, failure)
  {
    if failure.None? {
      var page :| Succeeds(id, page) in few;
      assert Succeeds(id, page) in more;
    }
  }

  lemma SettledThroughStep(s: State, e: Event, id: nat)
    requires IdsFit(s) && Enabled(s, e) && id in s.runs && s.runs[id].settled
    ensures id in Next(s, e).runs && Next(s, e).runs[id] == s.runs[id]
  {
  }

  lemma {:induction false} SettledForGood(s: State, events: seq<Event>, t: State, id: nat)
    requires Inv(s) && Runs(s, events, t) && id in s.runs && s.runs[id].settled
    ensures id in t.runs && t.runs[id] == s.runs[id]
    decreases |events|
  {
    if events != [] {
      StepKeepsInv(s, events[0]);
      SettledThroughStep(s, events[0], id);
      SettledForGood(Next(s, events[0]), events[1..], t, id);
    }
  }

  /** Every invocation that has settled did so by an event of the run, and keeps its outcome. */
  lemma {:induction false} SettlementsWereEvents(s: State, events: seq<Event>, t: State, id: nat)
    requires Inv(s) && Runs(s, events, t) && id in t.runs && t.runs[id].settled
    requires id in s.runs ==> !s.runs[id].settled
    ensures SettledBy(events, id, t.runs[id].failure)
    decreases |events|
  {
    if events != [] {
      var s1 := Next(s, events[0]);
      StepKeepsInv(s, events[0]);
      if id in s1.runs && s1.runs[id].settled {
        SettledInOneStep(s, events[0], id);
        SettledForGood(s1, events[1..], t, id);
        MoreEvents([events[0]], events, id, t.runs[id].failure);
      } else {
        SettlementsWereEvents(s1, events[1..], t, id);
        MoreEvents(events[1..], events, id, t.runs[id].failure);
      }
    }
  }

  // ---------------------------------------------------------------- one invocation at a time

  /** Whatever runs without being aborted is what the abort manager holds. */
  ghost predicate OthersAreAborted(s: State) {
    forall id :: IsRunning(s, id) && !s.runs[id].aborted ==> s.current == Some(id)
  }

  lemma StepAbortsOthers(s: State, e: Event)
    requires OthersAreAborted(s) && Enabled(s, e)
    ensures OthersAreAborted(Next(s, e))
  {
  }

  lemma {:induction false} RunAbortsOthers(s: State, events: seq<Event>, t: State)
    requires OthersAreAborted(s) && Runs(s, events, t)
    ensures OthersAreAborted(t)
    decreases |events|
  {
    if events != [] {
      StepAbortsOthers(s, events[0]);
      RunAbortsOthers(Next(s, events[0]), events[1..], t);
    }
  }

  /** In every run at most one invocation is under way and not aborted: the last one that started. */
  lemma OnlyOneIsNotAborted(config: Config, events: seq<Event>, t: State, a: nat, b: nat)
    requires Runs(Mounted(config), events, t)
    requires IsRunning(t, a) && !t.runs[a].aborted && IsRunning(t, b)
    ensures a == b || t.runs[b].aborted
    ensures t.current == Some(a) && forall id :: id in t.runs ==> id <= t.ownerId
  {
    RunAbortsOthers(Mounted(config), events, t);
    RunKeepsInv(Mounted(config), events, t);
  }

  /** An invocation that starts is new, owns the hook, and leaves every other one aborted or settled. */
  lemma StartTakesOver(s: State, automatic: bool, aborted: bool)
    requires Inv(s) && OthersAreAborted(s)
    ensures
      var t := Next(s, Starts(automatic, aborted));
      var id := t.ownerId;
      && id !in s.runs && id > s.ownerId && t.runs.Keys == s.runs.Keys + {id} && t.current == Some(id)
      && t.runs[id] == Invocation(aborted, false, None)
      && (forall other :: other in s.runs && s.runs[other].settled ==> t.runs[other] == s.runs[other])
      && (forall other :: other in s.runs && !s.runs[other].settled ==> t.runs[other] == Invocation(true, false, None))
      && t.shown.data == s.shown.data && t.history == s.history
  {
    assert s.ownerId + 1 !in s.runs;
    assert forall other :: other in s.runs && !s.runs[other].settled ==> IsRunning(s, other);
  }

  /** Once a hook is disabled or unmounted, whatever still runs is aborted; so is what a caller aborts. */
  lemma NothingRunsOn(s: State, e: Event, id: nat)
    requires Inv(s) && OthersAreAborted(s) && Enabled(s, e) && IsRunning(s, id)
    requires e.Disables? || e.Unmounts? || e == AbortRun(id)
    ensures IsRunning(Next(s, e), id) && Next(s, e).runs[id].aborted
  {
  }

  /** A reset shows what a new hook shows; a disabled hook goes on showing its data and its error. */
  lemma EndingsShow(s: State, e: Event)
    requires Inv(s) && s.mounted && (e.Resets? || e.Disables?)
    ensures
      var t := Next(s, e);
      && t.shown == (if e.Resets? then Mounted(s.config).shown
                     else Shown(false, false, s.shown.error, s.shown.data, None))
      && t.ownerId > s.ownerId && t.history == s.history && t.runs.Keys == s.runs.Keys
  {
  }

  lemma UnmountedStep(s: State, e: Event)
    requires Enabled(s, e) && (!s.mounted || e.Unmounts?)
    ensures !Next(s, e).mounted && Next(s, e).shown == s.shown && Next(s, e).history == s.history
  {
  }

  /** From the unmount on nothing is shown or applied any more, whatever settles. */
  lemma UnmountedShowsNothingNew(s: State, events: seq<Event>, t: State)
    requires Runs(s, [Unmounts] + events, t)
    ensures !t.mounted && t.shown == s.shown && t.history == s.history
  {
    assert ([Unmounts] + events)[1..] == events;
    UnmountedStep(s, Unmounts);
    UnmountedStays(Next(s, Unmounts), events, t);
  }

  lemma {:induction false} UnmountedStays(s: State, events: seq<Event>, t: State)
    requires Runs(s, events, t) && !s.mounted
    ensures !t.mounted && t.shown == s.shown && t.history == s.history
    decreases |events|
  {
    if events != [] {
      UnmountedStep(s, events[0]);
      UnmountedStays(Next(s, events[0]), events[1..], t);
    }
  }

  // ---------------------------------------------------------------- the previous page

  /** A page is kept as the previous one exactly while it is refetched, if the hook keeps it at all. */
  ghost predicate PreviousFits(s: State) {
    s.mounted ==>
      s.shown.previousData
      == if s.config.keepPrevious && s.shown.isFetching && s.hasData then Some(s.shown.data) else None
  }

  lemma StepKeepsPrevious(s: State, e: Event)
    requires Inv(s) && PreviousFits(s) && Enabled(s, e)
    ensures PreviousFits(Next(s, e))
  {
  }

  lemma {:induction false} RunKeepsPrevious(s: State, events: seq<Event>, t: State)
    requires Inv(s) && PreviousFits(s) && Runs(s, events, t)
    ensures PreviousFits(t) && Inv(t) && t.config == s.config
    decreases |events|
  {
    if events != [] {
      StepKeepsInv(s, events[0]);
      StepKeepsPrevious(s, events[0]);
      RunKeepsPrevious(Next(s, events[0]), events[1..], t);
    }
  }

  lemma PreviousPageWhileFetching(config: Config, events: seq<Event>, t: State)
    requires Runs(Mounted(config), events, t) && t.mounted
    ensures t.shown.previousData
         == if config.keepPrevious && t.shown.isFetching && |t.history| > t.sinceReset
            then Some(t.history[|t.history| - 1].page) else None
  {
    RunKeepsPrevious(Mounted(config), events, t);
  }
}
