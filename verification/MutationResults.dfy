/**
 What a mutation hook shows, told by the events of a run alone: every outcome it keeps or
 writes is one that was answered, every answer is kept, and the newest is written.
 */
module MutationResults {
  import opened Options
  import opened MutationHook

  /** An invocation that has its answer. */
  predicate HasOutcome(s: State, id: nat, outcome: Outcome) {
    id in s.runs && (s.runs[id] == Observed(outcome) || s.runs[id] == Settled(outcome))
  }

  lemma StepKeepsOutcome(s: State, e: Event, id: nat, outcome: Outcome)
    requires CountFits(s) && Enabled(s, e) && HasOutcome(s, id, outcome)
    ensures HasOutcome(Next(s, e), id, outcome)
  {
  }

  lemma OutcomeWasAnswered(s: State, e: Event, id: nat, outcome: Outcome)
    requires Enabled(s, e) && HasOutcome(Next(s, e), id, outcome)
    ensures HasOutcome(s, id, outcome) || e == Answers(id, outcome)
  {
  }

  lemma AnswerIsKept(s: State, id: nat, outcome: Outcome)
    requires Enabled(s, Answers(id, outcome))
    ensures HasOutcome(Next(s, Answers(id, outcome)), id, outcome)
  {
  }

  lemma {:induction false} OutcomesAreKept(s: State, events: seq<Event>, t: State, id: nat, outcome: Outcome)
    requires Inv(s) && Runs(s, events, t)
    ensures HasOutcome(t, id, outcome) <==> HasOutcome(s, id, outcome) || Answers(id, outcome) in events
    decreases |events|
  {
    if events != [] {
      var e, s1 := events[0], Next(s, events[0]);
      StepKeepsInv(s, e);
      OutcomesAreKept(s1, events[1..], t, id, outcome);
      if HasOutcome(s, id, outcome) {
        StepKeepsOutcome(s, e, id, outcome);
      }
      if e == Answers(id, outcome) {
        AnswerIsKept(s, id, outcome);
      }
      if HasOutcome(s1, id, outcome) {
        OutcomeWasAnswered(s, e, id, outcome);
      }
    }
  }

  /** In every run an invocation has an outcome exactly when that was answered to it. */
  lemma OutcomesAreThoseAnswered(events: seq<Event>, t: State, id: nat, outcome: Outcome)
    requires Runs(MOUNTED, events, t)
    ensures HasOutcome(t, id, outcome) <==> Answers(id, outcome) in events
  {
    OutcomesAreKept(MOUNTED, events, t, id, outcome);
  }

  /** In every run, whatever was written was answered to the invocation that wrote it. */
  lemma WritersWereAnswered(events: seq<Event>, t: State, i: nat)
    requires Runs(MOUNTED, events, t) && i < |t.writers|
    ensures Answers(t.writers[i].id, t.writers[i].outcome) in events
  {
    RunKeepsInv(MOUNTED, events, t);
    OutcomesAreThoseAnswered(events, t, t.writers[i].id, t.writers[i].outcome);
  }

  /** Data and error, while mounted, are ones that were answered. */
  lemma ShownWasAnswered(events: seq<Event>, t: State)
    requires Runs(MOUNTED, events, t) && t.mounted
    ensures t.data.Some? ==> exists id :: Answers(id, Success(t.data.value)) in events
    ensures t.latestId in t.runs && t.runs[t.latestId].Settled? && t.error.Some? ==>
              Answers(t.latestId, Error(t.error.value)) in events
  {
    RunKeepsInv(MOUNTED, events, t);
    if t.data.Some? {
      var i := LastSuccessWasWritten(t.writers, t.sinceReset, t.data.value);
      WritersWereAnswered(events, t, i);
    }
    if t.latestId in t.runs && t.runs[t.latestId].Settled? {
      OutcomesAreThoseAnswered(events, t, t.latestId, t.runs[t.latestId].outcome);
    }
  }

  lemma {:induction false} LastSuccessWasWritten(ws: seq<Written>, since: nat, data: Data) returns (i: nat)
    requires since <= |ws| && LastSuccess(ws[since..]) == Some(data)
    ensures since <= i < |ws| && ws[i].outcome == Success(data)
    decreases |ws|
  {
    var n := |ws| - 1;
    assert ws[since..][|ws[since..]| - 1] == ws[n];
    if ws[n].outcome.Success? {
      i := n;
    } else {
      assert ws[since..][..|ws[since..]| - 1] == ws[..n][since..];
      i := LastSuccessWasWritten(ws[..n], since, data);
    }
  }

  /** An invocation that starts is new, and the newest; every other one goes on. */
  lemma StartIsNewest(s: State)
    requires Inv(s)
    ensures
      var t := Next(s, Starts);
      && t.latestId > s.latestId && t.latestId !in s.runs && t.runs == s.runs[t.latestId := Executing]
      && t.data == s.data && t.writers == s.writers
      && (s.mounted ==> t.isPending && t.error.None?)
  {
    assert s.latestId + 1 !in s.runs;
  }

  /** Once its observers are done, the newest invocation of a mounted hook shows its outcome; no other shows any. */
  lemma ConcludedIsShown(s: State, id: nat)
    requires Enabled(s, Concludes(id))
    ensures
      var t, outcome := Next(s, Concludes(id)), s.runs[id].outcome;
      if s.mounted && id == s.latestId then
        && t.data == (if outcome.Success? then Some(outcome.data) else s.data)
        && t.error == (if outcome.Error? then Some(outcome.error) else s.error)
        && t.writers == s.writers + [Written(id, outcome)]
      else t.data == s.data && t.error == s.error && t.writers == s.writers
  {
  }

  /** A reset of a mounted hook clears what is shown; what is under way goes on, and is still waited for. */
  lemma ResetClears(s: State)
    requires s.mounted
    ensures
      var t := Next(s, Resets);
      && t.data.None? && t.error.None? && t.isPending == s.isPending
      && t.runs == s.runs && t.writers == s.writers && t.latestId > s.latestId
  {
  }

  lemma UnmountedStep(s: State, e: Event)
    requires Enabled(s, e) && (!s.mounted || e.Unmounts?)
    ensures
      var t := Next(s, e);
      !t.mounted && t.data == s.data && t.error == s.error && t.isPending == s.isPending && t.writers == s.writers
  {
  }

  lemma {:induction false} UnmountedStays(s: State, events: seq<Event>, t: State)
    requires Runs(s, events, t) && !s.mounted
    ensures t.data == s.data && t.error == s.error && t.isPending == s.isPending && t.writers == s.writers
    decreases |events|
  {
    if events != [] {
      UnmountedStep(s, events[0]);
      UnmountedStays(Next(s, events[0]), events[1..], t);
    }
  }

  /** From the unmount on nothing is written any more, whatever is answered. */
  lemma UnmountedShowsNothingNew(s: State, events: seq<Event>, t: State)
    requires Runs(s, [Unmounts] + events, t)
    ensures t.data == s.data && t.error == s.error && t.isPending == s.isPending && t.writers == s.writers
  {
    assert ([Unmounts] + events)[1..] == events;
    UnmountedStep(s, Unmounts);
    UnmountedStays(Next(s, Unmounts), events, t);
  }
}
