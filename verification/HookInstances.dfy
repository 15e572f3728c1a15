/**
 The hooks as they run: the references and states of one hook instance, and what each
 stretch of code between two awaits does to them. Whatever happens to one instance, in
 any order, is a run.
 */
module HookInstances {
  import opened Options
  import Q = QueryHook
  import M = MutationHook

  /** What an observer does, apart from starting further steps. */
  datatype Observer = Returns | Throws | Unmounts

  /** How many observers run: those up to the first that unmounts the hook. */
  function Ran(observers: seq<Observer>): nat {
    if observers == [] then 0
    else var n := |observers| - 1;
      if Unmounts in observers[..n] then Ran(observers[..n]) else n + 1
  }

  /** Runs observers while the hook is mounted; one that throws does not stop the next. */
  method RunObserverSequence(observers: seq<Observer>, mounted: bool) returns (ran: nat, reported: nat, alive: bool)
    ensures ran == if mounted then Ran(observers) else 0
    ensures ran <= |observers| && alive == (mounted && Unmounts !in observers)
    ensures reported == |set i | 0 <= i < ran && observers[i].Throws?|
  {
    ran, reported, alive := 0, 0, mounted;
    ghost var thrown: set<nat> := {};
    while ran < |observers| && alive
      invariant ran <= |observers|
      invariant alive == (mounted && Unmounts !in observers[..ran])
      invariant ran == if mounted then Ran(observers[..ran]) else 0
      invariant !alive && mounted ==> Ran(observers) == ran && Unmounts in observers
      invariant thrown == (set i | 0 <= i < ran && observers[i].Throws?) && reported == |thrown|
      decreases |observers| - ran, alive
    {
      var observer := observers[ran];
      assert observers[..ran + 1][..ran] == observers[..ran];
      if observer.Unmounts? {
        alive := false;
        RanStops(observers, ran);
      } else if observer.Throws? {
        reported := reported + 1;
        thrown := thrown + {ran};
      }
      ran := ran + 1;
    }
    assert ran == |observers| ==> observers[..ran] == observers;
  }

  lemma {:induction false} RanStops(observers: seq<Observer>, i: nat)
    requires i < |observers| && Unmounts !in observers[..i] && observers[i].Unmounts?
    ensures Ran(observers) == i + 1 && Ran(observers[..i + 1]) == i + 1
  {
    var n := |observers| - 1;
    assert observers[..i + 1][..i] == observers[..i];
    if i < n {
      assert observers[..n][..i] == observers[..i];
      RanStops(observers[..n], i);
      assert observers[..n][i] in observers[..n];
    }
  }

  /** One instance of a list hook: `useList` on top of `useAutoQuery`. */
  class QueryInstance {
    const config: Q.Config
    var mountRef: bool
    var ownerIdRef: nat
    var invocations: map<nat, Q.Invocation>
    var managed: Option<nat>
    var hasDataRef: bool
    var hasSettledRef: bool
    var isLoading: bool
    var isFetching: bool
    var error: Option<Q.Failure>
    var data: Q.Page
    var previousData: Option<Q.Page>
    ghost var history: seq<Q.Applied>
    ghost var sinceReset: nat
    ghost var log: seq<Q.Event>

    ghost function Visible(): Q.Shown
      reads this
    {
      Q.Shown(isLoading, isFetching, error, data, previousData)
    }

    ghost function Now(): Q.State
      reads this
    {
      Q.State(config, mountRef, ownerIdRef, invocations, managed, hasDataRef, hasSettledRef,
              Visible(), history, sinceReset)
    }

    /** What has happened to this instance is a run. */
    ghost predicate Valid()
      reads this
    {
      Q.Runs(Q.Mounted(config), log, Now())
    }

    constructor (config: Q.Config)
      ensures this.config == config
      ensures Valid() && Now() == Q.Mounted(config) && log == []
    {
      this.config := config;
      mountRef, ownerIdRef, invocations, managed := true, 0, map[], None;
      hasDataRef, hasSettledRef := false, false;
      isLoading, isFetching, error, data, previousData := false, false, None, config.initial, None;
      history, sinceReset := [], 0;
      log := [];
    }

    /** Every step that this instance can take is one of the protocol, so that all its theorems are about it. */
    method Perform(e: Q.Event)
      requires Valid() && Q.Enabled(Now(), e)
      modifies this
      ensures Now() == Q.Next(old(Now()), e)
      ensures Valid() && log == old(log) + [e]
    {
      match e {
        case Starts(automatic, aborted) => var _ := RunWithCallbacks(automatic, aborted);
        case AbortRun(id) => AbortInvocation(id);
        case Succeeds(id, page) => Resolve(id, page);
        case Fails(id, failure) => Reject(id, failure);
        case Disables => RunDisabledEffect();
        case Resets => Reset();
        case Unmounts => Unmount();
      }
      log := old(log) + [e];
      Q.RunGoesOn(Q.Mounted(config), old(log), old(Now()), e);
    }

    /** What a mounted instance shows at any time, whatever happened before. */
    lemma ShowsItsOwner()
      requires Valid() && mountRef
      ensures isFetching <==> ownerIdRef in invocations && !invocations[ownerIdRef].settled
      ensures isLoading <==> isFetching && |history| == sinceReset
      ensures data == if |history| > sinceReset then history[|history| - 1].page else config.initial
    {
      Q.FlagsFollowTheOwner(config, log, Now());
      Q.ResultsAreAppliedInOrder(config, log, Now());
    }

    method AbortInvocation(id: nat)
      modifies this`invocations
      ensures invocations == Q.Aborted(old(invocations), id)
    {
      if id in invocations && !invocations[id].settled {
        invocations := invocations[id := Q.Invocation(true, false, None)];
      }
    }

    method AbortManaged()
      modifies this`invocations
      ensures invocations == Q.AbortedCurrent(old(Now()))
    {
      if managed.Some? {
        AbortInvocation(managed.value);
      }
    }

    method RunWithCallbacks(automatic: bool, aborted: bool) returns (myId: nat)
      modifies this
      ensures Now() == Q.Start(old(Now()), automatic, aborted) && myId == ownerIdRef
    {
      ShowFetching(automatic);
      AbortManaged();
      ownerIdRef := ownerIdRef + 1;
      myId := ownerIdRef;
      managed := Some(myId);
      invocations := invocations[myId := Q.Invocation(aborted, false, None)];
    }

    method ShowFetching(automatic: bool)
      modifies this`isLoading, this`isFetching, this`error, this`previousData
      ensures Visible() == Q.Fetching(old(Now()), automatic)
    {
      if mountRef {
        if automatic {
          isLoading := !hasDataRef;
        }
        isFetching := true;
        error := None;
        if !hasDataRef {
          isLoading := true;
        }
        if config.keepPrevious && hasSettledRef {
          previousData := Some(data);
        }
      }
    }

    method Resolve(myId: nat, page: Q.Page)
      requires Q.IsRunning(Now(), myId)
      modifies this
      ensures Now() == Q.Succeed(old(Now()), myId, page)
    {
      var aborted := invocations[myId].aborted;
      invocations := invocations[myId := Q.Invocation(aborted, true, None)];
      if myId != ownerIdRef {
        return;
      }
      if aborted {
        ConvergeAborted();
        return;
      }
      if !mountRef {
        return;
      }
      Apply(page);
      hasSettledRef, hasDataRef := true, true;
      history := history + [Q.Applied(myId, page)];
    }

    method Apply(page: Q.Page)
      modifies this`isLoading, this`isFetching, this`data, this`previousData
      ensures Visible() == Q.Shown(false, false, error, page, None)
    {
      data, previousData := page, None;
      isLoading, isFetching := false, false;
    }

    method ConvergeAborted()
      modifies this`isLoading, this`isFetching, this`previousData
      ensures Visible() == Q.Converge(old(Now()), error)
    {
      if mountRef {
        if !hasDataRef {
          isLoading := false;
        }
        isFetching := false;
        previousData := None;
      }
    }

    method Reject(myId: nat, failure: Q.Failure)
      requires Q.IsRunning(Now(), myId)
      modifies this
      ensures Now() == Q.Fail(old(Now()), myId, failure)
    {
      var aborted := invocations[myId].aborted;
      invocations := invocations[myId := Q.Invocation(aborted, true, Some(failure))];
      if myId != ownerIdRef {
        return;
      }
      if aborted {
        ConvergeAborted();
        return;
      }
      if !mountRef {
        return;
      }
      error := Some(failure);
      if !hasDataRef {
        isLoading := false;
      }
      isFetching := false;
      previousData := None;
    }

    method RunDisabledEffect()
      requires mountRef
      modifies this
      ensures Now() == Q.Disable(old(Now()))
    {
      ownerIdRef := ownerIdRef + 1;
      AbortManaged();
      isLoading := false;
      isFetching := false;
      previousData := None;
    }

    method Reset()
      modifies this
      ensures Now() == Q.Reset(old(Now()))
    {
      hasSettledRef := false;
      ownerIdRef := ownerIdRef + 1;
      hasDataRef := false;
      sinceReset := |history|;
      ShowInitial();
    }

    method ShowInitial()
      modifies this`isLoading, this`isFetching, this`error, this`data, this`previousData
      ensures Visible() == Q.Show(old(Now()), Q.Shown(false, false, None, config.initial, None))
    {
      if mountRef {
        data, previousData, error := config.initial, None, None;
        isLoading, isFetching := false, false;
      }
    }

    method Unmount()
      modifies this
      ensures Now() == Q.Unmount(old(Now()))
    {
      AbortManaged();
      managed := None;
      mountRef := false;
    }
  }

  /** One instance of a mutation hook. */
  class MutationInstance {
    var mountRef: bool
    var latestIdRef: nat
    var activeCountRef: nat
    var invocations: map<nat, M.Phase>
    var isPending: bool
    var data: Option<M.Data>
    var error: Option<M.Failure>
    ghost var writers: seq<M.Written>
    ghost var sinceReset: nat
    ghost var log: seq<M.Event>

    ghost function Now(): M.State
      reads this
    {
      M.State(mountRef, latestIdRef, activeCountRef, invocations, isPending, data, error, writers, sinceReset)
    }

    /** What has happened to this instance is a run. */
    ghost predicate Valid()
      reads this
    {
      M.Runs(M.MOUNTED, log, Now())
    }

    constructor ()
      ensures Valid() && Now() == M.MOUNTED && log == []
    {
      mountRef, latestIdRef, activeCountRef, invocations := true, 0, 0, map[];
      isPending, data, error, writers, sinceReset := false, None, None, [], 0;
      log := [];
    }

    /** Every step that this instance can take is one of the protocol, so that all its theorems are about it. */
    method Perform(e: M.Event)
      requires Valid() && M.Enabled(Now(), e)
      modifies this
      ensures Now() == M.Next(old(Now()), e)
      ensures Valid() && log == old(log) + [e]
    {
      match e {
        case Starts => var _ := ExecuteMutate();
        case Answers(id, outcome) => AnswerMutate(id, outcome);
        case Concludes(id) => ConcludeMutate(id);
        case Resets => Reset();
        case Unmounts => mountRef := false;
      }
      log := old(log) + [e];
      M.RunGoesOn(M.MOUNTED, old(log), old(Now()), e);
    }

    /** What a mounted instance shows at any time, whatever happened before. */
    lemma ShowsItsNewest()
      requires Valid() && mountRef
      ensures isPending <==> exists id :: id in invocations && !invocations[id].Settled?
      ensures sinceReset <= |writers| && data == M.LastSuccess(writers[sinceReset..])
      ensures latestIdRef in invocations && invocations[latestIdRef].Settled? ==>
                var outcome := invocations[latestIdRef].outcome;
                if outcome.Error? then error == Some(outcome.error) else error.None? && data == Some(outcome.data)
      ensures forall i, j :: 0 <= i < j < |writers| ==> writers[i].id < writers[j].id
    {
      M.PendingWhileUnsettled(log, Now());
      M.ShownFollowsTheNewest(log, Now());
      M.WritersComeInOrder(log, Now());
    }

    method ExecuteMutate() returns (myId: nat)
      modifies this
      ensures Now() == M.Start(old(Now())) && myId == latestIdRef
    {
      latestIdRef := latestIdRef + 1;
      myId := latestIdRef;
      activeCountRef := activeCountRef + 1;
      invocations := invocations[myId := M.Executing];
      if mountRef {
        isPending := true;
        error := None;
      }
    }

    /** The request answers; while mounted, the observers run before anything is written. */
    method AnswerMutate(myId: nat, outcome: M.Outcome)
      requires myId in invocations && invocations[myId].Executing?
      modifies this
      ensures Now() == M.Answer(old(Now()), myId, outcome)
    {
      if mountRef {
        invocations := invocations[myId := M.Observed(outcome)];
      } else {
        FinishMutate(myId, outcome);
      }
    }

    method ConcludeMutate(myId: nat)
      requires myId in invocations && invocations[myId].Observed?
      modifies this
      ensures Now() == M.Conclude(old(Now()), myId)
    {
      var outcome := invocations[myId].outcome;
      if mountRef && myId == latestIdRef {
        match outcome {
          case Success(result) => data := Some(result);
          case Error(failure) => error := Some(failure);
        }
        writers := writers + [M.Written(myId, outcome)];
      }
      FinishMutate(myId, outcome);
    }

    method FinishMutate(myId: nat, outcome: M.Outcome)
      modifies this
      ensures Now() == M.Finish(old(Now()), myId, outcome)
    {
      invocations := invocations[myId := M.Settled(outcome)];
      if activeCountRef > 0 {
        activeCountRef := activeCountRef - 1;
      }
      if mountRef {
        isPending := activeCountRef > 0;
      }
    }

    method Reset()
      modifies this
      ensures Now() == M.Reset(old(Now()))
    {
      latestIdRef := latestIdRef + 1;
      if mountRef {
        data, error := None, None;
        sinceReset := |writers|;
      }
    }
  }
}
