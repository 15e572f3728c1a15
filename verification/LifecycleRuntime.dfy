/**
 The runtime object: the variables that `init`, `shutdown` and the adapters share, and
 what each stretch of their code between two awaits does to them. Whatever these do to
 one object, in any order, is a run.
 */
module LifecycleRuntime {
  import opened Lifecycle

  class Runtime {
    var lifecycleState: Life
    var initBody: InitStage
    var shutdownBody: DownStage
    var pendingAdapterInits: set<nat>
    var calls: seq<Call>
    var connectionOpen: bool
    const disconnectOnShutdown: bool
    ghost var begun: nat
    ghost var interrupted: set<nat>
    ghost var succeeded: set<nat>
    ghost var log: seq<Event>

    ghost function Now(): State
      reads this
    {
      State(lifecycleState, initBody, shutdownBody, pendingAdapterInits, calls, connectionOpen,
            disconnectOnShutdown, begun, interrupted, succeeded)
    }

    /** What has happened to this object is a run. */
    ghost predicate Valid()
      reads this
    {
      Runs(Created(disconnectOnShutdown), log, Now())
    }

    constructor (disconnectOnShutdown: bool)
      ensures this.disconnectOnShutdown == disconnectOnShutdown
      ensures Valid() && Now() == Created(disconnectOnShutdown) && log == []
    {
      this.disconnectOnShutdown := disconnectOnShutdown;
      lifecycleState, initBody, shutdownBody := Idle, NoInit, NoDown;
      pendingAdapterInits, calls, connectionOpen := {}, [], false;
      begun, interrupted, succeeded := 0, {}, {};
      log := [];
    }

    /** Every step that this object can take is one of the protocol, so that all its theorems are about it. */
    method Perform(e: Event)
      requires Valid() && Enabled(Now(), e)
      modifies this
      ensures Now() == Next(old(Now()), e)
      ensures Valid() && log == old(log) + [e]
    {
      match e {
        case NewCall(kind) => StartCall(kind);
        case InitMoves(ok, open) =>
          if initBody.Connecting? {
            ConnectEnds(ok, open);
          } else if initBody.ConfigHook? {
            ConfigHookEnds(ok, open);
          } else {
            RollbackEnds(ok, open);
          }
        case DownMoves(ok, open) => ResumeShutdown(ok, open);
        case CallMoves(i, ok) => ResumeCall(i, ok);
      }
      log := old(log) + [e];
      RunGoesOn(Created(disconnectOnShutdown), old(log), old(Now()), e);
    }

    /** What holds of this object at any time, whatever was called before. */
    lemma IsSafe()
      requires Valid()
      ensures TearsDown(Now()) || lifecycleState.Stopped? ==> NoInitHook(Now())
      ensures lifecycleState.Ready? ==> connectionOpen
      ensures lifecycleState.Stopped? && disconnectOnShutdown ==> !connectionOpen
      ensures IsQuiet(Now()) || exists e :: Enabled(Now(), e) && !e.NewCall?
    {
      var s := Created(disconnectOnShutdown);
      CreatedFits(disconnectOnShutdown);
      RunKeepsInv(s, log, Now());
      ConnectionFollowsLife(disconnectOnShutdown, log, Now());
      if TearsDown(Now()) || lifecycleState.Stopped? {
        TeardownIsAlone(disconnectOnShutdown, log, Now());
      }
      if !IsQuiet(Now()) {
        NoDeadlock(Now());
      }
    }

    method StartCall(kind: Kind)
      modifies this
      ensures Now() == Begin(old(Now()), kind)
    {
      match kind {
        case AdapterStart => StartAdapter();
        case ComposedShutdown => StartComposedShutdown();
        case InitCall =>
          var answer := Init();
          calls := calls + [Call(InitCall, if answer.Joined? then AwaitInit else InitReturned(answer.ok))];
        case ShutdownCall =>
          var answer := Shutdown();
          calls := calls + [Call(ShutdownCall, if answer.Joined? then AwaitShutdown else ShutdownReturned)];
      }
    }

    method Init() returns (answer: Answer)
      modifies this
      ensures (Now(), answer) == CallInit(old(Now()))
    {
      if lifecycleState.Ready? {
        return Returned(true);
      }
      if lifecycleState.Initializing? && !initBody.NoInit? {
        return Joined;
      }
      if !shutdownBody.NoDown? {
        return Returned(false);
      }
      if lifecycleState.Stopping? || lifecycleState.Stopped? {
        return Returned(false);
      }
      lifecycleState := Initializing;
      initBody := Connecting;
      begun := begun + 1;
      return Joined;
    }

    method Shutdown() returns (answer: Answer)
      modifies this
      ensures (Now(), answer) == CallShutdown(old(Now()))
    {
      if lifecycleState.Stopped? {
        return Returned(true);
      }
      if !shutdownBody.NoDown? {
        return Joined;
      }
      var pendingInit := lifecycleState.Initializing? && !initBody.NoInit?;
      lifecycleState := Stopping;
      if pendingInit {
        shutdownBody := WaitInit;
        interrupted := interrupted + {begun};
      } else {
        AwaitPendingAdapterInits();
      }
      return Joined;
    }

    method AwaitPendingAdapterInits()
      modifies this`shutdownBody
      ensures shutdownBody == Snapshot(pendingAdapterInits)
    {
      shutdownBody := if pendingAdapterInits == {} then Drained else Round(pendingAdapterInits);
    }

    /** The body of `init` ends and its promise settles. */
    method EndInit(ok: bool)
      modifies this
      ensures Now() == SettleInit(old(Now()), ok)
    {
      initBody := NoInit;
      calls := Settled(calls, AwaitInit, InitReturned(ok));
      if shutdownBody.WaitInit? {
        shutdownBody := InitSettled;
      }
    }

    method ConnectEnds(ok: bool, open: bool)
      requires initBody.Connecting?
      modifies this
      ensures Now() == InitStep(old(Now()), ok, open)
    {
      connectionOpen := ok || open;
      if lifecycleState.Stopping? {
        EndInit(false);
      } else {
        initBody := if ok then ConfigHook else RollbackDatabase;
      }
    }

    method ConfigHookEnds(ok: bool, open: bool)
      requires initBody.ConfigHook?
      modifies this
      ensures Now() == InitStep(old(Now()), ok, open)
    {
      if lifecycleState.Stopping? {
        EndInit(false);
      } else if ok {
        lifecycleState := Ready;
        succeeded := succeeded + {begun};
        EndInit(true);
      } else {
        initBody := RollbackHook;
      }
    }

    method RollbackEnds(ok: bool, open: bool)
      requires initBody.RollbackHook? || initBody.RollbackDatabase?
      modifies this
      ensures Now() == InitStep(old(Now()), ok, open)
    {
      if initBody.RollbackHook? {
        initBody := RollbackDatabase;
      } else {
        connectionOpen := connectionOpen && !ok && open;
        if !lifecycleState.Stopping? {
          lifecycleState := Failed;
        }
        EndInit(false);
      }
    }

    /** What the body of `shutdown` awaits has ended. */
    method ResumeShutdown(ok: bool, open: bool)
      requires DownEnabled(Now())
      modifies this
      ensures Now() == DownStep(old(Now()), ok, open)
    {
      match shutdownBody
      case InitSettled => AwaitPendingAdapterInits();
      case Round(_) => AwaitPendingAdapterInits();
      case Drained => shutdownBody := TeardownHook;
      case TeardownHook => shutdownBody := TeardownDatabase(!ok);
      case TeardownDatabase(failed) =>
        if disconnectOnShutdown {
          connectionOpen := connectionOpen && !ok && open;
        }
        lifecycleState := if failed || !ok then Failed else Stopped;
        shutdownBody := Finalizing;
      case Finalizing =>
        shutdownBody := NoDown;
        calls := Settled(calls, AwaitShutdown, ShutdownReturned);
    }

    /** An adapter starts: its entry is there before it asks for `init`. */
    method StartAdapter()
      modifies this
      ensures Now() == Begin(old(Now()), AdapterStart)
    {
      pendingAdapterInits := pendingAdapterInits + {|calls|};
      var answer := Init();
      calls := calls + [Call(AdapterStart, if answer.Joined? then AwaitInit else InitReturned(answer.ok))];
    }

    method StartComposedShutdown()
      modifies this
      ensures Now() == Begin(old(Now()), ComposedShutdown)
    {
      var pending := pendingAdapterInits;
      calls := calls + [Call(ComposedShutdown, if pending == {} then AdaptersDrained else WaitAdapters(pending))];
    }

    /** What an adapter start or a composed shutdown awaits has ended. */
    method ResumeCall(i: nat, ok: bool)
      requires CallEnabled(Now(), i)
      modifies this
      ensures Now() == CallStep(old(Now()), i, ok)
    {
      var kind := calls[i].kind;
      var stage: Stage;
      match calls[i].stage {
      case InitReturned(returned) =>
        if !kind.AdapterStart? {
          stage := Done(returned);
        } else if returned {
          stage := CallerHook;
        } else {
          pendingAdapterInits := pendingAdapterInits - {i};
          stage := Done(false);
        }
      case CallerHook =>
        pendingAdapterInits := pendingAdapterInits - {i};
        if ok {
          var terminal := !shutdownBody.NoDown? || lifecycleState.Stopping? || lifecycleState.Stopped?;
          stage := Done(!terminal);
        } else {
          stage := CallerCleanup;
        }
      case WaitAdapters(_) =>
        stage := if pendingAdapterInits == {} then AdaptersDrained else WaitAdapters(pendingAdapterInits);
      case AdaptersDrained => stage := CallerCleanup;
      case CallerCleanup =>
        var answer := Shutdown();
        stage := if answer.Joined? then AwaitShutdown else ShutdownReturned;
      case ShutdownReturned => stage := Done(!kind.AdapterStart?);
      }
      calls := calls[i := Call(kind, stage)];
    }
  }
}
