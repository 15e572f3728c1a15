/**
 Runs of a document wrapper against a server with no other writer.

 The server handles a request between its start and its response: it stores the
 submitted fields, possibly in another form, and echoes every field it stored
 differently. User calls may come at any time. Local writes leave `_id` alone.
 */
module ClientSync {
  import opened ClientModel
  import opened Options

  /** `reply` is the response of a request the server has handled and the wrapper has not yet seen. */
  datatype World = World(client: State, server: Fields, reply: Option<Fields>)

  datatype Event =
    | Set(entry: Entry)
    | Assign(entries: seq<Entry>)
    | MarkModified(path: Path)
    | Reset
    | Save
    | Drain
    | Commit(server: Fields, echo: Fields)
    | Succeed
    | Fail

  /** What JSON carries of a body: an undefined field is not sent. */
  function Wire(f: Fields): Fields {
    map p | p in f && f[p] != Undefined :: f[p]
  }

  /**
   What a server may do with a request. Only submitted fields of an existing
   document change; a new document gets the submitted ones and any defaults. The
   echo tells the truth, and tells every field stored other than as submitted.
   */
  ghost predicate ValidCommit(r: Request, server: Fields, server': Fields, echo: Fields) {
    && (forall p :: p in server' ==> server'[p] != Undefined)
    && (forall p :: p in echo && p != Id ==> p in server' && echo[p] == server'[p])
    && (forall p :: p in Wire(r.payload) ==> p in server' && (p in echo || server'[p] == r.payload[p]))
    && (!r.create ==> forall p :: p !in Wire(r.payload) && p != Id ==> Get(server', p) == Get(server, p))
    && (r.create ==> Get(echo, Id).Text?)
  }

  ghost predicate Enabled(w: World, e: Event) {
    match e
    case Set(entry) => entry.path != Id && IdentityIsHonest(w.client, entry)
    case Assign(entries) =>
      forall i :: 0 <= i < |entries| ==> entries[i].path != Id && IdentityIsHonest(w.client, entries[i])
    case MarkModified(path) => path != Id
    case Reset => true
    case Save => true
    case Drain => w.client.busy && w.client.inFlight.None?
    case Commit(server, echo) =>
      w.client.inFlight.Some? && w.reply.None? && ValidCommit(w.client.inFlight.value, w.server, server, echo)
    case Succeed => w.client.inFlight.Some? && InFlightOk(w.client) && w.reply.Some?
    case Fail => w.client.inFlight.Some? && w.reply.None?
  }

  ghost function Next(w: World, e: Event): World
    requires Enabled(w, e)
  {
    match e
    case Set(entry) => w.(client := AfterSet(w.client, entry))
    case Assign(entries) => w.(client := AfterAssign(w.client, entries))
    case MarkModified(path) => w.(client := w.client.(modified := w.client.modified + {path}))
    case Reset => w.(client := AfterReset(w.client))
    case Save => w.(client := AfterSave(w.client))
    case Drain => w.(client := AfterDrain(w.client))
    case Commit(server, echo) => w.(server := server, reply := Some(echo))
    case Succeed => w.(client := AfterSuccess(w.client, w.reply.value), reply := None)
    case Fail => w.(client := AfterFailure(w.client))
  }

  ghost predicate Runs(w: World, es: seq<Event>, w': World)
    decreases |es|
  {
    if es == [] then w == w'
    else Enabled(w, es[0]) && Runs(Next(w, es[0]), es[1..], w')
  }

  // ---------------------------------------------------------------- what every step keeps

  /** A path that is not dirty reads the same locally and at the baseline. */
  ghost predicate CleanMatchesBaseline(s: State) {
    forall p :: p !in s.modified ==> Get(s.data, p) == Get(s.snapshot, p)
  }

  /** Where the baseline holds a value, the server holds the same one. */
  ghost predicate BaselineOnServer(snapshot: Fields, server: Fields) {
    forall p :: p != Id && Get(snapshot, p) != Undefined ==> Get(server, p) == snapshot[p]
  }

  /** Nothing of an unsaved draft counts as saved. */
  ghost predicate DraftIsDirty(s: State) {
    IsUnsavedDraft(s) ==> forall p :: p != Id && (p in s.data || p in s.snapshot) ==> p in s.modified
  }

  ghost predicate SavesQueueUp(s: State) {
    && InFlightOk(s)
    && (s.queued > 0 ==> s.busy)
  }

  ghost predicate RequestOk(s: State, r: Request) {
    && r.values.Keys == r.paths
    && Id !in r.paths
    && r.create == IsUnsavedDraft(s)
    && (forall p :: p in r.paths ==> Get(r.payload, p) == r.values[p])
    && (forall p :: p in r.payload && p !in r.paths ==> r.create)
    && (r.create ==> forall p :: p != Id && p in s.snapshot ==> p in r.paths)
  }

  /** The server has handled `r`; the wrapper still shows the state before. */
  ghost predicate ReplyOk(s: State, r: Request, server: Fields, echo: Fields)
    requires r.values.Keys == r.paths
  {
    && (forall p :: p in echo && p != Id ==> Get(server, p) == echo[p])
    && (forall p :: p in r.paths && p !in echo && r.values[p] != Undefined ==> Get(server, p) == r.values[p])
    && (forall p :: p != Id && p !in r.paths && Get(s.snapshot, p) != Undefined ==> Get(server, p) == s.snapshot[p])
    && (r.create ==> Get(echo, Id).Text?)
  }

  ghost predicate Inv(w: World) {
    var s := w.client;
    && CleanMatchesBaseline(s)
    && DraftIsDirty(s)
    && SavesQueueUp(s)
    && Id !in s.modified
    && (s.inFlight.Some? ==> RequestOk(s, s.inFlight.value))
    && (w.reply.Some? ==> s.inFlight.Some? && ReplyOk(s, s.inFlight.value, w.server, w.reply.value))
    && (w.reply.None? && !IsUnsavedDraft(s) ==> BaselineOnServer(s.snapshot, w.server))
  }

  // ---------------------------------------------------------------- local steps

  /** `t` came from `s` by local writes: what requests and baselines depend on is untouched. */
  ghost predicate LocalStep(s: State, t: State) {
    && t.snapshot == s.snapshot && t.inFlight == s.inFlight && t.queued == s.queued && t.busy == s.busy
    && IsUnsavedDraft(t) == IsUnsavedDraft(s)
    && (CleanMatchesBaseline(s) ==> CleanMatchesBaseline(t))
    && (DraftIsDirty(s) ==> DraftIsDirty(t))
    && (Id !in s.modified ==> Id !in t.modified)
  }

  lemma LocalStepKeepsInv(w: World, t: State)
    requires Inv(w) && LocalStep(w.client, t)
    ensures Inv(w.(client := t))
  {
  }

  lemma SetIsLocal(s: State, e: Entry)
    requires e.path != Id
    ensures LocalStep(s, AfterSet(s, e))
  {
  }

  lemma ReconcileIsLocal(s: State, p: Path)
    ensures LocalStep(s, Reconciled(s, p))
  {
  }

  lemma {:induction false} AssignIsLocal(s: State, entries: seq<Entry>)
    requires forall i :: 0 <= i < |entries| ==> entries[i].path != Id
    ensures LocalStep(s, AfterAssign(s, entries))
  {
    SetsAreLocal(s, entries);
    ReconcilesAreLocal(AfterSets(s, entries), entries);
  }

  lemma {:induction false} SetsAreLocal(s: State, entries: seq<Entry>)
    requires forall i :: 0 <= i < |entries| ==> entries[i].path != Id
    ensures LocalStep(s, AfterSets(s, entries))
  {
    if entries != [] {
      var n := |entries| - 1;
      SetsAreLocal(s, entries[..n]);
      SetIsLocal(AfterSets(s, entries[..n]), entries[n]);
    }
  }

  lemma {:induction false} ReconcilesAreLocal(s: State, entries: seq<Entry>)
    ensures LocalStep(s, AfterReconciles(s, entries))
  {
    if entries != [] {
      var n := |entries| - 1;
      ReconcilesAreLocal(s, entries[..n]);
      ReconcileIsLocal(AfterReconciles(s, entries[..n]), entries[n].path);
    }
  }

  lemma ResetIsLocal(s: State)
    requires CleanMatchesBaseline(s) && Id !in s.modified
    ensures LocalStep(s, AfterReset(s))
  {
    assert Get(s.data, Id) == Get(s.snapshot, Id);
  }

  // ---------------------------------------------------------------- saves

  lemma StartKeepsInv(w: World)
    requires Inv(w) && w.client.inFlight.None? && w.client.busy
    ensures Inv(w.(client := Started(w.client)))
  {
  }

  lemma CommitKeepsInv(w: World, server: Fields, echo: Fields)
    requires Inv(w) && Enabled(w, Commit(server, echo))
    ensures Inv(Next(w, Commit(server, echo)))
  {
    var s, r := w.client, w.client.inFlight.value;
    forall p | p in r.paths && p !in echo && r.values[p] != Undefined
      ensures Get(server, p) == r.values[p]
    {
      assert p in Wire(r.payload);
    }
    forall p | p != Id && p !in r.paths && Get(s.snapshot, p) != Undefined
      ensures Get(server, p) == s.snapshot[p]
    {
      assert p !in Wire(r.payload);
    }
  }

  lemma SuccessKeepsClean(w: World)
    requires Inv(w) && Enabled(w, Succeed)
    ensures CleanMatchesBaseline(Next(w, Succeed).client)
  {
    var s, r, echo := w.client, w.client.inFlight.value, w.reply.value;
    var t := AfterSuccess(s, echo);
    forall p | p !in t.modified
      ensures Get(t.data, p) == Get(t.snapshot, p)
    {
      assert Baseline(s, r, echo, p) == Some(Get(t.data, p));
    }
  }

  lemma SuccessKeepsBaseline(w: World)
    requires Inv(w) && Enabled(w, Succeed)
    ensures BaselineOnServer(Next(w, Succeed).client.snapshot, w.server)
  {
    var s, r, echo := w.client, w.client.inFlight.value, w.reply.value;
    var t := AfterSuccess(s, echo);
    forall p | p != Id && Get(t.snapshot, p) != Undefined
      ensures Get(w.server, p) == t.snapshot[p]
    {
      assert t.snapshot[p] == Baseline(s, r, echo, p).value;
      if p !in t.modified && !(p in echo && Adopted(s, r, echo, p)) {
        assert Get(t.data, p) == Get(s.data, p);
      }
    }
  }

  lemma StepKeepsInv(w: World, e: Event)
    requires Inv(w) && Enabled(w, e)
    ensures Inv(Next(w, e))
  {
    match e
    case Set(entry) =>
      SetIsLocal(w.client, entry);
      LocalStepKeepsInv(w, AfterSet(w.client, entry));
    case Assign(entries) =>
      AssignIsLocal(w.client, entries);
      LocalStepKeepsInv(w, AfterAssign(w.client, entries));
    case MarkModified(path) =>
    case Reset =>
      ResetIsLocal(w.client);
      LocalStepKeepsInv(w, AfterReset(w.client));
    case Save =>
      if !w.client.busy {
        StartKeepsInv(w.(client := w.client.(busy := true)));
      }
    case Drain =>
      if w.client.queued > 0 {
        StartKeepsInv(w.(client := w.client.(queued := w.client.queued - 1)));
      }
    case Commit(server, echo) =>
      CommitKeepsInv(w, server, echo);
    case Succeed =>
      SuccessKeepsClean(w);
      SuccessKeepsBaseline(w);
    case Fail =>
  }

  // ---------------------------------------------------------------- whole runs

  lemma {:induction false} RunKeepsInv(w: World, es: seq<Event>, w': World)
    requires Inv(w) && Runs(w, es, w')
    ensures Inv(w')
    decreases |es|
  {
    if es != [] {
      StepKeepsInv(w, es[0]);
      RunKeepsInv(Next(w, es[0]), es[1..], w');
    }
  }

  /** A wrapper around what was read of `server`, or a draft of a new document. */
  ghost predicate Opened(w: World) {
    exists data: Fields, identity: Value, fromExisting: bool ::
      && w == World(Init(data, identity, fromExisting), w.server, None)
      && (IsUnsavedDraft(w.client) || forall p :: p in data && p != Id ==> Get(w.server, p) == data[p])
  }

  lemma OpenedSatisfiesInv(w: World)
    requires Opened(w)
    ensures Inv(w)
  {
  }

  /**
   Whatever the user does, and however saves succeed and fail: a path that is not
   dirty reads as its baseline, and once no save is in flight every baseline value
   and every clean local value of a saved document is the server's.
   */
  lemma SettledWrapperAgreesWithServer(w: World, es: seq<Event>, w': World)
    requires Opened(w) && Runs(w, es, w')
    ensures CleanMatchesBaseline(w'.client)
    ensures w'.client.inFlight.None? && !IsUnsavedDraft(w'.client) ==>
              && (forall p :: p in w'.client.snapshot && p != Id ==>
                    w'.client.snapshot[p] == Undefined
                    || (p in w'.server && w'.server[p] == w'.client.snapshot[p]))
              && (forall p :: p in w'.client.data && p != Id && p !in w'.client.modified ==>
                    w'.client.data[p] == Undefined || (p in w'.server && w'.server[p] == w'.client.data[p]))
  {
    OpenedSatisfiesInv(w);
    RunKeepsInv(w, es, w');
  }

  /** The unsent difference is never forgotten: a local value the server does not have is dirty. */
  lemma UnsavedValueIsDirty(w: World, es: seq<Event>, w': World, p: Path)
    requires Opened(w) && Runs(w, es, w')
    requires w'.client.inFlight.None?
    requires p != Id && Get(w'.client.data, p) != Undefined && Get(w'.client.data, p) != Get(w'.server, p)
    ensures p in w'.client.modified
  {
    OpenedSatisfiesInv(w);
    RunKeepsInv(w, es, w');
    SettledWrapperAgreesWithServer(w, es, w');
  }

  /** A save that nothing interrupts leaves nothing dirty and every local value stored. */
  lemma UninterruptedSaveConverges(w: World, server: Fields, echo: Fields)
    requires Inv(w) && !w.client.busy && w.client.inFlight.None?
    requires Next(w, Save).client.inFlight.Some? && Enabled(Next(w, Save), Commit(server, echo))
    ensures var sent := Next(Next(w, Save), Commit(server, echo));
            Enabled(sent, Succeed) &&
            var done := Next(sent, Succeed);
            && done.client.modified == {}
            && !IsUnsavedDraft(done.client)
            && (forall p :: p in done.client.data && p != Id && done.client.data[p] != Undefined ==>
                  Get(server, p) == done.client.data[p])
  {
    StepKeepsInv(w, Save);
    var sent := Next(Next(w, Save), Commit(server, echo));
    StepKeepsInv(Next(w, Save), Commit(server, echo));
    StepKeepsInv(sent, Succeed);
    NothingChangedSince(w.client, echo);
    ConvergedAgrees(Next(sent, Succeed));
  }

  /** What has not been changed since it was sent is not dirty after the response. */
  lemma NothingChangedSince(s: State, echo: Fields)
    requires s.inFlight.None? && !s.busy && AfterSave(s).inFlight.Some?
    ensures AfterSuccess(AfterSave(s), echo).modified == {}
  {
  }

  lemma ConvergedAgrees(w: World)
    requires Inv(w) && w.reply.None? && !IsUnsavedDraft(w.client) && w.client.modified == {}
    ensures forall p :: p in w.client.data && p != Id && w.client.data[p] != Undefined ==>
                          Get(w.server, p) == w.client.data[p]
  {
    forall p | p in w.client.data && p != Id && w.client.data[p] != Undefined
      ensures Get(w.server, p) == w.client.data[p]
    {
      assert Get(w.client.data, p) == Get(w.client.snapshot, p);
    }
  }

  // ---------------------------------------------------------------- undefined fields

  ghost predicate IsDocument(server: Fields) {
    forall p :: p in server ==> server[p] != Undefined
  }

  /** Every baseline field, an undefined one included, is the server's. */
  ghost predicate BaselineIsServer(snapshot: Fields, server: Fields) {
    forall p :: p in snapshot && p != Id ==> Get(server, p) == snapshot[p]
  }

  /** A wrapper that awaits a response, whatever the user has done since the request left. */
  ghost predicate AwaitsResponse(s: State) {
    && s.inFlight.Some? && InFlightOk(s) && RequestOk(s, s.inFlight.value)
    && CleanMatchesBaseline(s) && DraftIsDirty(s) && Id !in s.modified
  }

  /** The server had what the baseline says, handled the request and answers `echo`. */
  ghost predicate Responds(s: State, server: Fields, server': Fields, echo: Fields)
    requires AwaitsResponse(s)
  {
    && IsDocument(server)
    && (IsUnsavedDraft(s) || BaselineIsServer(s.snapshot, server))
    && ValidCommit(s.inFlight.value, server, server', echo)
  }

  /**
   A field that the response will take for saved as undefined, though it was not loaded as
   such: it read as undefined when the request left, or it has been cleared since and the
   request has nothing of it.
   */
  ghost predicate IsHidden(s: State, p: Path)
    requires AwaitsResponse(s)
  {
    var r := s.inFlight.value;
    && p != Id
    && (IsUnsavedDraft(s) || !(p in s.snapshot && s.snapshot[p] == Undefined))
    && if p in r.paths then r.values[p] == Undefined
       else p !in s.modified && p in s.data && s.data[p] == Undefined
  }

  ghost predicate NothingHidden(s: State)
    requires AwaitsResponse(s)
  {
    forall p :: !IsHidden(s, p)
  }

  /**
   An undefined field is not unset on the server, yet it may become clean. So a response
   makes the whole baseline the document's, for every server and every answer, exactly
   when no field is hidden at that moment.
   */
  lemma ResponseKeepsBaselineIffNothingHidden(s: State)
    requires AwaitsResponse(s)
    ensures (forall server, server', echo :: Responds(s, server, server', echo) ==>
               BaselineIsServer(AfterSuccess(s, echo).snapshot, server'))
       <==> NothingHidden(s)
  {
    if NothingHidden(s) {
      forall server, server', echo | Responds(s, server, server', echo)
        ensures BaselineIsServer(AfterSuccess(s, echo).snapshot, server')
      {
        ResponseFits(s, server, server', echo);
        AnswerKeepsBaseline(s, server', echo);
      }
    } else {
      var p :| IsHidden(s, p);
      var server, server', echo := ServerThatKeeps(s, p);
      assert Responds(s, server, server', echo);
    }
  }

  /** What is left to know of a server that has answered, once its earlier state is forgotten. */
  ghost predicate Answered(s: State, server: Fields, echo: Fields)
    requires AwaitsResponse(s)
  {
    var sent := Wire(s.inFlight.value.payload);
    && (forall p :: p in echo && p != Id ==> Get(server, p) == echo[p])
    && (forall p :: p in sent && p !in echo ==> Get(server, p) == sent[p])
    && (!IsUnsavedDraft(s) ==>
          forall p :: p in s.snapshot && p != Id && p !in sent ==> Get(server, p) == s.snapshot[p])
  }

  lemma ResponseFits(s: State, server: Fields, server': Fields, echo: Fields)
    requires AwaitsResponse(s) && Responds(s, server, server', echo)
    ensures Answered(s, server', echo)
  {
  }

  lemma AnswerKeepsBaseline(s: State, server: Fields, echo: Fields)
    requires AwaitsResponse(s) && Answered(s, server, echo) && NothingHidden(s)
    ensures BaselineIsServer(AfterSuccess(s, echo).snapshot, server)
  {
    forall p | p in AfterSuccess(s, echo).snapshot && p != Id
      ensures Get(server, p) == AfterSuccess(s, echo).snapshot[p]
    {
      assert !IsHidden(s, p);
      NewBaselineOf(s, echo, p);
    }
  }

  /** The new baseline of a path: what the server told, else what was sent, else what was there. */
  lemma NewBaselineOf(s: State, echo: Fields, p: Path)
    requires AwaitsResponse(s) && p != Id
    ensures
      var r, t := s.inFlight.value, AfterSuccess(s, echo);
      && (p in r.paths ==> p in t.snapshot)
      && (p in t.snapshot ==>
            t.snapshot[p] == if p in echo && (p in r.paths || p !in s.modified) then echo[p]
                             else if p in r.paths then r.values[p]
                             else Get(s.snapshot, p))
      && (p in t.snapshot && p !in r.paths && p !in echo ==>
            p in s.snapshot || (p !in s.modified && p in s.data && s.data[p] == Undefined))
      && (p in t.snapshot && p !in r.paths && p in s.modified ==> p in s.snapshot)
      && (p in s.data && p !in r.paths && p !in s.modified ==> p in t.snapshot)
  {
    var r := s.inFlight.value;
    assert AfterSuccess(s, echo).snapshot == MergedSnapshot(s, r, echo);
    assert p in RemainingDirty(s, r, echo) <==> p in r.paths + s.modified && Concurrent(s, r, p);
  }

  /** A server that keeps a hidden field, stores the rest as it is sent and tells nothing. */
  lemma ServerThatKeeps(s: State, p: Path) returns (server: Fields, server': Fields, echo: Fields)
    requires AwaitsResponse(s) && IsHidden(s, p)
    ensures Responds(s, server, server', echo)
    ensures !BaselineIsServer(AfterSuccess(s, echo).snapshot, server')
  {
    server := Keeping(s, p);
    server' := server + Wire(s.inFlight.value.payload);
    echo := if s.inFlight.value.create then map[Id := Text("id")] else map[];
    StoredAsSent(s, p, server', echo);
    HiddenFieldBecomesUndefined(s, p, echo);
  }

  function Keeping(s: State, p: Path): Fields {
    var known := Wire(s.snapshot);
    if p in known then known else known[p := Text("kept")]
  }

  lemma StoredAsSent(s: State, p: Path, server': Fields, echo: Fields)
    requires AwaitsResponse(s) && IsHidden(s, p)
    requires server' == Keeping(s, p) + Wire(s.inFlight.value.payload)
    requires echo == if s.inFlight.value.create then map[Id := Text("id")] else map[]
    ensures Responds(s, Keeping(s, p), server', echo)
    ensures p in server' && server'[p] != Undefined
  {
    assert p !in Wire(s.inFlight.value.payload);
    SentIsCommitted(s.inFlight.value, Keeping(s, p), echo);
  }

  /** A server may store what is sent, as it is sent, and tell nothing. */
  lemma SentIsCommitted(r: Request, server: Fields, echo: Fields)
    requires IsDocument(server) && echo == if r.create then map[Id := Text("id")] else map[]
    ensures ValidCommit(r, server, server + Wire(r.payload), echo)
  {
  }

  lemma HiddenFieldBecomesUndefined(s: State, p: Path, echo: Fields)
    requires AwaitsResponse(s) && IsHidden(s, p) && p !in echo
    ensures p in AfterSuccess(s, echo).snapshot && AfterSuccess(s, echo).snapshot[p] == Undefined
  {
    NewBaselineOf(s, echo, p);
  }

  // ---------------------------------------------------------------- runs that hide nothing

  /** Nothing is hidden whenever a response arrives. */
  ghost predicate HidesNothing(w: World, es: seq<Event>)
    decreases |es|
  {
    es == [] ||
    (Enabled(w, es[0])
     && (es[0].Succeed? ==> AwaitsResponse(w.client) && NothingHidden(w.client))
     && HidesNothing(Next(w, es[0]), es[1..]))
  }

  /** With no answer under way the whole baseline of a saved document is the server's. */
  ghost predicate WholeBaseline(w: World) {
    && Inv(w)
    && (w.reply.None? && !IsUnsavedDraft(w.client) ==> BaselineIsServer(w.client.snapshot, w.server))
    && (w.reply.Some? ==> AwaitsResponse(w.client) && Answered(w.client, w.server, w.reply.value))
  }

  lemma StepKeepsWholeBaseline(w: World, e: Event)
    requires WholeBaseline(w) && Enabled(w, e)
    requires e.Succeed? ==> AwaitsResponse(w.client) && NothingHidden(w.client)
    ensures WholeBaseline(Next(w, e))
  {
    StepKeepsInv(w, e);
    match e
    case Set(entry) =>
      SetIsLocal(w.client, entry);
      LocalStepKeepsBaseline(w, Next(w, e).client);
    case Assign(entries) =>
      AssignIsLocal(w.client, entries);
      LocalStepKeepsBaseline(w, Next(w, e).client);
    case Reset =>
      ResetIsLocal(w.client);
      LocalStepKeepsBaseline(w, Next(w, e).client);
    case Succeed => AnswerKeepsBaseline(w.client, w.server, w.reply.value);
    case Commit(server, echo) => CommitKeepsBaseline(w, server, echo);
    case _ =>
  }

  lemma CommitKeepsBaseline(w: World, server: Fields, echo: Fields)
    requires WholeBaseline(w) && Enabled(w, Commit(server, echo)) && Inv(Next(w, Commit(server, echo)))
    ensures WholeBaseline(Next(w, Commit(server, echo)))
  {
  }

  lemma LocalStepKeepsBaseline(w: World, t: State)
    requires WholeBaseline(w) && LocalStep(w.client, t) && Inv(w.(client := t))
    ensures WholeBaseline(w.(client := t))
  {
  }

  lemma {:induction false} RunKeepsWholeBaseline(w: World, es: seq<Event>, w': World)
    requires WholeBaseline(w) && Runs(w, es, w') && HidesNothing(w, es)
    ensures WholeBaseline(w')
    decreases |es|
  {
    if es != [] {
      StepKeepsWholeBaseline(w, es[0]);
      RunKeepsWholeBaseline(Next(w, es[0]), es[1..], w');
    }
  }

  /**
   In every run in which nothing is hidden when a response arrives: once no save is in
   flight, the whole baseline of a saved document is the server's, and so is every clean
   local value that the baseline has or that is defined.
   */
  lemma RunsThatHideNothingAgree(w: World, es: seq<Event>, w': World)
    requires Opened(w) && Runs(w, es, w') && HidesNothing(w, es)
    requires w'.client.inFlight.None? && !IsUnsavedDraft(w'.client)
    ensures BaselineIsServer(w'.client.snapshot, w'.server)
    ensures forall p :: p in w'.client.data && p != Id && p !in w'.client.modified
                        && (p in w'.client.snapshot || w'.client.data[p] != Undefined) ==>
                          Get(w'.server, p) == w'.client.data[p]
  {
    OpenedSatisfiesInv(w);
    RunKeepsWholeBaseline(w, es, w');
  }

  // ---------------------------------------------------------------- saves that nothing interrupts

  /** An idle wrapper of a saved document, about to save. */
  ghost predicate ReadyToUpdate(s: State) {
    && CleanMatchesBaseline(s) && Id !in s.modified
    && s.inFlight.None? && s.busy
    && !Nullish(Coalesce(Get(s.data, Id), s.identity))
  }

  function Sent(s: State): Request
    requires !Nullish(Coalesce(Get(s.data, Id), s.identity))
  {
    Started(s).inFlight.value
  }

  /** No field reads as undefined unless it was loaded or saved as such. */
  ghost predicate NothingRemoved(s: State) {
    forall p :: p != Id && (p in s.data || p in s.modified) && Get(s.data, p) == Undefined ==>
      p in s.snapshot && s.snapshot[p] == Undefined
  }

  /** When nothing comes between a request and its response, what matters is what was removed before. */
  lemma SaveKeepsBaselineIffNothingRemoved(s: State)
    requires ReadyToUpdate(s)
    ensures AwaitsResponse(Started(s))
    ensures (forall server, server', echo :: Responds(Started(s), server, server', echo) ==>
               BaselineIsServer(AfterSuccess(Started(s), echo).snapshot, server'))
       <==> NothingRemoved(s)
  {
    StartedAwaits(s);
    HiddenIsRemoved(s);
    ResponseKeepsBaselineIffNothingHidden(Started(s));
  }

  lemma StartedAwaits(s: State)
    requires ReadyToUpdate(s)
    ensures AwaitsResponse(Started(s)) && !IsUnsavedDraft(Started(s))
  {
  }

  lemma HiddenIsRemoved(s: State)
    requires ReadyToUpdate(s) && AwaitsResponse(Started(s))
    ensures NothingHidden(Started(s)) <==> NothingRemoved(s)
  {
    forall p
      ensures IsHidden(Started(s), p)
         <==> p != Id && (p in s.data || p in s.modified) && Get(s.data, p) == Undefined
              && !(p in s.snapshot && s.snapshot[p] == Undefined)
    {
    }
  }

  // ---------------------------------------------------------------- a run that hides a field

  lemma {:induction false} RunsInTurn(w: World, es: seq<Event>, v: World, fs: seq<Event>, u: World)
    requires Runs(w, es, v) && Runs(v, fs, u)
    ensures Runs(w, es + fs, u)
    decreases |es|
  {
    if es == [] {
      assert es + fs == fs;
    } else {
      assert (es + fs)[0] == es[0] && (es + fs)[1..] == es[1..] + fs;
      RunsInTurn(Next(w, es[0]), es[1..], v, fs, u);
    }
  }

  /** A saved document as the wrapper holds it between saves. */
  function Idle(data: Fields, snapshot: Fields, modified: set<Path>): State {
    State(data, snapshot, modified, Text("id"), true, None, 0, false)
  }

  lemma OneStep(w: World, e: Event)
    requires Enabled(w, e)
    ensures Runs(w, [e], Next(w, e))
  {
    assert Runs(Next(w, e), [], Next(w, e));
  }

  lemma OneStepTo(w: World, e: Event, w': World)
    requires Enabled(w, e) && Next(w, e) == w'
    ensures Runs(w, [e], w')
  {
    OneStep(w, e);
  }

  lemma InThreeSteps(w0: World, a: Event, w1: World, b: Event, w2: World, c: Event, w3: World)
    requires Runs(w0, [a], w1) && Runs(w1, [b], w2) && Runs(w2, [c], w3)
    ensures Runs(w0, [a] + [b] + [c], w3)
  {
    RunsInTurn(w0, [a], w1, [b], w2);
    RunsInTurn(w0, [a] + [b], w2, [c], w3);
  }

  /** The field is added and its save starts, and `reset` drops it again. */
  lemma AddSaveReset(x: Path) returns (es: seq<Event>, w': World)
    requires x != Id
    ensures forall i :: 0 <= i < |es| && es[i].Set? ==> es[i].entry.value != Undefined
    ensures Runs(World(Idle(map[], map[], {}), map[], None), es, w')
    ensures var doc := map[x := Text("a")];
            w' == World(Idle(map[], map[], {}).(inFlight := Some(Request(false, Text("id"), {x}, doc, doc)),
                                                busy := true), map[], None)
  {
    var doc: Fields := map[x := Text("a")];
    var r := Request(false, Text("id"), {x}, doc, doc);
    var w0 := World(Idle(map[], map[], {}), map[], None);
    var w1 := World(Idle(doc, map[], {x}), map[], None);
    var w2 := World(w1.client.(inFlight := Some(r), busy := true), map[], None);
    var add := Set(Entry(x, Text("a"), false));
    es := [add] + [Save] + [Reset];
    assert Next(w0, add) == w1;
    assert Sent(w1.client) == r;
    assert Next(w1, Save) == w2;
    w' := Next(w2, Reset);
    OneStep(w0, add);
    OneStep(w1, Save);
    OneStep(w2, Reset);
    RunsInTurn(w0, [add], w1, [Save], w2);
    RunsInTurn(w0, [add] + [Save], w2, [Reset], w');
  }

  /** The response then arrives: the field is on the server, absent locally and dirty. */
  lemma ResponseAfterReset(x: Path, w: World) returns (es: seq<Event>)
    requires x != Id
    requires var doc := map[x := Text("a")];
             w == World(Idle(map[], map[], {}).(inFlight := Some(Request(false, Text("id"), {x}, doc, doc)),
                                                busy := true), map[], None)
    ensures forall i :: 0 <= i < |es| ==> !es[i].Set?
    ensures Runs(w, es, World(Idle(map[], map[x := Text("a")], {x}), map[x := Text("a")], None))
  {
    var doc: Fields := map[x := Text("a")];
    var w1 := w.(server := doc, reply := Some(map[]));
    var w2 := World(Idle(map[], doc, {x}).(busy := true), doc, None);
    SuccessAfterReset(w1.client, x);
    es := [Commit(doc, map[])] + [Succeed] + [Drain];
    OneStepTo(w, Commit(doc, map[]), w1);
    OneStepTo(w1, Succeed, w2);
    OneStepTo(w2, Drain, w2.(client := w2.client.(busy := false)));
    InThreeSteps(w, Commit(doc, map[]), w1, Succeed, w2, Drain, w2.(client := w2.client.(busy := false)));
  }

  lemma SuccessAfterReset(s: State, x: Path)
    requires x != Id
    requires s.data == s.snapshot == map[] && s.modified == {} && s.identity == Text("id")
    requires InFlightOk(s)
    requires s.inFlight == Some(Request(false, Text("id"), {x}, map[x := Text("a")], map[x := Text("a")]))
    ensures AfterSuccess(s, map[])
         == s.(snapshot := map[x := Text("a")], modified := {x}, inFlight := None)
  {
    var r := s.inFlight.value;
    assert Concurrent(s, r, x);
    assert MergedData(s, r, map[]) == map[];
    assert RemainingDirty(s, r, map[]) == {x};
    assert MergedSnapshot(s, r, map[]) == map[x := Text("a")];
  }

  /** The next save sends nothing for the field and takes it for clean, though the server has it. */
  lemma SaveAfterReset(x: Path) returns (es: seq<Event>, w': World)
    requires x != Id
    ensures forall i :: 0 <= i < |es| ==> !es[i].Set?
    ensures Runs(World(Idle(map[], map[x := Text("a")], {x}), map[x := Text("a")], None), es, w')
    ensures w'.client.inFlight.None? && x !in w'.client.modified && x in w'.server
    ensures x in w'.client.snapshot && w'.client.snapshot[x] == Undefined
  {
    var doc: Fields := map[x := Text("a")];
    var w0 := World(Idle(map[], doc, {x}), doc, None);
    var r := Request(false, Text("id"), {x}, map[x := Undefined], map[]);
    assert Sent(w0.client) == r;
    var w1 := World(w0.client.(inFlight := Some(r), busy := true), doc, None);
    var w2 := w1.(reply := Some(map[]));
    assert Next(w0, Save) == w1;
    assert Next(w1, Commit(doc, map[])) == w2;
    assert !Concurrent(w2.client, r, x);
    assert Baseline(w2.client, r, map[], x) == Some(Undefined);
    w' := Next(w2, Succeed);
    es := [Save] + [Commit(doc, map[])] + [Succeed];
    OneStep(w0, Save);
    OneStep(w1, Commit(doc, map[]));
    OneStep(w2, Succeed);
    InThreeSteps(w0, Save, w1, Commit(doc, map[]), w2, Succeed, w');
  }

  /**
   So the baseline may hold a field as undefined that the server has, even in a run
   that writes no undefined value: add a field, save, reset meanwhile, save again.
   */
  lemma ResetDuringSaveHidesField() returns (w: World, x: Path, es: seq<Event>, w': World)
    ensures Opened(w) && Runs(w, es, w')
    ensures forall i :: 0 <= i < |es| && es[i].Set? ==> es[i].entry.value != Undefined
    ensures w'.client.inFlight.None? && x !in w'.client.modified && x in w'.server
    ensures x in w'.client.snapshot && w'.client.snapshot[x] == Undefined
  {
    x := Field("x");
    w := World(Idle(map[], map[], {}), map[], None);
    assert w.client == Init(map[], Text("id"), true);
    var doc: Fields := map[x := Text("a")];
    var mid := World(Idle(map[], doc, {x}), doc, None);
    var first, sent := AddSaveReset(x);
    var second := ResponseAfterReset(x, sent);
    var third;
    third, w' := SaveAfterReset(x);
    RunsInTurn(w, first, sent, second, mid);
    RunsInTurn(w, first + second, mid, third, w');
    es := first + second + third;
  }
}
