/**
 The dirty-tracking document wrapper of access-router-client: local data, a reset
 baseline, a set of dirty top-level paths and a queue of saves.

 `State` and the functions on it say what each call does to a wrapper; class
 `DocModel` performs the calls step by step, with the loops of the original.
 A response arrives an arbitrary time after its request, so a save is two steps,
 and user calls may come in between.
 */
module ClientModel {

  import opened Options

  /** A field value, compared by structure. `Undefined` is also what an absent field reads as. */
  datatype Value = Undefined | Null | Text(text: string) | Other(tag: int)

  /** A top-level key; `_id` is treated apart by every operation. */
  datatype Path = Id | Field(name: string)
  type Fields = map<Path, Value>

  function Get(f: Fields, p: Path): Value {
    if p in f then f[p] else Undefined
  }

  predicate Nullish(v: Value) {
    v.Undefined? || v.Null?
  }

  predicate Truthy(v: Value) {
    !Nullish(v) && v != Text("")
  }

  function Coalesce(v: Value, fallback: Value): Value {
    if Nullish(v) then fallback else v
  }

  /** What a save captured before its request left: the dirty paths, their values and the body sent. */
  datatype Request = Request(create: bool, target: Value, paths: set<Path>, values: Fields, payload: Fields)

  datatype State = State(
    data: Fields,
    snapshot: Fields,
    modified: set<Path>,
    identity: Value,
    fromExisting: bool,
    inFlight: Option<Request>,
    queued: nat,
    busy: bool)

  // ---------------------------------------------------------------- local calls

  predicate IsUnsavedDraft(s: State) {
    !s.fromExisting && Nullish(Coalesce(Get(s.data, Id), s.identity))
  }

  /** The dirty set a wrapper starts with: every field of a draft, nothing otherwise. */
  function InitialDirty(data: Fields, fromExisting: bool): set<Path> {
    if fromExisting || Truthy(Get(data, Id)) then {} else DraftKeys(data.Keys)
  }

  function DraftKeys(keys: set<Path>): set<Path> {
    keys - {Id}
  }

  lemma DraftKeysStep(all: set<Path>, keys: set<Path>, key: Path)
    requires key in keys && keys <= all
    ensures DraftKeys(all - (keys - {key})) == DraftKeys(all - keys) + if key == Id then {} else {key}
  {
  }

  function Init(data: Fields, identity: Value, fromExisting: bool): State {
    State(data, data, InitialDirty(data, fromExisting), identity, fromExisting, None, 0, false)
  }

  /** Drops `path` from the dirty set when its value is back at the baseline. */
  function Reconciled(s: State, path: Path): State {
    if path == Id || IsUnsavedDraft(s) || Get(s.data, path) != Get(s.snapshot, path) then s
    else s.(modified := s.modified - {path})
  }

  function Written(s: State, path: Path, value: Value): State {
    Reconciled(s.(data := s.data[path := value], modified := s.modified + {path}), path)
  }

  /** One key of `assign`; `identical` says the new value is the very object already stored. */
  datatype Entry = Entry(path: Path, value: Value, identical: bool)

  predicate IsStored(same: set<Path>, next: Fields, data: Fields) {
    forall k :: k in same ==> k in next && k in data && data[k] == next[k]
  }

  predicate IdentityIsHonest(s: State, e: Entry) {
    e.identical ==> e.value == Get(s.data, e.path)
  }

  function AfterSet(s: State, e: Entry): State {
    if e.identical then s else Written(s, e.path, e.value)
  }

  function AfterSets(s: State, entries: seq<Entry>): State {
    if entries == [] then s
    else
      var n := |entries| - 1;
      AfterSet(AfterSets(s, entries[..n]), entries[n])
  }

  function AfterReconciles(s: State, entries: seq<Entry>): State {
    if entries == [] then s
    else
      var n := |entries| - 1;
      Reconciled(AfterReconciles(s, entries[..n]), entries[n].path)
  }

  /** `assign` writes every key and then reconciles every key, the unwritten ones included. */
  function AfterAssign(s: State, entries: seq<Entry>): State {
    AfterReconciles(AfterSets(s, entries), entries)
  }

  function AfterReset(s: State): State {
    s.(data := s.snapshot,
       modified := if IsUnsavedDraft(s) then InitialDirty(s.snapshot, s.fromExisting) else {})
  }

  // ---------------------------------------------------------------- saving

  function Payload(s: State, create: bool): Fields {
    if create then s.data - {Id} else map p | p in s.data && p in s.modified && p != Id :: s.data[p]
  }

  /** Starts a request, or refuses to when an existing document has no known identity. */
  function Started(s: State): State {
    var target := Coalesce(Get(s.data, Id), s.identity);
    if Nullish(target) && s.fromExisting then s
    else
      var create := Nullish(target);
      s.(inFlight := Some(Request(create, target, s.modified, map p | p in s.modified :: Get(s.data, p),
                                  Payload(s, create))))
  }

  function AfterSave(s: State): State {
    if s.busy then s.(queued := s.queued + 1) else Started(s).(busy := true)
  }

  /** The next queued save starts once the previous one has settled; an empty queue is released. */
  function AfterDrain(s: State): State
    requires s.busy && s.inFlight.None?
  {
    if s.queued > 0 then Started(s).(queued := s.queued - 1) else s.(busy := false)
  }

  /** Edited while the request was under way: judged by value for what was sent, by dirtiness for the rest. */
  predicate Concurrent(s: State, r: Request, p: Path)
    requires r.values.Keys == r.paths
  {
    if p in r.paths then Get(s.data, p) != r.values[p] else p in s.modified
  }

  predicate Adopted(s: State, r: Request, echo: Fields, p: Path)
    requires r.values.Keys == r.paths
  {
    p in echo && p != Id && !Concurrent(s, r, p)
  }

  predicate AssignsId(r: Request, echo: Fields) {
    r.create && !Nullish(Get(echo, Id))
  }

  /** The response replaces the local value of `p`; equal values are left alone. */
  predicate Overwrites(s: State, r: Request, echo: Fields, p: Path)
    requires r.values.Keys == r.paths
  {
    Adopted(s, r, echo, p) && Get(s.data, p) != echo[p]
  }

  /** The local data once the response keys in `done` have been merged. */
  function MergedOver(s: State, r: Request, echo: Fields, done: set<Path>): Fields
    requires r.values.Keys == r.paths
  {
    s.data + map p | p in done && p in echo && Overwrites(s, r, echo, p) :: echo[p]
  }

  function DirtyOver(s: State, r: Request, echo: Fields, done: set<Path>): set<Path>
    requires r.values.Keys == r.paths
  {
    set p | p in s.modified && !(p in done && Adopted(s, r, echo, p))
  }

  function MergedData(s: State, r: Request, echo: Fields): Fields
    requires r.values.Keys == r.paths
  {
    var merged := MergedOver(s, r, echo, echo.Keys);
    if AssignsId(r, echo) then merged[Id := echo[Id]] else merged
  }

  /** Dirty after a success: what was sent and differs by now, and what was not sent and is dirty. */
  function RemainingDirty(s: State, r: Request, echo: Fields): set<Path>
    requires r.values.Keys == r.paths
  {
    (set p | p in r.paths + s.modified && Concurrent(s, r, p)) - (if AssignsId(r, echo) then {Id} else {})
  }

  /** The value `reset` will restore for `p`, when there is one, given the data and dirty set after the response. */
  function BaselineFrom(data: Fields, dirty: set<Path>, snapshot: Fields, r: Request, echo: Fields, p: Path)
    : Option<Value>
    requires r.values.Keys == r.paths
  {
    if p !in dirty then Some(Get(data, p))
    else if p in r.paths then Some(if p in echo then echo[p] else r.values[p])
    else if p in snapshot then Some(snapshot[p])
    else None
  }

  function SnapshotFrom(data: Fields, dirty: set<Path>, snapshot: Fields, r: Request, echo: Fields, done: set<Path>)
    : Fields
    requires r.values.Keys == r.paths
  {
    map p | p in done && BaselineFrom(data, dirty, snapshot, r, echo, p).Some? ::
      BaselineFrom(data, dirty, snapshot, r, echo, p).value
  }

  function Baseline(s: State, r: Request, echo: Fields, p: Path): Option<Value>
    requires r.values.Keys == r.paths
  {
    BaselineFrom(MergedData(s, r, echo), RemainingDirty(s, r, echo), s.snapshot, r, echo, p)
  }

  function MergedSnapshot(s: State, r: Request, echo: Fields): Fields
    requires r.values.Keys == r.paths
  {
    var data := MergedData(s, r, echo);
    SnapshotFrom(data, RemainingDirty(s, r, echo), s.snapshot, r, echo, data.Keys + r.paths)
  }

  predicate InFlightOk(s: State) {
    s.inFlight.Some? ==> s.busy && s.inFlight.value.values.Keys == s.inFlight.value.paths
  }

  function AfterSuccess(s: State, echo: Fields): State
    requires s.inFlight.Some? && InFlightOk(s)
  {
    var r := s.inFlight.value;
    var data := MergedData(s, r, echo);
    s.(data := data,
       modified := RemainingDirty(s, r, echo),
       snapshot := MergedSnapshot(s, r, echo),
       identity := Coalesce(Coalesce(Get(data, Id), Get(echo, Id)), s.identity),
       inFlight := None)
  }

  /** A failure leaves data, baseline and dirty set as they are at that moment. */
  function AfterFailure(s: State): State {
    s.(inFlight := None)
  }

  // ---------------------------------------------------------------- what a caller sees

  /** Every key now reads as its entry says, no other key has changed, and the written keys are settled. */
  ghost predicate IsAssigned(before: State, s: State, entries: seq<Entry>) {
    && (forall i :: 0 <= i < |entries| ==> Get(s.data, entries[i].path) == entries[i].value)
    && (forall p :: IsElsewhere(entries, p) ==> IsUntouched(before, s, p))
    && (forall i :: 0 <= i < |entries| ==> IsSettled(s, entries[i]))
  }

  ghost predicate IsUntouched(before: State, s: State, p: Path) {
    && (p in s.data <==> p in before.data) && Get(s.data, p) == Get(before.data, p)
    && (p in s.modified <==> p in before.modified)
  }

  ghost predicate IsElsewhere(entries: seq<Entry>, p: Path) {
    forall i :: 0 <= i < |entries| ==> entries[i].path != p
  }

  /** What was written is dirty where it differs from the baseline; where it does not, it is dirty in a draft only. */
  ghost predicate IsSettled(s: State, e: Entry) {
    var differs := e.path == Id || e.value != Get(s.snapshot, e.path);
    && (differs && !e.identical ==> e.path in s.modified)
    && (!differs && !IsUnsavedDraft(s) ==> e.path !in s.modified)
  }

  /**
   The request of a save: there is none for an existing document without identity. It creates
   when there is no identity to aim at. It holds the dirty paths with their values, and sends
   every field of a new document, or the dirty fields that are there.
   */
  ghost predicate IsCaptured(s: State, request: Option<Request>) {
    var target := if Nullish(Get(s.data, Id)) then s.identity else s.data[Id];
    if Nullish(target) && s.fromExisting then request == s.inFlight
    else
      && request.Some?
      && var r := request.value;
      && r.target == target && (r.create <==> Nullish(target))
      && r.paths == r.values.Keys == s.modified
      && (forall p :: p in r.values ==> r.values[p] == Get(s.data, p))
      && (forall p :: p in r.payload <==> p in s.data && p != Id && (r.create || p in s.modified))
      && (forall p :: p in r.payload ==> r.payload[p] == s.data[p])
  }

  /** A submitted path is edited when it differs from what was submitted, any other when it is dirty. */
  ghost predicate Edited(s: State, p: Path)
    requires s.inFlight.Some? && InFlightOk(s)
  {
    var r := s.inFlight.value;
    if p in r.paths then Get(s.data, p) != r.values[p] else p in s.modified
  }

  /** The response has nothing for `p`, or the user has edited it; `_id` is taken over when a document is created. */
  ghost predicate Keeps(s: State, echo: Fields, p: Path)
    requires s.inFlight.Some? && InFlightOk(s)
  {
    if p == Id then !(s.inFlight.value.create && !Nullish(Get(echo, Id))) else p !in echo || Edited(s, p)
  }

  /**
   What a response does: a created document gets its `_id`, every other key of the response
   that was not edited meanwhile reads as the response says, no other key changes, the edited
   keys and no others are dirty. The new baseline is what is clean, what the server now has
   of the keys sent, and the old baseline of the other dirty keys that are there.
   */
  ghost predicate IsAnswered(s: State, u: State, echo: Fields)
    requires s.inFlight.Some? && InFlightOk(s)
  {
    && (s.inFlight.value.create && !Nullish(Get(echo, Id)) ==>
          Id in u.data && u.data[Id] == echo[Id] && u.identity == echo[Id] && Id !in u.modified)
    && (forall p :: p in echo && p != Id && !Edited(s, p) ==> Get(u.data, p) == echo[p])
    && (forall p :: Keeps(s, echo, p) ==> (p in u.data <==> p in s.data) && Get(u.data, p) == Get(s.data, p))
    && (forall p :: p != Id ==> (p in u.modified <==> Edited(s, p)))
    && (forall p :: p !in u.modified ==> Get(u.snapshot, p) == Get(u.data, p))
    && var r := s.inFlight.value;
    && (forall p :: p in u.modified && p in r.paths ==>
                      p in u.snapshot && u.snapshot[p] == if p in echo then echo[p] else r.values[p])
    && (forall p :: p in u.modified && p !in r.paths ==>
                      Get(u.snapshot, p) == if p in u.data then Get(s.snapshot, p) else Undefined)
  }

  // ---------------------------------------------------------------- the wrapper

  class DocModel {
    var data: Fields
    var snapshot: Fields
    var modified: set<Path>
    var identity: Value
    const fromExisting: bool
    var inFlight: Option<Request>
    var queued: nat
    var busy: bool

    function View(): State
      reads this
    {
      State(data, snapshot, modified, identity, fromExisting, inFlight, queued, busy)
    }

    constructor (initial: Fields, persistenceId: Value, existing: bool)
      ensures View() == Init(initial, persistenceId, existing)
    {
      data := initial;
      snapshot := initial;
      modified := {};
      identity := persistenceId;
      fromExisting := existing;
      inFlight := None;
      queued := 0;
      busy := false;
      new;
      InitializeDirtyState();
    }

    method InitializeDirtyState()
      modifies this`modified
      ensures modified == old(modified) + InitialDirty(data, fromExisting)
    {
      if fromExisting || Truthy(Get(data, Id)) {
        return;
      }
      ghost var all, start := data.Keys, modified;
      var keys := data.Keys;
      while keys != {}
        invariant keys <= all
        invariant modified == start + DraftKeys(all - keys)
        decreases |keys|
      {
        var key :| key in keys;
        DraftKeysStep(all, keys, key);
        keys := keys - {key};
        if key != Id {
          modified := modified + {key};
        }
      }
      assert all - {} == all;
    }

    method ReconcilePath(path: Path)
      modifies this`modified
      ensures View() == Reconciled(old(View()), path)
    {
      if path == Id || path !in modified || IsUnsavedDraft(View()) {
        return;
      }
      if Get(data, path) == Get(snapshot, path) {
        modified := modified - {path};
      }
    }

    /** The write trap under the data: track, write, reconcile. */
    method WriteField(e: Entry)
      requires IdentityIsHonest(View(), e)
      modifies this`data, this`modified
      ensures View() == AfterSet(old(View()), e)
    {
      if e.identical {
        return;
      }
      modified := modified + {e.path};
      data := data[e.path := e.value];
      ReconcilePath(e.path);
    }

    /** A new value is stored, and dirty unless the document exists and the value is back at the baseline. */
    method Set(e: Entry)
      requires IdentityIsHonest(View(), e)
      modifies this`data, this`modified
      ensures View() == AfterSet(old(View()), e)
      ensures e.identical ==> data == old(data) && modified == old(modified)
      ensures !e.identical ==> data == old(data)[e.path := e.value]
      ensures !e.identical ==>
                (e.path in modified <==>
                 e.path == Id || IsUnsavedDraft(View()) || e.value != Get(snapshot, e.path))
      ensures forall k :: k != e.path ==> (k in modified <==> k in old(modified))
    {
      if e.identical {
        return;
      }
      WriteField(e);
      modified := modified + {e.path};
      ReconcilePath(e.path);
    }

    method Assign(entries: seq<Entry>)
      requires forall i, j :: 0 <= i < j < |entries| ==> entries[i].path != entries[j].path
      requires forall i :: 0 <= i < |entries| ==> IdentityIsHonest(View(), entries[i])
      modifies this`data, this`modified
      ensures View() == AfterAssign(old(View()), entries)
      ensures IsAssigned(old(View()), View(), entries)
    {
      for x := 0 to |entries|
        invariant View() == AfterSets(old(View()), entries[..x])
        invariant forall i :: x <= i < |entries| ==> IdentityIsHonest(View(), entries[i])
        invariant unchanged(this`snapshot, this`identity, this`inFlight, this`queued, this`busy)
      {
        assert entries[..x + 1][..x] == entries[..x];
        WriteField(entries[x]);
      }
      assert entries[..|entries|] == entries;
      ghost var written := View();
      for x := 0 to |entries|
        invariant View() == AfterReconciles(written, entries[..x])
      {
        assert entries[..x + 1][..x] == entries[..x];
        ReconcilePath(entries[x].path);
      }
      AssignWritesAll(old(View()), entries);
    }

    method MarkModified(path: Path)
      modifies this`modified
      ensures View() == old(View()).(modified := old(modified) + {path})
    {
      modified := modified + {path};
    }

    method Reset()
      modifies this`data, this`modified
      ensures View() == AfterReset(old(View()))
      ensures data == snapshot
      ensures modified
           == if old(IsUnsavedDraft(View())) && !Truthy(Get(snapshot, Id)) then snapshot.Keys - {Id} else {}
    {
      var wasDraft := IsUnsavedDraft(View());
      assert IsStored({}, snapshot, data);
      var same: set<Path> :| IsStored(same, snapshot, data);
      ReplaceData(snapshot, same);
      modified := {};
      if wasDraft {
        InitializeDirtyState();
      }
    }

    /**
     Writes all of `next` over the data; `same` are the keys whose very value is stored
     already. A written key is dirty unless it is back at its baseline, and always is where
     it differs from it; no other key's dirtiness changes.
     */
    method ReplaceData(next: Fields, same: set<Path>)
      requires IsStored(same, next, data)
      modifies this`data, this`modified
      ensures data == next
      ensures IsSettledOver(next.Keys - same, next, old(modified))
    {
      DropStale(next);
      ghost var base := data;
      var keys := next.Keys;
      OverlaidBy(base, next);
      while keys != {}
        invariant keys <= next.Keys
        invariant data == Overlaid(base, next, next.Keys - keys)
        invariant IsSettledOver(next.Keys - keys - same, next, old(modified))
        decreases |keys|
      {
        var key :| key in keys;
        OverlayStep(base, next, keys, same, key);
        WriteKey(next, key, key in same, next.Keys - keys - same, old(modified));
        keys := keys - {key};
      }
      assert next.Keys - {} == next.Keys;
    }

    method WriteKey(next: Fields, key: Path, identical: bool, ghost written: set<Path>, ghost before: set<Path>)
      requires key in next && key !in written && (identical ==> key in data && data[key] == next[key])
      requires IsSettledOver(written, next, before)
      modifies this`data, this`modified
      ensures data == old(data)[key := next[key]]
      ensures IsSettledOver(if identical then written else written + {key}, next, before)
    {
      WriteField(Entry(key, next[key], identical));
    }

    /**
     The dirty set once the keys in `written` have been written: elsewhere it is as before;
     a written key that differs from its baseline is dirty, and once the document is known
     to exist, no other written key is.
     */
    ghost predicate IsSettledOver(written: set<Path>, next: Fields, before: set<Path>)
      reads this
    {
      && (forall k :: k !in written ==> (k in modified <==> k in before))
      && (forall k :: k in written && (k == Id || Get(next, k) != Get(snapshot, k)) ==> k in modified)
      && (fromExisting || !Nullish(identity) ==>
            forall k :: k in written && k in modified ==> k == Id || Get(next, k) != Get(snapshot, k))
    }

    method DropStale(next: Fields)
      modifies this`data
      ensures data == map k | k in old(data) && k in next :: old(data)[k]
    {
      var stale := data.Keys;
      while stale != {}
        invariant stale <= old(data).Keys
        invariant data == map k | k in old(data) && (k in stale || k in next) :: old(data)[k]
        decreases |stale|
      {
        var key :| key in stale;
        stale := stale - {key};
        if key !in next {
          data := data - {key};
        }
      }
    }

    /** `save()`: starts at once when nothing is queued, otherwise waits its turn. */
    method Save()
      requires InFlightOk(View()) && (busy || inFlight.None?)
      modifies this`inFlight, this`queued, this`busy
      ensures View() == AfterSave(old(View()))
      ensures busy && queued == old(queued) + (if old(busy) then 1 else 0)
      ensures if old(busy) then inFlight == old(inFlight) else IsCaptured(old(View()), inFlight)
      ensures InFlightOk(View())
    {
      if busy {
        queued := queued + 1;
      } else {
        busy := true;
        StartSave();
      }
    }

    method Drain()
      requires busy && inFlight.None?
      modifies this`inFlight, this`queued, this`busy
      ensures View() == AfterDrain(old(View()))
      ensures busy <==> old(queued) > 0
      ensures busy ==> queued == old(queued) - 1 && IsCaptured(old(View()), inFlight)
      ensures !busy ==> queued == 0 && inFlight.None?
      ensures InFlightOk(View())
    {
      if queued > 0 {
        queued := queued - 1;
        StartSave();
      } else {
        busy := false;
      }
    }

    method StartSave()
      requires busy && inFlight.None?
      modifies this`inFlight
      ensures View() == Started(old(View()))
      ensures IsCaptured(View(), inFlight)
      ensures InFlightOk(View())
    {
      var target := Coalesce(Get(data, Id), identity);
      if Nullish(target) && fromExisting {
        return;
      }
      var create := Nullish(target);
      var values := CaptureValues();
      inFlight := Some(Request(create, target, modified, values, Payload(View(), create)));
    }

    /** The values of the dirty paths as they are submitted. */
    method CaptureValues() returns (values: Fields)
      ensures values == map p | p in modified :: Get(data, p)
    {
      values := map[];
      var paths := modified;
      while paths != {}
        invariant paths <= modified
        invariant values == map p | p in modified - paths :: Get(data, p)
        decreases |paths|
      {
        var path :| path in paths;
        paths := paths - {path};
        values := values[path := Get(data, path)];
      }
      assert modified - {} == modified;
    }

    method Fail()
      requires inFlight.Some?
      modifies this`inFlight
      ensures View() == AfterFailure(old(View()))
    {
      inFlight := None;
    }

    /** A successful response is taken over, and a copy of the wrapper handed out. */
    method Succeed(echo: Fields) returns (copy: DocModel)
      requires inFlight.Some? && InFlightOk(View())
      modifies this`data, this`modified, this`snapshot, this`identity, this`inFlight
      ensures View() == AfterSuccess(old(View()), echo)
      ensures IsAnswered(old(View()), View(), echo)
      ensures fresh(copy)
      ensures copy.View() == View().(fromExisting := true, queued := 0, busy := false)
    {
      SuccessAnswers(View(), echo);
      AbsorbResponse(echo);
      copy := HandOutCopy();
    }

    /** Merges a response, settles the dirty set, stores the `_id` of a created document, rebuilds the baseline. */
    method AbsorbResponse(echo: Fields)
      requires inFlight.Some? && InFlightOk(View())
      modifies this`data, this`modified, this`snapshot, this`identity, this`inFlight
      ensures View() == AfterSuccess(old(View()), echo)
    {
      var r := inFlight.value;
      ghost var before := View();
      var preValues := map p | p in r.paths :: Get(data, p);
      MergeResponse(r, echo, modified, preValues);
      SettleDirty(before, r, echo, preValues);
      AssignCreatedId(before, r, echo);
      AdoptIdentity(echo);
      RebuildSnapshot(r, echo);
      inFlight := None;
    }

    method AdoptIdentity(echo: Fields)
      modifies this`identity
      ensures identity == Coalesce(Coalesce(Get(data, Id), Get(echo, Id)), old(identity))
    {
      var latestId := Coalesce(Get(data, Id), Get(echo, Id));
      if !Nullish(latestId) {
        identity := latestId;
      }
    }

    /** The model a save returns: a wrapper of its own, with the same data, baseline and dirty set. */
    method HandOutCopy() returns (copy: DocModel)
      requires inFlight.None?
      ensures fresh(copy)
      ensures copy.View() == View().(fromExisting := true, queued := 0, busy := false)
    {
      copy := new DocModel(data, identity, true);
      copy.snapshot := snapshot;
      copy.modified := modified;
    }

    /** Server values replace local ones unless the user has edited the path meanwhile. */
    method MergeResponse(r: Request, echo: Fields, preDirty: set<Path>, preValues: Fields)
      requires r.values.Keys == r.paths
      requires preDirty == modified && preValues == map p | p in r.paths :: Get(data, p)
      modifies this`data, this`modified
      ensures data == MergedOver(old(View()), r, echo, echo.Keys)
      ensures modified == DirtyOver(old(View()), r, echo, echo.Keys)
    {
      ghost var before := View();
      var done: set<Path> := {};
      MergeStart(before, r, echo);
      while done != echo.Keys
        invariant done <= echo.Keys
        invariant data == MergedOver(before, r, echo, done)
        invariant modified == DirtyOver(before, r, echo, done)
        decreases |echo.Keys - done|
      {
        var key :| key in echo.Keys - done;
        MergeStep(before, r, echo, done, key);
        DirtyStep(before, r, echo, done, key);
        MergeField(before, r, echo, key, if key in r.paths then preValues[key] != r.values[key] else key in preDirty);
        done := done + {key};
      }
    }

    method MergeField(ghost before: State, r: Request, echo: Fields, key: Path, concurrent: bool)
      requires r.values.Keys == r.paths && key in echo
      requires concurrent == Concurrent(before, r, key)
      requires Get(data, key) == Get(before.data, key)
      modifies this`data, this`modified
      ensures data == if Overwrites(before, r, echo, key) then old(data)[key := echo[key]] else old(data)
      ensures modified == if Adopted(before, r, echo, key) then old(modified) - {key} else old(modified)
    {
      if key == Id || concurrent {
        return;
      }
      if Get(data, key) != echo[key] {
        WriteField(Entry(key, echo[key], false));
      }
      modified := modified - {key};
    }

    /** A submitted path stays dirty exactly when it differs from what was submitted. */
    method SettleDirty(ghost before: State, r: Request, ghost echo: Fields, preValues: Fields)
      requires r.values.Keys == r.paths
      requires preValues == map p | p in r.paths :: Get(before.data, p)
      requires modified == DirtyOver(before, r, echo, echo.Keys)
      modifies this`modified
      ensures modified == RemainingDirty(before, r, map[])
    {
      var paths := r.paths;
      while paths != {}
        invariant paths <= r.paths
        invariant forall p :: p in modified <==>
                              if p in r.paths - paths then Concurrent(before, r, p)
                              else p in DirtyOver(before, r, echo, echo.Keys)
        decreases |paths|
      {
        var path :| path in paths;
        paths := paths - {path};
        if preValues[path] == r.values[path] {
          modified := modified - {path};
        } else {
          modified := modified + {path};
        }
      }
    }

    /** A created document's `_id` is stored directly and is not dirty. */
    method AssignCreatedId(ghost before: State, r: Request, echo: Fields)
      requires r.values.Keys == r.paths
      requires data == MergedOver(before, r, echo, echo.Keys)
      requires modified == RemainingDirty(before, r, map[])
      modifies this`data, this`modified
      ensures data == MergedData(before, r, echo)
      ensures modified == RemainingDirty(before, r, echo)
    {
      if r.create && !Nullish(Get(echo, Id)) {
        WriteField(Entry(Id, echo[Id], Get(data, Id) == echo[Id]));
        modified := modified - {Id};
      }
    }

    method RebuildSnapshot(r: Request, echo: Fields)
      requires r.values.Keys == r.paths
      modifies this`snapshot
      ensures snapshot == SnapshotFrom(data, modified, old(snapshot), r, echo, data.Keys + r.paths)
    {
      var next: Fields := map[];
      var all := data.Keys + r.paths;
      var done: set<Path> := {};
      while done != all
        invariant done <= all
        invariant next == SnapshotFrom(data, modified, snapshot, r, echo, done)
        decreases |all - done|
        modifies {}
      {
        var key :| key in all - done;
        var baseline := BaselineOf(r, echo, key);
        SnapshotStep(data, modified, snapshot, r, echo, done, key);
        if baseline.Some? {
          next := next[key := baseline.value];
        }
        done := done + {key};
      }
      snapshot := next;
    }

    method BaselineOf(r: Request, echo: Fields, key: Path) returns (b: Option<Value>)
      requires r.values.Keys == r.paths
      ensures b == BaselineFrom(data, modified, snapshot, r, echo, key)
    {
      if key !in modified {
        return Some(Get(data, key));
      }
      if key in r.paths {
        return Some(if key in echo then echo[key] else r.values[key]);
      }
      return if key in snapshot then Some(snapshot[key]) else None;
    }
  }

  /**
   After a success the dirty paths are the submitted ones whose local value differed from
   the submitted one when the response came, and the unsubmitted ones that were dirty then.
   */
  lemma DirtyAfterSuccess(s: State, echo: Fields, p: Path)
    requires s.inFlight.Some? && InFlightOk(s) && p != Id
    ensures p in AfterSuccess(s, echo).modified
       <==> if p in s.inFlight.value.paths then Get(s.data, p) != s.inFlight.value.values[p] else p in s.modified
  {
    assert p in RemainingDirty(s, s.inFlight.value, echo) <==> p in AfterSuccess(s, echo).modified;
  }

  lemma SuccessAnswers(s: State, echo: Fields)
    requires s.inFlight.Some? && InFlightOk(s)
    ensures IsAnswered(s, AfterSuccess(s, echo), echo)
  {
    DataAfterSuccess(s, echo);
    BaselineAfterSuccess(s, echo);
    forall p | p != Id
      ensures p in AfterSuccess(s, echo).modified <==> Edited(s, p)
    {
      DirtyAfterSuccess(s, echo, p);
    }
  }

  lemma DataAfterSuccess(s: State, echo: Fields)
    requires s.inFlight.Some? && InFlightOk(s)
    ensures
      var u := AfterSuccess(s, echo);
      && (forall p :: p in echo && p != Id && !Edited(s, p) ==> Get(u.data, p) == echo[p])
      && (s.inFlight.value.create && !Nullish(Get(echo, Id)) ==>
            Id in u.data && u.data[Id] == echo[Id] && u.identity == echo[Id] && Id !in u.modified)
      && (forall p :: Keeps(s, echo, p) ==> (p in u.data <==> p in s.data) && Get(u.data, p) == Get(s.data, p))
  {
  }

  lemma BaselineAfterSuccess(s: State, echo: Fields)
    requires s.inFlight.Some? && InFlightOk(s)
    ensures
      var u, r := AfterSuccess(s, echo), s.inFlight.value;
      && (forall p :: p !in u.modified ==> Get(u.snapshot, p) == Get(u.data, p))
      && (forall p :: p in u.modified && p in r.paths ==>
                        p in u.snapshot && u.snapshot[p] == if p in echo then echo[p] else r.values[p])
      && (forall p :: p in u.modified && p !in r.paths ==>
                        Get(u.snapshot, p) == if p in u.data then Get(s.snapshot, p) else Undefined)
  {
  }

  /** Every key now reads as its entry says, a changed one that differs from its baseline is dirty, and that is all. */
  ghost predicate AreWritten(before: State, s: State, entries: seq<Entry>) {
    && s.snapshot == before.snapshot
    && (forall i :: 0 <= i < |entries| ==> Get(s.data, entries[i].path) == entries[i].value)
    && (forall p :: IsElsewhere(entries, p) ==> IsUntouched(before, s, p))
    && (forall i :: 0 <= i < |entries| ==> IsTracked(s, entries[i]))
  }

  ghost predicate IsTracked(s: State, e: Entry) {
    !e.identical && (e.path == Id || e.value != Get(s.snapshot, e.path)) ==> e.path in s.modified
  }

  lemma SetWritesOne(s: State, e: Entry)
    requires e.identical ==> e.value == Get(s.data, e.path)
    ensures
      var u := AfterSet(s, e);
      && u.snapshot == s.snapshot && Get(u.data, e.path) == e.value && IsTracked(u, e)
      && forall p :: p != e.path ==> IsUntouched(s, u, p)
  {
  }

  lemma {:induction false} SetsWriteAll(s: State, entries: seq<Entry>)
    requires forall i, j :: 0 <= i < j < |entries| ==> entries[i].path != entries[j].path
    requires forall i :: 0 <= i < |entries| ==> IdentityIsHonest(s, entries[i])
    ensures AreWritten(s, AfterSets(s, entries), entries)
  {
    if entries != [] {
      var n := |entries| - 1;
      var w := AfterSets(s, entries[..n]);
      SetsWriteAll(s, entries[..n]);
      assert IsElsewhere(entries[..n], entries[n].path);
      assert IsUntouched(s, w, entries[n].path);
      SetWritesOne(w, entries[n]);
      OneMoreWritten(s, w, AfterSets(s, entries), entries);
    }
  }

  lemma OneMoreWritten(s: State, w: State, u: State, entries: seq<Entry>)
    requires entries != []
    requires forall i, j :: 0 <= i < j < |entries| ==> entries[i].path != entries[j].path
    requires AreWritten(s, w, entries[..|entries| - 1]) && u.snapshot == w.snapshot
    requires
      var e := entries[|entries| - 1];
      Get(u.data, e.path) == e.value && IsTracked(u, e) && forall p :: p != e.path ==> IsUntouched(w, u, p)
    ensures AreWritten(s, u, entries)
  {
    var n := |entries| - 1;
    forall i | 0 <= i < n
      ensures Get(u.data, entries[i].path) == entries[i].value && IsTracked(u, entries[i])
    {
      assert entries[..n][i] == entries[i] && IsTracked(w, entries[..n][i]);
      assert IsUntouched(w, u, entries[i].path);
    }
    forall p | IsElsewhere(entries, p)
      ensures IsUntouched(s, u, p)
    {
      assert IsElsewhere(entries[..n], p) && entries[n].path != p;
      assert IsUntouched(s, w, p) && IsUntouched(w, u, p);
    }
  }

  lemma {:induction false} ReconcilesSettleAll(s: State, entries: seq<Entry>)
    ensures
      var u := AfterReconciles(s, entries);
      && u == s.(modified := u.modified)
      && (forall p :: IsElsewhere(entries, p) ==> (p in u.modified <==> p in s.modified))
      && (forall p :: p == Id || Get(s.data, p) != Get(s.snapshot, p) ==> (p in u.modified <==> p in s.modified))
      && u.modified <= s.modified
      && (forall i :: 0 <= i < |entries| && entries[i].path != Id && !IsUnsavedDraft(s)
                      && Get(s.data, entries[i].path) == Get(s.snapshot, entries[i].path) ==>
                        entries[i].path !in u.modified)
  {
    if entries != [] {
      var n := |entries| - 1;
      ReconcilesSettleAll(s, entries[..n]);
      assert forall p :: IsElsewhere(entries, p) ==> IsElsewhere(entries[..n], p);
    }
  }

  lemma AssignWritesAll(s: State, entries: seq<Entry>)
    requires forall i, j :: 0 <= i < j < |entries| ==> entries[i].path != entries[j].path
    requires forall i :: 0 <= i < |entries| ==> IdentityIsHonest(s, entries[i])
    ensures IsAssigned(s, AfterAssign(s, entries), entries)
  {
    SetsWriteAll(s, entries);
    ReconcilesSettleAll(AfterSets(s, entries), entries);
  }

  /** `base` with the keys in `done` taken from `next`. */
  function Overlaid(base: Fields, next: Fields, done: set<Path>): Fields {
    base + map k | k in done && k in next :: next[k]
  }

  lemma OverlaidBy(base: Fields, next: Fields)
    requires base.Keys <= next.Keys
    ensures next.Keys - next.Keys == {}
    ensures Overlaid(base, next, {}) == base && Overlaid(base, next, next.Keys) == next
  {
  }

  lemma OverlayStep(base: Fields, next: Fields, keys: set<Path>, same: set<Path>, key: Path)
    requires key in keys && keys <= next.Keys
    ensures Overlaid(base, next, next.Keys - (keys - {key})) == Overlaid(base, next, next.Keys - keys)[key := next[key]]
    ensures key in base ==> key in Overlaid(base, next, next.Keys - keys)
                            && Overlaid(base, next, next.Keys - keys)[key] == base[key]
    ensures next.Keys - (keys - {key}) - same
         == next.Keys - keys - same + if key in same then {} else {key}
  {
  }

  lemma MergeStart(s: State, r: Request, echo: Fields)
    requires r.values.Keys == r.paths
    ensures MergedOver(s, r, echo, {}) == s.data
    ensures DirtyOver(s, r, echo, {}) == s.modified
  {
  }

  lemma MergeStep(s: State, r: Request, echo: Fields, done: set<Path>, key: Path)
    requires r.values.Keys == r.paths && key in echo && key !in done
    ensures Get(MergedOver(s, r, echo, done), key) == Get(s.data, key)
    ensures MergedOver(s, r, echo, done + {key})
         == if Overwrites(s, r, echo, key) then MergedOver(s, r, echo, done)[key := echo[key]]
            else MergedOver(s, r, echo, done)
  {
  }

  lemma DirtyStep(s: State, r: Request, echo: Fields, done: set<Path>, key: Path)
    requires r.values.Keys == r.paths && key in echo
    ensures DirtyOver(s, r, echo, done + {key})
         == if Adopted(s, r, echo, key) then DirtyOver(s, r, echo, done) - {key} else DirtyOver(s, r, echo, done)
  {
  }

  lemma SnapshotStep(data: Fields, dirty: set<Path>, snapshot: Fields, r: Request, echo: Fields,
                     done: set<Path>, key: Path)
    requires r.values.Keys == r.paths && key !in done
    ensures SnapshotFrom(data, dirty, snapshot, r, echo, done + {key})
         == match BaselineFrom(data, dirty, snapshot, r, echo, key)
            case None => SnapshotFrom(data, dirty, snapshot, r, echo, done)
            case Some(value) => SnapshotFrom(data, dirty, snapshot, r, echo, done)[key := value]
  {
  }
}
