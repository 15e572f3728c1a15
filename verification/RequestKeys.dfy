/**
 The memoized request-key serializer. It walks a graph of shared values, keeps the
 text of every container it has finished, and stops on cycles, on nesting deeper
 than 64 levels and on its node and output budgets.

 Its key is the key of the fully unshared value.
 */
module RequestKeys {
  import opened Options
  import opened JsonText
  import opened KeyOrder
  import opened RequestTree
  import opened RequestNormal
  import opened RequestGraph
  import opened RequestVisits
  import opened Sequences

  const MAX_OUTPUT := 200_000

  datatype Failure = TooDeep | TooManyNodes | TooLong | Cyclic | NotPlain

  /** A finished value: its text, and how many containers nest below it. */
  datatype Serialized = Serialized(text: string, height: nat)

  datatype Result<+T> = Ok(value: T) | Err(error: Failure)

  /** How many levels a value met at `depth` may take. */
  function Levels(depth: nat): nat {
    if depth <= MAX_DEPTH then MAX_DEPTH + 1 - depth else 0
  }

  /**
   The width estimate of an object: its raw keys, six characters per entry and two more.
   It is one character high for an object of one or more entries.
   */
  ghost predicate TooWide(heap: Heap, v: Val, output: nat) {
    && v.Ref? && Look(heap, v.id).Container? && Look(heap, v.id).kind.Object?
    && var es := Look(heap, v.id).entries;
    && output + Sum((e: Keyed<Val>) => |e.key|, es) + 6 * |es| + 2 > MAX_OUTPUT
  }

  // ---------------------------------------------------------------- budgets inside a group

  lemma GroupTextBounds(kind: Kind, es: seq<Entry>, i: nat)
    requires i < |es|
    ensures |Text(Group(kind, es))|
         >= 2 + |Join(Parts(kind, es[..i]))| + |Mark(i, kind, es[i].key)| + |Text(es[i].value)|
  {
    JoinGrows(Parts(kind, es), i);
    assert Parts(kind, es)[..i] == Parts(kind, es[..i]);
  }

  /** What stands between the earlier entries of a container and the value of entry `i`. */
  function Mark(i: nat, kind: Kind, key: string): string {
    (if i > 0 then [','] else []) + Label(kind, key)
  }

  /** The text of the first entries grows by the mark and the text of the next one. */
  lemma NextText(kind: Kind, ts: seq<Entry>, e: Entry, text: string, mark: string, child: string)
    requires text == [Open(kind)] + Join(Parts(kind, ts))
    requires mark == Mark(|ts|, kind, e.key) && child == Text(e.value)
    ensures text + mark + child == [Open(kind)] + Join(Parts(kind, ts + [e]))
  {
    AppendKeepsPrefix(ts, e);
    assert Parts(kind, ts + [e]) == Parts(kind, ts) + [Part(kind, e)];
    JoinOneMore(Parts(kind, ts), Part(kind, e));
    Associate([Open(kind)], Join(Parts(kind, ts)), if |ts| > 0 then [','] else [], Label(kind, e.key), child);
  }

  lemma Associate(a: string, b: string, c: string, d: string, e: string)
    ensures a + b + (c + d) + e == a + (b + c + (d + e))
  {
  }

  lemma NextHeight(ts: seq<Entry>, e: Entry)
    ensures HeightAll(ts + [e]) == Max(HeightAll(ts), Height(e.value) + 1)
  {
    AppendKeepsPrefix(ts, e);
  }

  class Serializer {
    const heap: Heap
    const keep: bool
    var stack: set<nat>
    var cache: map<nat, Serialized>
    var nodesVisited: nat
    var outputLength: nat

    constructor (heap: Heap, keep: bool)
      ensures this.heap == heap && this.keep == keep
      ensures stack == {} && cache == map[] && nodesVisited == 0 && outputLength == 0
    {
      this.heap, this.keep := heap, keep;
      stack, cache, nodesVisited, outputLength := {}, map[], 0, 0;
    }

    ghost function ViewAt(v: Val, depth: nat): Option<Tree> {
      View(keep, heap, v, Levels(depth))
    }

    ghost function VisitAt(v: Val, depth: nat, before: Visits): Option<Visits> {
      Visit(keep, heap, v, Levels(depth), before)
    }

    ghost function Now(): Visits
      reads this`nodesVisited, this`cache
    {
      Visits(nodesVisited, cache.Keys)
    }

    /** `s` is the text of `v`, met at `depth`, with every shared part spelled out. */
    ghost predicate IsSerialized(s: Serialized, v: Val, depth: nat) {
      && ViewAt(v, depth).Some?
      && s == Serialized(Text(ViewAt(v, depth).value), Height(ViewAt(v, depth).value))
    }

    /**
     Why a value met at `depth` cannot be serialized: it has no view, or it takes more than
     one of the budgets has left.
     */
    ghost predicate Justifies(e: Failure, v: Val, depth: nat, before: Visits, output: nat) {
      || ViewAt(v, depth).None?
      || (e.TooManyNodes? && VisitAt(v, depth, before).None?)
      || (e.TooLong? && output + |Text(ViewAt(v, depth).value)| > MAX_OUTPUT)
      || (e.TooLong? && TooWide(heap, v, output))
    }

    /** A cached text is the text of its container, at every depth its height allows. */
    ghost predicate CacheOk()
      reads this`cache
    {
      forall id :: id in cache ==> Remembers(id, cache[id])
    }

    ghost predicate Remembers(id: nat, s: Serialized) {
      var w := View(keep, heap, Ref(id), s.height + 1);
      w.Some? && s == Serialized(Text(w.value), Height(w.value))
    }

    /** The containers on the stack are those on the way down to `v`. */
    ghost predicate OnTheWay(path: seq<nat>, v: Val)
      reads this`stack
    {
      && Chain(heap, path)
      && (forall id :: id in stack <==> id in path)
      && (path != [] && v.Ref? ==> IsChild(heap, path[|path| - 1], v.id))
    }

    /** The container being serialized is the last on the stack. */
    ghost predicate IsInside(path: seq<nat>, id: nat)
      reads this`stack
    {
      path != [] && path[|path| - 1] == id && Chain(heap, path) && forall k :: k in stack <==> k in path
    }

    lemma LongerChain(path: seq<nat>, id: nat)
      requires Chain(heap, path) && (path != [] ==> IsChild(heap, path[|path| - 1], id))
      ensures Chain(heap, path + [id])
    {
      var longer := path + [id];
      forall i | 0 <= i < |longer| - 1
        ensures IsChild(heap, longer[i], longer[i + 1])
      {
        if i < |path| - 1 {
          assert IsChild(heap, path[i], path[i + 1]);
        }
      }
    }

    method NoteNode() returns (r: Result<()>)
      modifies this`nodesVisited
      ensures nodesVisited == old(nodesVisited) + 1
      ensures r == if nodesVisited > MAX_NODES then Err(TooManyNodes) else Ok(())
    {
      nodesVisited := nodesVisited + 1;
      r := if nodesVisited > MAX_NODES then Err(TooManyNodes) else Ok(());
    }

    method Reserve(length: nat) returns (r: Result<()>)
      modifies this`outputLength
      ensures outputLength == old(outputLength) + length
      ensures r == if outputLength > MAX_OUTPUT then Err(TooLong) else Ok(())
    {
      outputLength := outputLength + length;
      r := if outputLength > MAX_OUTPUT then Err(TooLong) else Ok(());
    }

    /** A cached value is the view of its container at every depth where its height fits. */
    lemma HitIsTheView(id: nat, s: Serialized, depth: nat)
      requires Remembers(id, s)
      ensures if depth + s.height > MAX_DEPTH then ViewAt(Ref(id), depth).None? else IsSerialized(s, Ref(id), depth)
    {
      if Levels(depth) > s.height {
        ViewIsStable(keep, heap, Ref(id), s.height + 1, Levels(depth));
      } else if ViewAt(Ref(id), depth).Some? {
        NoViewBeyondHeight(id, s, Levels(depth));
      }
    }

    lemma NoViewBeyondHeight(id: nat, s: Serialized, levels: nat)
      requires Remembers(id, s) && levels <= s.height
      ensures View(keep, heap, Ref(id), levels).None?
    {
      if View(keep, heap, Ref(id), levels).Some? {
        ViewIsShallow(keep, heap, Ref(id), levels);
        ViewIsStable(keep, heap, Ref(id), levels, s.height + 1);
      }
    }

    lemma ViewIsRemembered(id: nat, depth: nat)
      requires ViewAt(Ref(id), depth).Some?
      ensures Remembers(id, Serialized(Text(ViewAt(Ref(id), depth).value), Height(ViewAt(Ref(id), depth).value)))
    {
      var w := ViewAt(Ref(id), depth).value;
      ViewOfHeight(id, Levels(depth), w, Height(w));
    }

    lemma ViewOfHeight(id: nat, levels: nat, w: Tree, height: nat)
      requires View(keep, heap, Ref(id), levels) == Some(w) && height == Height(w)
      ensures Remembers(id, Serialized(Text(w), height))
    {
      ViewIsStable(keep, heap, Ref(id), levels, height + 1);
      HasViewOfHeight(id, w, Serialized(Text(w), height));
    }

    lemma HasViewOfHeight(id: nat, w: Tree, s: Serialized)
      requires View(keep, heap, Ref(id), s.height + 1) == Some(w) && s == Serialized(Text(w), Height(w))
      ensures Remembers(id, s)
    {
    }

    lemma StackedHasNoView(path: seq<nat>, id: nat, depth: nat)
      requires OnTheWay(path, Ref(id)) && id in stack
      ensures ViewAt(Ref(id), depth).None?
    {
      var k :| 0 <= k < |path| && path[k] == id;
      var cycle := path[k..];
      forall i | 0 <= i < |cycle| - 1
        ensures IsChild(heap, cycle[i], cycle[i + 1])
      {
        assert IsChild(heap, path[k + i], path[k + i + 1]);
      }
      CycleHasNoView(keep, heap, cycle, Levels(depth));
    }

    /** Serializes one value met at `depth`. */
    method SerializeNode(v: Val, depth: nat, ghost path: seq<nat>) returns (r: Result<Serialized>)
      requires CacheOk() && OnTheWay(path, v) && depth <= MAX_DEPTH + 1
      modifies this
      ensures CacheOk()
      ensures r.Ok? ==>
                && IsSerialized(r.value, v, depth)
                && outputLength == old(outputLength) + |r.value.text| <= MAX_OUTPUT
                && VisitAt(v, depth, old(Now())) == Some(Now())
                && stack == old(stack)
      ensures r.Ok? && (v.Ref? ==> v.id !in old(cache)) ==> !TooWide(heap, v, old(outputLength))
      ensures r.Err? ==> Justifies(r.error, v, depth, old(Now()), old(outputLength))
      decreases MAX_DEPTH + 1 - depth, 5
    {
      if depth > MAX_DEPTH {
        return Err(TooDeep);
      }
      if v.Ref? && v.id in cache {
        var cached := cache[v.id];
        HitIsTheView(v.id, cached, depth);
        if depth + cached.height > MAX_DEPTH {
          return Err(TooDeep);
        }
        var reserved := Reserve(|cached.text|);
        if reserved.Err? {
          return Err(reserved.error);
        }
        return Ok(cached);
      }
      var noted := NoteNode();
      if noted.Err? {
        return Err(noted.error);
      }
      match v
      case Foreign => return Err(NotPlain);
      case Prim(l) => r := SerializeLeaf(l);
      case Ref(id) =>
        match Look(heap, id)
        case Unsupported => return Err(NotPlain);
        case Container(kind, es) =>
          if kind.Array? {
            r := SerializeArray(id, depth, path);
          } else {
            r := SerializeObject(id, depth, path);
          }
    }

    method SerializeLeaf(l: Leaf) returns (r: Result<Serialized>)
      modifies this`outputLength
      ensures r.Ok? ==> r.value == Serialized(LeafText(l), 0)
      ensures r.Ok? ==> outputLength == old(outputLength) + |LeafText(l)| <= MAX_OUTPUT
      ensures r.Err? <==> old(outputLength) + |LeafText(l)| > MAX_OUTPUT
      ensures r.Err? ==> r.error == TooLong
    {
      if l.Str? && outputLength + |l.s| + 4 > MAX_OUTPUT {
        return Err(TooLong);
      }
      var reserved := Reserve(|LeafText(l)|);
      if reserved.Err? {
        return Err(reserved.error);
      }
      return Ok(Serialized(LeafText(l), 0));
    }

    /** `ts` are the views of the first entries of a container met at `depth`. */
    ghost predicate Starts(id: nat, depth: nat, ts: seq<Entry>) {
      && Look(heap, id).Container? && depth <= MAX_DEPTH
      && var es := Arranged(keep, Look(heap, id));
      && |ts| <= |es|
      && forall j :: 0 <= j < |ts| ==> ts[j].key == es[j].key && ViewAt(es[j].value, depth + 1) == Some(ts[j].value)
    }

    /** How far a container is: the text and the height so far, and what they have cost since it was entered. */
    ghost predicate Progress(id: nat, depth: nat, ts: seq<Entry>, out: Serialized, before: Visits, output: nat)
      reads this`nodesVisited, this`outputLength, this`cache
    {
      && IsWritten(id, depth, ts, out)
      && outputLength == output + |out.text| <= MAX_OUTPUT
      && VisitAll(keep, heap, Arranged(keep, Look(heap, id))[..|ts|], Levels(depth + 1), before) == Some(Now())
    }

    /** Why a container fails whose entries are being serialized. */
    ghost predicate JustifiesInside(e: Failure, id: nat, depth: nat, before: Visits, output: nat)
      requires Look(heap, id).Container?
    {
      || ViewAt(Ref(id), depth).None?
      || (e.TooManyNodes? && VisitAll(keep, heap, Arranged(keep, Look(heap, id)), Levels(depth + 1), before).None?)
      || (e.TooLong? && output + |Text(ViewAt(Ref(id), depth).value)| > MAX_OUTPUT)
    }

    /** A container is counted first, and then its entries if there is room for them. */
    lemma EntersContainer(id: nat, depth: nat, before: Visits)
      requires Look(heap, id).Container? && depth <= MAX_DEPTH
      requires id !in before.finished && before.count < MAX_NODES
      ensures
        var counted, es := before.(count := before.count + 1), Arranged(keep, Look(heap, id));
        && |es| == |Look(heap, id).entries|
        && VisitAt(Ref(id), depth, before)
           == if counted.count + |es| > MAX_NODES then None
              else Finish(id, VisitAll(keep, heap, es, Levels(depth + 1), counted))
    {
      ArrangedSize(Look(heap, id));
    }

    /** `out` is the text and the height of a container's first entries, without the closing bracket. */
    ghost predicate IsWritten(id: nat, depth: nat, ts: seq<Entry>, out: Serialized) {
      && Starts(id, depth, ts)
      && out == Serialized([Open(Look(heap, id).kind)] + Join(Parts(Look(heap, id).kind, ts)), HeightAll(ts))
    }

    /** The view of a container, given the views of its first entries. */
    lemma ViewStartsWith(id: nat, depth: nat, ts: seq<Entry>) returns (all: seq<Entry>)
      requires Starts(id, depth, ts) && ViewAt(Ref(id), depth).Some?
      ensures ViewAt(Ref(id), depth).value == Group(Look(heap, id).kind, all)
      ensures |all| == |Arranged(keep, Look(heap, id))| && all[..|ts|] == ts
      ensures |ts| < |all| ==>
                var e := Arranged(keep, Look(heap, id))[|ts|];
                all[|ts|].key == e.key && ViewAt(e.value, depth + 1) == Some(all[|ts|].value)
    {
      var es;
      es, all := ContainerView(keep, heap, id, Levels(depth));
      forall j | 0 <= j < |ts|
        ensures all[j] == ts[j]
      {
        assert ViewAt(es[j].value, depth + 1) == Some(ts[j].value);
      }
    }

    /** What the whole container takes at least: the entries so far, the next one, and two brackets. */
    lemma NextEntryCosts(id: nat, depth: nat, ts: seq<Entry>, key: string, v: Val)
      requires Starts(id, depth, ts) && |ts| < |Arranged(keep, Look(heap, id))|
      requires Arranged(keep, Look(heap, id))[|ts|] == Keyed(key, v)
      ensures ViewAt(Ref(id), depth).Some? ==>
                && ViewAt(v, depth + 1).Some?
                && var kind, w, t := Look(heap, id).kind, ViewAt(Ref(id), depth).value, ViewAt(v, depth + 1).value;
                && |Text(w)| >= 2 + |Join(Parts(kind, ts))| + |Mark(|ts|, kind, key)| + |Text(t)|
    {
      if ViewAt(Ref(id), depth).Some? {
        var all := ViewStartsWith(id, depth, ts);
        GroupTextBounds(Look(heap, id).kind, all, |ts|);
      }
    }

    /** Reserves what comes between the earlier entries and the value of entry `i`. */
    method ReserveMark(i: nat, kind: Kind, key: string) returns (r: Result<string>)
      requires outputLength <= MAX_OUTPUT
      modifies this`outputLength
      ensures r.Ok? ==> r.value == Mark(i, kind, key) && outputLength == old(outputLength) + |r.value| <= MAX_OUTPUT
      ensures r.Err? ==> r.error == TooLong && old(outputLength) + |Mark(i, kind, key)| > MAX_OUTPUT
    {
      if i > 0 {
        var comma := Reserve(1);
        if comma.Err? {
          return Err(comma.error);
        }
      }
      if kind.Object? {
        if outputLength + |key| + 3 > MAX_OUTPUT {
          return Err(TooLong);
        }
        var named := Reserve(|Quote(key)| + 1);
        if named.Err? {
          return Err(named.error);
        }
      }
      return Ok(Mark(i, kind, key));
    }

    /** Serializes the next entry of a container behind the text of the earlier ones. */
    method AppendEntry(id: nat, i: nat, e: Keyed<Val>, depth: nat, out: Serialized,
                       ghost path: seq<nat>, ghost ts: seq<Entry>, ghost before: Visits, ghost output: nat)
      returns (r: Result<Serialized>, ghost grown: seq<Entry>)
      requires CacheOk() && OnTheWay(path, e.value) && Progress(id, depth, ts, out, before, output)
      requires i == |ts| < |Arranged(keep, Look(heap, id))| && e == Arranged(keep, Look(heap, id))[|ts|]
      modifies this
      ensures CacheOk()
      ensures r.Ok? ==> |grown| == |ts| + 1 && stack == old(stack)
      ensures r.Ok? ==> Progress(id, depth, grown, r.value, before, output)
      ensures r.Err? ==> JustifiesInside(r.error, id, depth, before, output)
      decreases MAX_DEPTH + 1 - depth, 1
    {
      grown := ts;
      var kind := Look(heap, id).kind;
      var mark := ReserveMark(i, kind, e.key);
      if mark.Err? {
        MarkFailure(id, depth, ts, out, e, before, output);
        return Err(mark.error), grown;
      }
      r, grown := AppendChild(id, i, e, depth, out, mark.value, path, ts, before, output);
    }

    /** The value of the next entry, behind its mark. */
    method AppendChild(id: nat, i: nat, e: Keyed<Val>, depth: nat, out: Serialized, mark: string,
                       ghost path: seq<nat>, ghost ts: seq<Entry>, ghost before: Visits, ghost output: nat)
      returns (r: Result<Serialized>, ghost grown: seq<Entry>)
      requires CacheOk() && OnTheWay(path, e.value) && IsWritten(id, depth, ts, out)
      requires i == |ts| < |Arranged(keep, Look(heap, id))| && e == Arranged(keep, Look(heap, id))[|ts|]
      requires mark == Mark(i, Look(heap, id).kind, e.key)
      requires outputLength == output + |out.text| + |mark| <= MAX_OUTPUT
      requires VisitAll(keep, heap, Arranged(keep, Look(heap, id))[..i], Levels(depth + 1), before) == Some(Now())
      modifies this
      ensures CacheOk()
      ensures r.Ok? ==> |grown| == |ts| + 1 && stack == old(stack)
      ensures r.Ok? ==> Progress(id, depth, grown, r.value, before, output)
      ensures r.Err? ==> JustifiesInside(r.error, id, depth, before, output)
      decreases MAX_DEPTH + 1 - depth, 0
    {
      grown := ts;
      ghost var now := Now();
      var child := SerializeNode(e.value, depth + 1, path);
      if child.Err? {
        ChildFailure(child.error, id, depth, ts, out, e, before, output, now);
        return Err(child.error), grown;
      }
      var next := Serialized(out.text + mark + child.value.text, Max(out.height, child.value.height + 1));
      grown := EntryWritten(id, depth, ts, out, e, mark, child.value, next);
      EntryVisited(id, depth, i, before, now, Now());
      r := Ok(next);
    }

    lemma EntryVisited(id: nat, depth: nat, i: nat, before: Visits, now: Visits, after: Visits)
      requires Look(heap, id).Container? && i < |Arranged(keep, Look(heap, id))|
      requires VisitAll(keep, heap, Arranged(keep, Look(heap, id))[..i], Levels(depth + 1), before) == Some(now)
      requires VisitAt(Arranged(keep, Look(heap, id))[i].value, depth + 1, now) == Some(after)
      ensures VisitAll(keep, heap, Arranged(keep, Look(heap, id))[..i + 1], Levels(depth + 1), before) == Some(after)
    {
      Prefix(Arranged(keep, Look(heap, id)), i);
    }

    lemma EntryWritten(id: nat, depth: nat, ts: seq<Entry>, out: Serialized, e: Keyed<Val>,
                       mark: string, s: Serialized, next: Serialized)
      returns (grown: seq<Entry>)
      requires IsWritten(id, depth, ts, out) && IsSerialized(s, e.value, depth + 1)
      requires |ts| < |Arranged(keep, Look(heap, id))| && e == Arranged(keep, Look(heap, id))[|ts|]
      requires mark == Mark(|ts|, Look(heap, id).kind, e.key)
      requires next == Serialized(out.text + mark + s.text, Max(out.height, s.height + 1))
      ensures |grown| == |ts| + 1 && IsWritten(id, depth, grown, next)
      ensures |next.text| == |out.text| + |mark| + |s.text|
    {
      var t := Keyed(e.key, ViewAt(e.value, depth + 1).value);
      NextText(Look(heap, id).kind, ts, t, out.text, mark, s.text);
      NextHeight(ts, t);
      NextStarts(id, depth, ts, t);
      grown := ts + [t];
    }

    /** What is too long for the mark of the next entry is too long for the container. */
    lemma MarkFailure(
      id: nat, depth: nat, ts: seq<Entry>, out: Serialized, e: Keyed<Val>, before: Visits, output: nat)
      requires IsWritten(id, depth, ts, out)
      requires |ts| < |Arranged(keep, Look(heap, id))| && e == Arranged(keep, Look(heap, id))[|ts|]
      requires output + |out.text| + |Mark(|ts|, Look(heap, id).kind, e.key)| > MAX_OUTPUT
      ensures JustifiesInside(TooLong, id, depth, before, output)
    {
      NextEntryCosts(id, depth, ts, e.key, e.value);
    }

    /** What justifies the failure of the next entry justifies that of the container. */
    lemma ChildFailure(error: Failure, id: nat, depth: nat, ts: seq<Entry>, out: Serialized, e: Keyed<Val>,
                       before: Visits, output: nat, now: Visits)
      requires IsWritten(id, depth, ts, out)
      requires VisitAll(keep, heap, Arranged(keep, Look(heap, id))[..|ts|], Levels(depth + 1), before) == Some(now)
      requires |ts| < |Arranged(keep, Look(heap, id))| && e == Arranged(keep, Look(heap, id))[|ts|]
      requires
        var outputAt := output + |out.text| + |Mark(|ts|, Look(heap, id).kind, e.key)|;
        Justifies(error, e.value, depth + 1, now, outputAt)
      ensures JustifiesInside(error, id, depth, before, output)
    {
      if VisitAt(e.value, depth + 1, now).None? {
        ChildTakesTooManyNodes(id, depth, |ts|, before, now);
      }
      ChildTakesTooMuch(error, id, depth, ts, out, e, output);
    }

    lemma ChildTakesTooManyNodes(id: nat, depth: nat, i: nat, before: Visits, now: Visits)
      requires Look(heap, id).Container? && i < |Arranged(keep, Look(heap, id))|
      requires VisitAll(keep, heap, Arranged(keep, Look(heap, id))[..i], Levels(depth + 1), before) == Some(now)
      requires VisitAt(Arranged(keep, Look(heap, id))[i].value, depth + 1, now).None?
      ensures VisitAll(keep, heap, Arranged(keep, Look(heap, id)), Levels(depth + 1), before).None?
    {
      var es := Arranged(keep, Look(heap, id));
      Prefix(es, i);
      VisitAllStops(keep, heap, es, Levels(depth + 1), before, i + 1);
    }

    lemma ChildTakesTooMuch(
      error: Failure, id: nat, depth: nat, ts: seq<Entry>, out: Serialized, e: Keyed<Val>, output: nat)
      requires IsWritten(id, depth, ts, out)
      requires |ts| < |Arranged(keep, Look(heap, id))| && e == Arranged(keep, Look(heap, id))[|ts|]
      ensures ViewAt(e.value, depth + 1).None? ==> ViewAt(Ref(id), depth).None?
      ensures
        var outputAt := output + |out.text| + |Mark(|ts|, Look(heap, id).kind, e.key)|;
        (|| ViewAt(e.value, depth + 1).None?
         || outputAt + |Text(ViewAt(e.value, depth + 1).value)| > MAX_OUTPUT
         || TooWide(heap, e.value, outputAt))
        ==> ViewAt(Ref(id), depth).None? || output + |Text(ViewAt(Ref(id), depth).value)| > MAX_OUTPUT
    {
      var outputAt := output + |out.text| + |Mark(|ts|, Look(heap, id).kind, e.key)|;
      NextEntryCosts(id, depth, ts, e.key, e.value);
      if TooWide(heap, e.value, outputAt) {
        TooWideIsLong(e.value, depth + 1, outputAt);
      }
    }

    lemma NextStarts(id: nat, depth: nat, ts: seq<Entry>, t: Entry)
      requires Starts(id, depth, ts) && |ts| < |Arranged(keep, Look(heap, id))|
      requires
        var e := Arranged(keep, Look(heap, id))[|ts|];
        t.key == e.key && ViewAt(e.value, depth + 1) == Some(t.value)
      ensures Starts(id, depth, ts + [t])
    {
    }

    /** Serializes an array that has been counted as a node already. */
    method SerializeArray(id: nat, depth: nat, ghost path: seq<nat>) returns (r: Result<Serialized>)
      requires CacheOk() && OnTheWay(path, Ref(id)) && depth <= MAX_DEPTH
      requires Look(heap, id).Container? && Look(heap, id).kind.Array?
      requires id !in cache && 0 < nodesVisited <= MAX_NODES
      modifies this
      ensures CacheOk()
      ensures r.Ok? ==>
                && IsSerialized(r.value, Ref(id), depth)
                && outputLength == old(outputLength) + |r.value.text| <= MAX_OUTPUT
                && VisitAt(Ref(id), depth, Visits(old(nodesVisited) - 1, old(cache.Keys))) == Some(Now())
                && stack == old(stack)
      ensures r.Err? ==>
                Justifies(r.error, Ref(id), depth, Visits(old(nodesVisited) - 1, old(cache.Keys)), old(outputLength))
      decreases MAX_DEPTH + 1 - depth, 4
    {
      var entered := OpenArray(id, depth, path);
      if entered.Err? {
        return Err(entered.error);
      }
      var es := ArrangeEntries(id, Look(heap, id).entries);
      r := SerializeEntered(id, es, depth, path + [id], outputLength - 1);
    }

    /** Serializes an object that has been counted as a node already. */
    method SerializeObject(id: nat, depth: nat, ghost path: seq<nat>) returns (r: Result<Serialized>)
      requires CacheOk() && OnTheWay(path, Ref(id)) && depth <= MAX_DEPTH
      requires Look(heap, id).Container? && Look(heap, id).kind.Object?
      requires id !in cache && 0 < nodesVisited <= MAX_NODES
      modifies this
      ensures CacheOk()
      ensures r.Ok? ==>
                && IsSerialized(r.value, Ref(id), depth)
                && outputLength == old(outputLength) + |r.value.text| <= MAX_OUTPUT
                && VisitAt(Ref(id), depth, Visits(old(nodesVisited) - 1, old(cache.Keys))) == Some(Now())
                && stack == old(stack)
      ensures r.Ok? ==> !TooWide(heap, Ref(id), old(outputLength))
      ensures r.Err? ==>
                Justifies(r.error, Ref(id), depth, Visits(old(nodesVisited) - 1, old(cache.Keys)), old(outputLength))
      decreases MAX_DEPTH + 1 - depth, 4
    {
      var unsorted := Look(heap, id).entries;
      var entered := OpenObject(id, depth, unsorted, path);
      if entered.Err? {
        return Err(entered.error);
      }
      var es := ArrangeEntries(id, unsorted);
      r := SerializeEntered(id, es, depth, path + [id], outputLength - 1);
    }

    /** Items as they stand, and entries too for sort specifications; other entries by their keys. */
    method ArrangeEntries(id: nat, unsorted: seq<Keyed<Val>>) returns (es: seq<Keyed<Val>>)
      requires Look(heap, id).Container? && unsorted == Look(heap, id).entries
      ensures es == Arranged(keep, Look(heap, id)) && |es| == |unsorted|
    {
      es := if keep || Look(heap, id).kind.Array? then unsorted else Sort(unsorted);
      ArrangedSize(Look(heap, id));
    }

    /** Puts an object on the stack and opens its bracket, unless it is there already or too wide. */
    method OpenObject(id: nat, depth: nat, unsorted: seq<Keyed<Val>>, ghost path: seq<nat>) returns (r: Result<()>)
      requires OnTheWay(path, Ref(id)) && Look(heap, id).Container? && Look(heap, id).kind.Object?
      requires unsorted == Look(heap, id).entries
      requires depth <= MAX_DEPTH && id !in cache && 0 < nodesVisited <= MAX_NODES
      modifies this`stack, this`outputLength
      ensures r.Ok? ==> stack - {id} == old(stack) && IsInside(path + [id], id)
      ensures r.Ok? ==> nodesVisited + |unsorted| <= MAX_NODES
      ensures r.Ok? ==> outputLength == old(outputLength) + 1 <= MAX_OUTPUT
      ensures r.Ok? ==> !TooWide(heap, Ref(id), old(outputLength))
      ensures r.Err? ==> Justifies(r.error, Ref(id), depth, Visits(nodesVisited - 1, cache.Keys), old(outputLength))
    {
      if id in stack {
        StackedHasNoView(path, id, depth);
        return Err(Cyclic);
      }
      stack := stack + {id};
      LongerChain(path, id);
      if nodesVisited + |unsorted| > MAX_NODES {
        NoRoomForEntries(id, depth, Visits(nodesVisited - 1, cache.Keys));
        return Err(TooManyNodes);
      }
      var keyChars := KeyChars(unsorted);
      if outputLength + keyChars + 6 * |unsorted| + 2 > MAX_OUTPUT {
        return Err(TooLong);
      }
      // The width estimate has left room for the bracket.
      r := Reserve(1);
    }

    /** Puts an array on the stack and opens its bracket, unless it is there already or has too many items. */
    method OpenArray(id: nat, depth: nat, ghost path: seq<nat>) returns (r: Result<()>)
      requires OnTheWay(path, Ref(id)) && Look(heap, id).Container? && Look(heap, id).kind.Array?
      requires depth <= MAX_DEPTH && id !in cache && 0 < nodesVisited <= MAX_NODES
      modifies this`stack, this`outputLength
      ensures r.Ok? ==>
                && stack - {id} == old(stack) && IsInside(path + [id], id)
                && nodesVisited + |Look(heap, id).entries| <= MAX_NODES
                && outputLength == old(outputLength) + 1 <= MAX_OUTPUT
      ensures r.Err? ==> Justifies(r.error, Ref(id), depth, Visits(nodesVisited - 1, cache.Keys), old(outputLength))
    {
      if id in stack {
        StackedHasNoView(path, id, depth);
        return Err(Cyclic);
      }
      stack := stack + {id};
      LongerChain(path, id);
      r := Reserve(1);
      if r.Err? {
        WidthCosts(id, depth);
        return;
      }
      if nodesVisited + |Look(heap, id).entries| > MAX_NODES {
        NoRoomForEntries(id, depth, Visits(nodesVisited - 1, cache.Keys));
        return Err(TooManyNodes);
      }
    }

    lemma NoRoomForEntries(id: nat, depth: nat, before: Visits)
      requires Look(heap, id).Container? && depth <= MAX_DEPTH
      requires id !in before.finished && before.count < MAX_NODES
      requires before.count + 1 + |Look(heap, id).entries| > MAX_NODES
      ensures VisitAt(Ref(id), depth, before).None?
    {
      EntersContainer(id, depth, before);
    }

    /** A container whose bracket is open and whose entries have room. */
    method SerializeEntered(id: nat, es: seq<Keyed<Val>>, depth: nat, ghost path: seq<nat>, ghost output: nat)
      returns (r: Result<Serialized>)
      requires CacheOk() && depth <= MAX_DEPTH
      requires Look(heap, id).Container? && es == Arranged(keep, Look(heap, id)) && id !in cache
      requires IsInside(path, id)
      requires 0 < nodesVisited && nodesVisited + |es| <= MAX_NODES && outputLength == output + 1 <= MAX_OUTPUT
      modifies this
      ensures CacheOk()
      ensures r.Ok? ==>
                && IsSerialized(r.value, Ref(id), depth)
                && outputLength == output + |r.value.text| <= MAX_OUTPUT
                && VisitAt(Ref(id), depth, Visits(old(nodesVisited) - 1, old(cache.Keys))) == Some(Now())
                && stack == old(stack) - {id}
      ensures r.Err? ==>
                Justifies(r.error, Ref(id), depth, Visits(old(nodesVisited) - 1, old(cache.Keys)), output)
      decreases MAX_DEPTH + 1 - depth, 3
    {
      ghost var before := Visits(nodesVisited - 1, cache.Keys);
      r := SerializeEntries(id, es, depth, path, Now(), output);
      if r.Err? {
        FailsInside(r.error, id, depth, before, output);
      } else {
        FinishesInside(id, depth, before, Now());
        Remember(id, depth, r.value);
      }
    }

    lemma FailsInside(e: Failure, id: nat, depth: nat, before: Visits, output: nat)
      requires Look(heap, id).Container? && depth <= MAX_DEPTH
      requires id !in before.finished && before.count < MAX_NODES
      requires JustifiesInside(e, id, depth, before.(count := before.count + 1), output)
      ensures Justifies(e, Ref(id), depth, before, output)
    {
      EntersContainer(id, depth, before);
    }

    lemma FinishesInside(id: nat, depth: nat, before: Visits, now: Visits)
      requires Look(heap, id).Container? && depth <= MAX_DEPTH
      requires id !in before.finished && before.count + 1 + |Arranged(keep, Look(heap, id))| <= MAX_NODES
      requires
        var counted := before.(count := before.count + 1);
        VisitAll(keep, heap, Arranged(keep, Look(heap, id)), Levels(depth + 1), counted) == Some(now)
      ensures VisitAt(Ref(id), depth, before) == Some(Visits(now.count, now.finished + {id}))
    {
      EntersContainer(id, depth, before);
    }

    /** Takes a finished container off the stack and keeps its text. */
    method Remember(id: nat, depth: nat, s: Serialized)
      requires CacheOk() && IsSerialized(s, Ref(id), depth)
      modifies this`stack, this`cache
      ensures CacheOk() && stack == old(stack) - {id}
      ensures Now() == Visits(old(nodesVisited), old(cache.Keys) + {id})
    {
      stack := stack - {id};
      ViewIsRemembered(id, depth);
      cache := cache[id := s];
    }

    /** The entries of a container whose bracket is open, and its closing bracket. */
    method SerializeEntries(id: nat, es: seq<Keyed<Val>>, depth: nat, ghost path: seq<nat>,
                            ghost before: Visits, ghost output: nat)
      returns (r: Result<Serialized>)
      requires CacheOk() && depth <= MAX_DEPTH
      requires Look(heap, id).Container? && es == Arranged(keep, Look(heap, id))
      requires IsInside(path, id)
      requires before == Now() && outputLength == output + 1 <= MAX_OUTPUT
      modifies this
      ensures CacheOk()
      ensures r.Ok? ==>
                && IsSerialized(r.value, Ref(id), depth)
                && outputLength == output + |r.value.text| <= MAX_OUTPUT
                && VisitAll(keep, heap, es, Levels(depth + 1), before) == Some(Now())
                && stack == old(stack)
      ensures r.Err? ==> JustifiesInside(r.error, id, depth, before, output)
      decreases MAX_DEPTH + 1 - depth, 2
    {
      var kind := Look(heap, id).kind;
      var out := Serialized([Open(kind)], 0);
      ghost var ts: seq<Entry> := [];
      for i := 0 to |es|
        invariant CacheOk() && stack == old(stack)
        invariant |ts| == i && Progress(id, depth, ts, out, before, output)
      {
        ChildOnTheWay(path, id, i);
        var appended, grown := AppendEntry(id, i, es[i], depth, out, path, ts, before, output);
        if appended.Err? {
          return Err(appended.error);
        }
        out, ts := appended.value, grown;
      }
      assert es[..|es|] == es;
      r := CloseContainer(id, depth, out, ts, before, output);
    }

    /** The closing bracket of a container whose entries are all written. */
    method CloseContainer(id: nat, depth: nat, out: Serialized,
                          ghost ts: seq<Entry>, ghost before: Visits, ghost output: nat)
      returns (r: Result<Serialized>)
      requires Progress(id, depth, ts, out, before, output) && |ts| == |Arranged(keep, Look(heap, id))|
      modifies this`outputLength
      ensures r.Ok? ==>
                && IsSerialized(r.value, Ref(id), depth)
                && outputLength == output + |r.value.text| <= MAX_OUTPUT
      ensures r.Err? ==> JustifiesInside(r.error, id, depth, before, output)
    {
      ContainerIsComplete(id, depth, ts);
      var closed := Reserve(1);
      if closed.Err? {
        return Err(closed.error);
      }
      return Ok(out.(text := out.text + [Close(Look(heap, id).kind)]));
    }

    /** What a container takes at least, by the number of its entries and their keys. */
    lemma WidthCosts(id: nat, depth: nat)
      requires depth <= MAX_DEPTH
      ensures ViewAt(Ref(id), depth).Some? ==>
                var node, w := Look(heap, id), ViewAt(Ref(id), depth).value;
                && |Text(w)| >= 2
                && (node.kind.Object? ==>
                      |Text(w)| >= Sum((e: Keyed<Val>) => |e.key|, node.entries) + 6 * |node.entries| + 1)
    {
      if ViewAt(Ref(id), depth).Some? {
        var es, ts := ContainerView(keep, heap, id, Levels(depth));
        ArrangedSize(Look(heap, id));
        if Look(heap, id).kind.Object? {
          ObjectWidth(Look(heap, id), ts);
        }
      }
    }

    lemma ArrangedSize(node: Node)
      requires node.Container?
      ensures |Arranged(keep, node)| == |node.entries|
    {
      SortSorts(node.entries);
    }

    lemma ObjectWidth(node: Node, ts: seq<Entry>)
      requires node.Container? && node.kind.Object? && |ts| == |Arranged(keep, node)|
      requires forall i :: 0 <= i < |ts| ==> ts[i].key == Arranged(keep, node)[i].key
      ensures |Join(Parts(Object, ts))| + 1 >= Sum((e: Keyed<Val>) => |e.key|, node.entries) + 6 * |ts|
    {
      var weight := (e: Keyed<Val>) => |e.key|;
      var weight' := (e: Entry) => |e.key|;
      SortKeepsSum(weight, node.entries);
      SumOfKeys(weight, Arranged(keep, node), weight', ts);
      JoinOfObjectIsLong(ts, weight');
    }

    /** The estimate is at most one character high. */
    lemma TooWideIsLong(v: Val, depth: nat, output: nat)
      requires TooWide(heap, v, output) && depth <= MAX_DEPTH + 1
      ensures ViewAt(v, depth).Some? ==> output + |Text(ViewAt(v, depth).value)| >= MAX_OUTPUT
    {
      if depth <= MAX_DEPTH {
        WidthCosts(v.id, depth);
      }
    }

    lemma ContainerIsComplete(id: nat, depth: nat, ts: seq<Entry>)
      requires Starts(id, depth, ts) && |ts| == |Arranged(keep, Look(heap, id))|
      ensures ViewAt(Ref(id), depth) == Some(Group(Look(heap, id).kind, ts))
    {
      var es := Arranged(keep, Look(heap, id));
      assert ViewsAll(keep, heap, es, Levels(depth + 1));
      assert ViewAll(keep, heap, es, Levels(depth + 1)) == ts;
    }

    lemma ChildOnTheWay(path: seq<nat>, id: nat, i: nat)
      requires Look(heap, id).Container? && i < |Arranged(keep, Look(heap, id))|
      requires IsInside(path, id)
      ensures OnTheWay(path, Arranged(keep, Look(heap, id))[i].value)
    {
      var node := Look(heap, id);
      if !keep && node.kind.Object? {
        var j := FromSorted(node.entries, i);
      }
    }
  }

  /** The keys of an object, together. */
  method KeyChars(es: seq<Keyed<Val>>) returns (n: nat)
    ensures n == Sum((e: Keyed<Val>) => |e.key|, es)
  {
    n := 0;
    for i := 0 to |es|
      invariant n == Sum((e: Keyed<Val>) => |e.key|, es[..i])
    {
      n := n + |es[i].key|;
      assert es[..i + 1][..i] == es[..i];
    }
    assert es[..|es|] == es;
  }

  lemma {:induction false} SumOfKeys<S, T>(v: Keyed<S> -> nat, es: seq<Keyed<S>>, w: Keyed<T> -> nat, ts: seq<Keyed<T>>)
    requires |es| == |ts| && forall i :: 0 <= i < |es| ==> v(es[i]) == w(ts[i])
    ensures Sum(v, es) == Sum(w, ts)
  {
    if es != [] {
      SumOfKeys(v, es[..|es| - 1], w, ts[..|ts| - 1]);
    }
  }

  // ---------------------------------------------------------------- the whole key

  /**
   The key of a value, with the entries of its objects sorted, or as they stand for sort
   specifications. A key that is returned is the key of the fully unshared value, which
   nests at most 64 levels and holds nothing unsupported. Every such value gets its key
   exactly when the key is not too long, the value is not estimated too wide, and its
   first visits keep within the node budget: at most 20,000 nodes when no container occurs
   twice, and that many for its distinct parts in any case. Only keys of full length are
   estimated too wide.
   */
  method RequestKeyFor(heap: Heap, v: Val, keep: bool) returns (r: Result<string>)
    ensures r.Ok? ==>
              && Unfold(heap, v, MAX_DEPTH + 1).Some?
              && r.value == Key(keep, Unfold(heap, v, MAX_DEPTH + 1).value)
              && Height(Unfold(heap, v, MAX_DEPTH + 1).value) <= MAX_DEPTH
    ensures r.Ok? <==>
            && Unfold(heap, v, MAX_DEPTH + 1).Some?
            && |Key(keep, Unfold(heap, v, MAX_DEPTH + 1).value)| <= MAX_OUTPUT
            && !TooWide(heap, v, 0)
            && FirstVisits(keep, heap, v).Some?
    ensures r.Ok? ==> CostOnce(heap, v, MAX_DEPTH + 1) <= MAX_NODES
    ensures Unfold(heap, v, MAX_DEPTH + 1).Some? && Unshared(heap, v, MAX_DEPTH + 1) ==>
              (r.Ok? <==>
               && |Key(keep, Unfold(heap, v, MAX_DEPTH + 1).value)| <= MAX_OUTPUT
               && !TooWide(heap, v, 0)
               && Nodes(Unfold(heap, v, MAX_DEPTH + 1).value) <= MAX_NODES)
    ensures Unfold(heap, v, MAX_DEPTH + 1).Some? && TooWide(heap, v, 0) ==>
              |Key(keep, Unfold(heap, v, MAX_DEPTH + 1).value)| >= MAX_OUTPUT
    ensures r.Err? && !r.error.TooManyNodes? && !r.error.TooLong? ==> Unfold(heap, v, MAX_DEPTH + 1).None?
  {
    var s := new Serializer(heap, keep);
    assert s.Now() == Visits(0, {});
    var answer := s.SerializeNode(v, 0, []);
    ViewIsNormalUnfolding(keep, heap, v, MAX_DEPTH + 1);
    if Unfold(heap, v, MAX_DEPTH + 1).Some? {
      UnfoldingIsShallow(heap, v, MAX_DEPTH + 1);
      BudgetOfVisits(heap, v, keep);
      if TooWide(heap, v, 0) {
        s.TooWideIsLong(v, 0, 0);
      }
    }
    r := if answer.Ok? then Ok(answer.value.text) else Err(answer.error);
  }

  /** The first visits, in terms of the value alone. */
  lemma BudgetOfVisits(h: Heap, v: Val, keep: bool)
    requires Unfold(h, v, MAX_DEPTH + 1).Some?
    ensures Unshared(h, v, MAX_DEPTH + 1) ==>
              (FirstVisits(keep, h, v).Some? <==> Nodes(Unfold(h, v, MAX_DEPTH + 1).value) <= MAX_NODES)
    ensures FirstVisits(keep, h, v).Some? ==> CostOnce(h, v, MAX_DEPTH + 1) <= MAX_NODES
  {
    if Unshared(h, v, MAX_DEPTH + 1) {
      UnsharedIsCountedInFull(keep, h, v);
    }
    if FirstVisits(keep, h, v).Some? {
      SharedPartsCountOnce(keep, h, v);
    }
  }

  lemma UnfoldingIsShallow(h: Heap, v: Val, levels: nat)
    requires Unfold(h, v, levels).Some?
    ensures Height(Unfold(h, v, levels).value) < levels
  {
    ViewIsNormalUnfolding(true, h, v, levels);
    KeptOrderIsUnchanged(Unfold(h, v, levels).value);
    ViewIsShallow(true, h, v, levels);
  }

  /** A value that reaches itself has no key, under any budget. */
  lemma CyclesHaveNoKey(h: Heap, cycle: seq<nat>, levels: nat)
    requires cycle != [] && Chain(h, cycle) && IsChild(h, cycle[|cycle| - 1], cycle[0])
    ensures Unfold(h, Ref(cycle[0]), levels).None?
  {
    CycleHasNoView(true, h, cycle, levels);
    ViewIsNormalUnfolding(true, h, Ref(cycle[0]), levels);
  }

  /** Objects name each key once, and array items have no key. */
  ghost predicate WellFormedHeap(h: Heap) {
    forall id :: id in h && h[id].Container? ==>
                   && (h[id].kind.Object? ==> DistinctKeys(h[id].entries))
                   && (h[id].kind.Array? ==> forall i :: 0 <= i < |h[id].entries| ==> h[id].entries[i].key == [])
  }

  lemma {:induction false} UnfoldingIsWellFormed(h: Heap, v: Val, levels: nat)
    requires WellFormedHeap(h) && Unfold(h, v, levels).Some?
    ensures WellFormed(Unfold(h, v, levels).value)
    decreases levels
  {
    if v.Ref? {
      var es := Look(h, v.id).entries;
      var ts := UnfoldAll(h, es, levels - 1);
      forall i | 0 <= i < |ts|
        ensures WellFormed(ts[i].value) && ts[i].key == es[i].key
      {
        UnfoldingIsWellFormed(h, es[i].value, levels - 1);
      }
    }
  }

  /** Two graphs that both get a request key get the same one exactly when they unfold to one structure. */
  lemma EqualKeysMeanEqualStructures(h: Heap, v: Val, h': Heap, v': Val, levels: nat)
    requires WellFormedHeap(h) && WellFormedHeap(h')
    requires Unfold(h, v, levels).Some? && Unfold(h', v', levels).Some?
    ensures Key(false, Unfold(h, v, levels).value) == Key(false, Unfold(h', v', levels).value)
       <==> Structure(Unfold(h, v, levels).value) == Structure(Unfold(h', v', levels).value)
  {
    UnfoldingIsWellFormed(h, v, levels);
    UnfoldingIsWellFormed(h', v', levels);
    RequestKeysIdentifyStructures(Unfold(h, v, levels).value, Unfold(h', v', levels).value);
  }

  lemma {:induction false} EscapeOfPlainLetters(n: nat)
    ensures Escape(seq(n, _ => 'a')) == seq(n, _ => 'a')
  {
    if n > 0 {
      EscapeOfPlainLetters(n - 1);
      assert seq(n, _ => 'a')[1..] == seq(n - 1, _ => 'a');
    }
  }

  /** The estimate turns one value away whose key is exactly as long as a key may be. */
  lemma FullKeyIsTurnedAway() returns (heap: Heap, v: Val)
    ensures Unfold(heap, v, MAX_DEPTH + 1).Some? && |Key(false, Unfold(heap, v, MAX_DEPTH + 1).value)| == MAX_OUTPUT
    ensures Nodes(Unfold(heap, v, MAX_DEPTH + 1).value) <= MAX_NODES && FirstVisits(false, heap, v).Some?
    ensures TooWide(heap, v, 0)
  {
    var key := seq(MAX_OUTPUT - 7, _ => 'a');
    EscapeOfPlainLetters(MAX_OUTPUT - 7);
    var es := [Keyed(key, Prim(Null))];
    heap, v := map[0 := Container(Object, es)], Ref(0);
    var ts := [Keyed(key, Atom(Null))];
    assert UnfoldAll(heap, es, MAX_DEPTH) == ts;
    SingleEntry(key, ts);
    SingleSum(es);
    assert ts[..0] == [] && NodesAll(ts) == 1;
    FewNodesKeepWithinBudget(false, heap, v);
  }

  lemma SingleEntry(key: string, ts: seq<Entry>)
    requires ts == [Keyed(key, Atom(Null))]
    ensures |Key(false, Group(Object, ts))| == |Escape(key)| + 7
  {
    assert NormalAll(false, ts) == ts;
    assert Sort(ts) == ts;
    assert ts[..0] == [];
    assert Parts(Object, ts) == [Part(Object, ts[0])];
    assert Join([Part(Object, ts[0])]) == Part(Object, ts[0]);
  }

  lemma SingleSum(es: seq<Keyed<Val>>)
    requires |es| == 1
    ensures Sum((e: Keyed<Val>) => |e.key|, es) == |es[0].key|
  {
    assert es[..0] == [];
  }
}
