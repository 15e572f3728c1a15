/**
 What the serializer of request keys counts against its node budget: a container when
 it is first met, each of its entries that is no container, and nothing when it is met
 again. The counting walk is tied here to the value itself: to the nodes of its unshared
 form when no container occurs twice, and to its distinct parts in any case.
 */
module RequestVisits {
  import opened Options
  import opened KeyOrder
  import opened RequestTree
  import opened RequestNormal
  import opened RequestGraph

  const MAX_DEPTH := 64
  const MAX_NODES := 20_000

  // ---------------------------------------------------------------- first visits

  /** How many values have been counted, and the containers that are finished and not counted again. */
  datatype Visits = Visits(count: nat, finished: set<nat>)

  /**
   The visits up to and including a value and everything below it, or none if the node
   budget runs out: a container must leave room for all its entries before they are visited.
   */
  ghost function Visit(keep: bool, h: Heap, v: Val, levels: nat, before: Visits): Option<Visits>
    decreases levels, 0
  {
    if v.Ref? && v.id in before.finished then Some(before)
    else if levels == 0 || before.count >= MAX_NODES then None
    else
      var counted := before.(count := before.count + 1);
      if !v.Ref? || Look(h, v.id).Unsupported? then Some(counted)
      else
        var es := Arranged(keep, Look(h, v.id));
        if counted.count + |es| > MAX_NODES then None
        else Finish(v.id, VisitAll(keep, h, es, levels - 1, counted))
  }

  ghost function VisitAll(keep: bool, h: Heap, es: seq<Keyed<Val>>, levels: nat, before: Visits): Option<Visits>
    decreases levels, |es| + 1
  {
    if es == [] then Some(before)
    else
      var n := |es| - 1;
      match VisitAll(keep, h, es[..n], levels, before)
      case None => None
      case Some(now) => Visit(keep, h, es[n].value, levels, now)
  }

  function Finish(id: nat, visits: Option<Visits>): Option<Visits> {
    match visits
    case None => None
    case Some(c) => Some(c.(finished := c.finished + {id}))
  }

  lemma {:induction false} VisitAllStops(keep: bool, h: Heap, es: seq<Keyed<Val>>, levels: nat, before: Visits, i: nat)
    requires i <= |es| && VisitAll(keep, h, es[..i], levels, before).None?
    ensures VisitAll(keep, h, es, levels, before).None?
  {
    if i < |es| {
      var n := |es| - 1;
      assert es[..n][..i] == es[..i];
      VisitAllStops(keep, h, es[..n], levels, before, i);
    } else {
      assert es[..i] == es;
    }
  }

  /** What keeps within the node budget when nothing is shared does so in any case. */
  lemma {:induction false} FewNodesAreVisited(keep: bool, h: Heap, v: Val, levels: nat, before: Visits)
    requires View(keep, h, v, levels).Some?
    requires before.count + Nodes(View(keep, h, v, levels).value) <= MAX_NODES
    ensures Visit(keep, h, v, levels, before).Some?
    ensures Visit(keep, h, v, levels, before).value.count <= before.count + Nodes(View(keep, h, v, levels).value)
    decreases levels, 0
  {
    if v.Ref? && v.id !in before.finished {
      var es, ts := ContainerView(keep, h, v.id, levels);
      FewNodesAreAllVisited(keep, h, es, levels - 1, before.(count := before.count + 1));
    }
  }

  lemma {:induction false} FewNodesAreAllVisited(
    keep: bool, h: Heap, es: seq<Keyed<Val>>, levels: nat, before: Visits)
    requires ViewsAll(keep, h, es, levels)
    requires before.count + NodesAll(ViewAll(keep, h, es, levels)) <= MAX_NODES
    ensures VisitAll(keep, h, es, levels, before).Some?
    ensures VisitAll(keep, h, es, levels, before).value.count
         <= before.count + NodesAll(ViewAll(keep, h, es, levels))
    decreases levels, |es| + 1
  {
    if es != [] {
      var n := |es| - 1;
      assert ViewAll(keep, h, es[..n], levels) == ViewAll(keep, h, es, levels)[..n];
      FewNodesAreAllVisited(keep, h, es[..n], levels, before);
      FewNodesAreVisited(keep, h, es[n].value, levels, VisitAll(keep, h, es[..n], levels, before).value);
    }
  }

  /** The first visits of a whole value, or none if they take more than the node budget. */
  ghost function FirstVisits(keep: bool, h: Heap, v: Val): Option<Visits> {
    Visit(keep, h, v, MAX_DEPTH + 1, Visits(0, {}))
  }

  /** However its parts are shared and met, a value of at most 20,000 unshared nodes keeps within the budget. */
  lemma FewNodesKeepWithinBudget(keep: bool, h: Heap, v: Val)
    requires Unfold(h, v, MAX_DEPTH + 1).Some? && Nodes(Unfold(h, v, MAX_DEPTH + 1).value) <= MAX_NODES
    ensures FirstVisits(keep, h, v).Some?
  {
    ViewIsNormalUnfolding(keep, h, v, MAX_DEPTH + 1);
    NormalKeepsNodes(keep, Unfold(h, v, MAX_DEPTH + 1).value);
    FewNodesAreVisited(keep, h, v, MAX_DEPTH + 1, Visits(0, {}));
  }

  // ---------------------------------------------------------------- occurrences

  /** How often a container occurs in the unshared form of a value. */
  ghost function Times(h: Heap, v: Val, levels: nat, id: nat): nat
    decreases levels, 0
  {
    if levels == 0 || !v.Ref? then 0
    else
      var here := if v.id == id then 1 else 0;
      var node := Look(h, v.id);
      if node.Container? then here + Sum(TimesBelow(h, levels - 1, id), node.entries) else here
  }

  ghost function TimesBelow(h: Heap, levels: nat, id: nat): Keyed<Val> -> nat
    decreases levels, 1
  {
    (e: Keyed<Val>) => Times(h, e.value, levels, id)
  }

  /** No container occurs twice. */
  ghost predicate Unshared(h: Heap, v: Val, levels: nat) {
    forall id: nat :: Times(h, v, levels, id) <= 1
  }

  /** The distinct containers of a value. */
  ghost function Containers(h: Heap, v: Val, levels: nat): set<nat> {
    set id | id in h && Times(h, v, levels, id) > 0
  }

  ghost function ContainersBelow(h: Heap, es: seq<Keyed<Val>>, levels: nat): set<nat> {
    set id | id in h && Sum(TimesBelow(h, levels, id), es) > 0
  }

  lemma ArrangedSum(weight: Keyed<Val> -> nat, keep: bool, node: Node)
    requires node.Container?
    ensures Sum(weight, Arranged(keep, node)) == Sum(weight, node.entries)
  {
    SortKeepsSum(weight, node.entries);
  }

  lemma {:induction false} PositiveSum<T>(weight: Keyed<T> -> nat, es: seq<Keyed<T>>) returns (i: nat)
    requires Sum(weight, es) > 0
    ensures i < |es| && weight(es[i]) > 0
  {
    i := |es| - 1;
    if weight(es[i]) == 0 {
      i := PositiveSum(weight, es[..i]);
    }
  }

  /** A container that occurs in a value is no higher than the value. */
  lemma {:induction false} OccursWithinHeight(keep: bool, h: Heap, v: Val, levels: nat, id: nat)
    requires View(keep, h, v, levels).Some? && Times(h, v, levels, id) > 0
    ensures View(keep, h, Ref(id), Height(View(keep, h, v, levels).value) + 1).Some?
    decreases levels
  {
    var t := View(keep, h, v, levels).value;
    if v.id == id {
      ViewIsStable(keep, h, v, levels, Height(t) + 1);
    } else {
      var e, s := EntryWith(keep, h, v.id, levels, id);
      OccursWithinHeight(keep, h, e, levels - 1, id);
      HigherView(keep, h, id, Height(s) + 1, Height(t) + 1);
    }
  }

  /** An entry of a container in which something occurs, and its view. */
  lemma EntryWith(keep: bool, h: Heap, top: nat, levels: nat, id: nat) returns (v: Val, t: Tree)
    requires View(keep, h, Ref(top), levels).Some?
    requires Sum(TimesBelow(h, levels - 1, id), Look(h, top).entries) > 0
    ensures View(keep, h, v, levels - 1) == Some(t) && Times(h, v, levels - 1, id) > 0
    ensures Height(t) < Height(View(keep, h, Ref(top), levels).value)
  {
    var es, ts := ContainerView(keep, h, top, levels);
    ArrangedSum(TimesBelow(h, levels - 1, id), keep, Look(h, top));
    var i := PositiveSum(TimesBelow(h, levels - 1, id), es);
    HeightAllBounds(ts);
    v, t := es[i].value, ts[i].value;
  }

  lemma HigherView(keep: bool, h: Heap, id: nat, levels: nat, more: nat)
    requires View(keep, h, Ref(id), levels).Some? && levels <= more
    ensures View(keep, h, Ref(id), more) == View(keep, h, Ref(id), levels)
  {
    ViewIsShallow(keep, h, Ref(id), levels);
    ViewIsStable(keep, h, Ref(id), levels, more);
  }

  /** What unfolds does not contain itself. */
  lemma NotBelowItself(keep: bool, h: Heap, id: nat, levels: nat)
    requires View(keep, h, Ref(id), levels).Some?
    ensures Look(h, id).Container? && Sum(TimesBelow(h, levels - 1, id), Look(h, id).entries) == 0
  {
    if Sum(TimesBelow(h, levels - 1, id), Look(h, id).entries) > 0 {
      var e, t := EntryWith(keep, h, id, levels, id);
      OccursWithinHeight(keep, h, e, levels - 1, id);
      var below := Height(t) + 1;
      HigherView(keep, h, id, below, below + levels);
      HigherView(keep, h, id, levels, below + levels);
      ViewIsShallow(keep, h, Ref(id), below);
    }
  }

  lemma TimesOneMore(h: Heap, es: seq<Keyed<Val>>, levels: nat)
    requires es != []
    ensures forall id: nat ::
              Sum(TimesBelow(h, levels, id), es)
              == Sum(TimesBelow(h, levels, id), es[..|es| - 1]) + Times(h, es[|es| - 1].value, levels, id)
  {
  }

  lemma ContainersInside(keep: bool, h: Heap, id: nat, levels: nat)
    requires View(keep, h, Ref(id), levels).Some?
    ensures Containers(h, Ref(id), levels) == ContainersBelow(h, Arranged(keep, Look(h, id)), levels - 1) + {id}
  {
    forall k: nat
      ensures Times(h, Ref(id), levels, k)
           == (if k == id then 1 else 0) + Sum(TimesBelow(h, levels - 1, k), Arranged(keep, Look(h, id)))
    {
      ArrangedSum(TimesBelow(h, levels - 1, k), keep, Look(h, id));
    }
  }

  lemma ContainersOfEntries(h: Heap, es: seq<Keyed<Val>>, levels: nat)
    requires es != []
    ensures ContainersBelow(h, es, levels)
         == ContainersBelow(h, es[..|es| - 1], levels) + Containers(h, es[|es| - 1].value, levels)
  {
    TimesOneMore(h, es, levels);
  }

  // ---------------------------------------------------------------- nothing shared

  /** Entries of which no container is met twice, here or among the finished ones. */
  ghost predicate MetOnce(h: Heap, es: seq<Keyed<Val>>, levels: nat, finished: set<nat>) {
    forall id: nat :: Sum(TimesBelow(h, levels, id), es) <= if id in finished then 0 else 1
  }

  ghost predicate OneMetOnce(h: Heap, v: Val, levels: nat, finished: set<nat>) {
    forall id: nat :: Times(h, v, levels, id) <= if id in finished then 0 else 1
  }

  lemma EntriesMetOnce(keep: bool, h: Heap, v: Val, levels: nat, finished: set<nat>)
    requires levels > 0 && v.Ref? && Look(h, v.id).Container? && OneMetOnce(h, v, levels, finished)
    ensures MetOnce(h, Arranged(keep, Look(h, v.id)), levels - 1, finished)
  {
    forall id: nat
      ensures Sum(TimesBelow(h, levels - 1, id), Arranged(keep, Look(h, v.id))) <= if id in finished then 0 else 1
    {
      assert Times(h, v, levels, id) <= if id in finished then 0 else 1;
      ArrangedSum(TimesBelow(h, levels - 1, id), keep, Look(h, v.id));
    }
  }

  /** Where nothing is shared every node is counted, and nothing else is finished than what occurs. */
  lemma {:induction false} UnsharedVisit(keep: bool, h: Heap, v: Val, levels: nat, before: Visits)
    requires View(keep, h, v, levels).Some? && OneMetOnce(h, v, levels, before.finished)
    ensures Visit(keep, h, v, levels, before).Some? ==>
              && var now := Visit(keep, h, v, levels, before).value;
              && now.count == before.count + Nodes(View(keep, h, v, levels).value)
              && now.finished <= before.finished + Containers(h, v, levels)
    decreases levels, 0
  {
    if v.Ref? {
      assert Times(h, v, levels, v.id) > 0;
      assert v.id !in before.finished;
      if Visit(keep, h, v, levels, before).Some? {
        var es, ts := ContainerView(keep, h, v.id, levels);
        EntriesMetOnce(keep, h, v, levels, before.finished);
        UnsharedVisits(keep, h, es, levels - 1, before.(count := before.count + 1));
        ContainersInside(keep, h, v.id, levels);
      }
    }
  }

  lemma {:induction false} UnsharedVisits(keep: bool, h: Heap, es: seq<Keyed<Val>>, levels: nat, before: Visits)
    requires ViewsAll(keep, h, es, levels) && MetOnce(h, es, levels, before.finished)
    ensures VisitAll(keep, h, es, levels, before).Some? ==>
              && var now := VisitAll(keep, h, es, levels, before).value;
              && now.count == before.count + NodesAll(ViewAll(keep, h, es, levels))
              && now.finished <= before.finished + ContainersBelow(h, es, levels)
    decreases levels, |es| + 1
  {
    if es != [] && VisitAll(keep, h, es, levels, before).Some? {
      var n := |es| - 1;
      NodesOneMore(keep, h, es, levels);
      FirstMetOnce(h, es, levels, before.finished);
      UnsharedVisits(keep, h, es[..n], levels, before);
      var now := VisitAll(keep, h, es[..n], levels, before).value;
      LastMetOnce(h, es, levels, before.finished, now.finished);
      UnsharedVisit(keep, h, es[n].value, levels, now);
      ContainersOfEntries(h, es, levels);
    }
  }

  lemma NodesOneMore(keep: bool, h: Heap, es: seq<Keyed<Val>>, levels: nat)
    requires es != [] && ViewsAll(keep, h, es, levels)
    ensures
      var n := |es| - 1;
      && ViewsAll(keep, h, es[..n], levels)
      && NodesAll(ViewAll(keep, h, es, levels))
         == NodesAll(ViewAll(keep, h, es[..n], levels)) + Nodes(View(keep, h, es[n].value, levels).value)
  {
    var ts := ViewAll(keep, h, es, levels);
    ViewsOfFirst(keep, h, es, levels);
    NodesOfLast(ts);
  }

  lemma ViewsOfFirst(keep: bool, h: Heap, es: seq<Keyed<Val>>, levels: nat)
    requires es != [] && ViewsAll(keep, h, es, levels)
    ensures ViewsAll(keep, h, es[..|es| - 1], levels)
    ensures ViewAll(keep, h, es[..|es| - 1], levels) == ViewAll(keep, h, es, levels)[..|es| - 1]
  {
  }

  lemma NodesOfLast(ts: seq<Entry>)
    requires ts != []
    ensures NodesAll(ts) == NodesAll(ts[..|ts| - 1]) + Nodes(ts[|ts| - 1].value)
  {
  }

  lemma FirstMetOnce(h: Heap, es: seq<Keyed<Val>>, levels: nat, finished: set<nat>)
    requires es != [] && MetOnce(h, es, levels, finished)
    ensures MetOnce(h, es[..|es| - 1], levels, finished)
  {
    TimesOneMore(h, es, levels);
  }

  lemma LastMetOnce(h: Heap, es: seq<Keyed<Val>>, levels: nat, finished: set<nat>, now: set<nat>)
    requires es != [] && MetOnce(h, es, levels, finished)
    requires now <= finished + ContainersBelow(h, es[..|es| - 1], levels)
    ensures OneMetOnce(h, es[|es| - 1].value, levels, now)
  {
    TimesOneMore(h, es, levels);
    forall id: nat
      ensures Times(h, es[|es| - 1].value, levels, id) <= if id in now then 0 else 1
    {
      assert Sum(TimesBelow(h, levels, id), es) <= if id in finished then 0 else 1;
    }
  }

  /** The walk never counts beyond the budget. */
  lemma {:induction false} CountStaysWithin(keep: bool, h: Heap, v: Val, levels: nat, before: Visits)
    requires before.count <= MAX_NODES && Visit(keep, h, v, levels, before).Some?
    ensures Visit(keep, h, v, levels, before).value.count <= MAX_NODES
    decreases levels, 0
  {
    if v.Ref? && v.id !in before.finished && Look(h, v.id).Container? {
      CountsStayWithin(keep, h, Arranged(keep, Look(h, v.id)), levels - 1, before.(count := before.count + 1));
    }
  }

  lemma {:induction false} CountsStayWithin(keep: bool, h: Heap, es: seq<Keyed<Val>>, levels: nat, before: Visits)
    requires before.count <= MAX_NODES && VisitAll(keep, h, es, levels, before).Some?
    ensures VisitAll(keep, h, es, levels, before).value.count <= MAX_NODES
    decreases levels, |es| + 1
  {
    if es != [] {
      var n := |es| - 1;
      CountsStayWithin(keep, h, es[..n], levels, before);
      CountStaysWithin(keep, h, es[n].value, levels, VisitAll(keep, h, es[..n], levels, before).value);
    }
  }

  /** A value in which no container occurs twice keeps within the budget exactly if it has that few nodes. */
  lemma UnsharedIsCountedInFull(keep: bool, h: Heap, v: Val)
    requires Unfold(h, v, MAX_DEPTH + 1).Some? && Unshared(h, v, MAX_DEPTH + 1)
    ensures FirstVisits(keep, h, v).Some? <==> Nodes(Unfold(h, v, MAX_DEPTH + 1).value) <= MAX_NODES
  {
    if FirstVisits(keep, h, v).Some? {
      ViewIsNormalUnfolding(keep, h, v, MAX_DEPTH + 1);
      NormalKeepsNodes(keep, Unfold(h, v, MAX_DEPTH + 1).value);
      UnsharedVisit(keep, h, v, MAX_DEPTH + 1, Visits(0, {}));
      CountStaysWithin(keep, h, v, MAX_DEPTH + 1, Visits(0, {}));
    } else if Nodes(Unfold(h, v, MAX_DEPTH + 1).value) <= MAX_NODES {
      FewNodesKeepWithinBudget(keep, h, v);
    }
  }

  // ---------------------------------------------------------------- shared parts

  ghost function LeafWeight(): Keyed<Val> -> nat {
    (e: Keyed<Val>) => if e.value.Ref? then 0 else 1
  }

  ghost function RefWeight(): Keyed<Val> -> nat {
    (e: Keyed<Val>) => if e.value.Ref? then 1 else 0
  }

  /** How many entries of a container are no containers. */
  ghost function Leaves(h: Heap, id: nat): nat {
    if Look(h, id).Container? then Sum(LeafWeight(), Look(h, id).entries) else 0
  }

  /** How many entries of a container are containers, met before or not. */
  ghost function Refs(h: Heap, id: nat): nat {
    if Look(h, id).Container? then Sum(RefWeight(), Look(h, id).entries) else 0
  }

  lemma {:induction false} LeavesAndRefs(es: seq<Keyed<Val>>)
    ensures Sum(LeafWeight(), es) + Sum(RefWeight(), es) == |es|
  {
    if es != [] {
      LeavesAndRefs(es[..|es| - 1]);
    }
  }

  /** Each container of a set once, with its leaves. */
  ghost function Cost(h: Heap, s: set<nat>): nat {
    if s == {} then 0 else
      var id :| id in s;
      1 + Leaves(h, id) + Cost(h, s - {id})
  }

  /** What a value costs when each part is counted once: its containers, their leaves, and itself if it is a leaf. */
  ghost function CostOnce(h: Heap, v: Val, levels: nat): nat {
    Cost(h, Containers(h, v, levels)) + Alone(v)
  }

  function Alone(v: Val): nat {
    if v.Ref? then 0 else 1
  }

  lemma {:induction false} CostSplit(h: Heap, s: set<nat>, id: nat)
    requires id in s
    ensures Cost(h, s) == 1 + Leaves(h, id) + Cost(h, s - {id})
  {
    var first :| first in s && Cost(h, s) == 1 + Leaves(h, first) + Cost(h, s - {first});
    if first != id {
      CostSplit(h, s - {first}, id);
      CostSplit(h, s - {id}, first);
      assert s - {first} - {id} == s - {id} - {first};
    }
  }

  lemma {:induction false} CostGrows(h: Heap, s: set<nat>, t: set<nat>)
    requires s <= t
    ensures Cost(h, s) <= Cost(h, t)
  {
    if s != t {
      var id :| id in t && id !in s;
      CostSplit(h, t, id);
      CostGrows(h, s, t - {id});
    }
  }

  /** A set of containers that holds every container met in one of them. */
  ghost predicate Closed(h: Heap, s: set<nat>) {
    forall id: nat :: id in s ==> Holds(h, s, id)
  }

  ghost predicate Holds(h: Heap, s: set<nat>, id: nat) {
    && Look(h, id).Container?
    && forall i :: 0 <= i < |Look(h, id).entries| ==> HoldsEntry(s, Look(h, id).entries[i].value)
  }

  ghost predicate HoldsEntry(s: set<nat>, v: Val) {
    v.Ref? ==> v.id in s
  }

  lemma {:induction false} ClosedHoldsContainers(h: Heap, s: set<nat>, v: Val, levels: nat, id: nat)
    requires Closed(h, s) && HoldsEntry(s, v) && Times(h, v, levels, id) > 0
    ensures id in s
    decreases levels
  {
    if v.id != id {
      var es := Look(h, v.id).entries;
      assert Holds(h, s, v.id);
      var i := PositiveSum(TimesBelow(h, levels - 1, id), es);
      assert HoldsEntry(s, es[i].value);
      ClosedHoldsContainers(h, s, es[i].value, levels - 1, id);
    }
  }

  lemma {:induction false} AtMostSum<T>(weight: Keyed<T> -> nat, es: seq<Keyed<T>>, i: nat)
    requires i < |es|
    ensures weight(es[i]) <= Sum(weight, es)
  {
    var n := |es| - 1;
    if i < n {
      AtMostSum(weight, es[..n], i);
    }
  }

  /** What the walk has counted and finished, by the parts it has met. */
  ghost predicate Counts(h: Heap, before: Visits, now: Visits, parts: set<nat>, leaves: nat) {
    && now.finished == before.finished + parts
    && now.count + Cost(h, before.finished) == before.count + Cost(h, now.finished) + leaves
    && Closed(h, now.finished)
  }

  /** Every container is counted once, and its leaves with it, however often it is met. */
  lemma {:induction false} SharedVisit(keep: bool, h: Heap, v: Val, levels: nat, before: Visits)
    requires View(keep, h, v, levels).Some? && Closed(h, before.finished)
    ensures Visit(keep, h, v, levels, before).Some? ==>
              Counts(h, before, Visit(keep, h, v, levels, before).value, Containers(h, v, levels), Alone(v))
    decreases levels, 0
  {
    if v.Ref? && v.id in before.finished {
      forall id: nat | Times(h, v, levels, id) > 0
        ensures id in before.finished
      {
        ClosedHoldsContainers(h, before.finished, v, levels, id);
      }
      assert before.finished + Containers(h, v, levels) == before.finished;
    } else if v.Ref? {
      if Visit(keep, h, v, levels, before).Some? {
        var es, ts := ContainerView(keep, h, v.id, levels);
        var counted := before.(count := before.count + 1);
        SharedVisits(keep, h, es, levels - 1, counted);
        ContainerFinished(keep, h, v.id, levels, before, VisitAll(keep, h, es, levels - 1, counted).value);
      }
    } else {
      assert before.finished + Containers(h, v, levels) == before.finished;
    }
  }

  /** A container is finished with its entries, and was not among what they met. */
  lemma ContainerFinished(keep: bool, h: Heap, id: nat, levels: nat, before: Visits, now: Visits)
    requires View(keep, h, Ref(id), levels).Some? && id !in before.finished
    requires
      var es := Arranged(keep, Look(h, id));
      Counts(h, before.(count := before.count + 1), now, ContainersBelow(h, es, levels - 1), Sum(LeafWeight(), es))
    ensures Counts(h, before, now.(finished := now.finished + {id}), Containers(h, Ref(id), levels), 0)
  {
    ContainersInside(keep, h, id, levels);
    NotBelowItself(keep, h, id, levels);
    ArrangedSum(TimesBelow(h, levels - 1, id), keep, Look(h, id));
    ArrangedSum(LeafWeight(), keep, Look(h, id));
    var all := now.finished + {id};
    assert before.finished + Containers(h, Ref(id), levels) == all;
    CostSplit(h, all, id);
    assert all - {id} == now.finished;
    HoldsItsEntries(keep, h, id, levels, all);
    ClosedWith(h, now.finished, id);
  }

  lemma HoldsItsEntries(keep: bool, h: Heap, id: nat, levels: nat, s: set<nat>)
    requires View(keep, h, Ref(id), levels).Some? && Containers(h, Ref(id), levels) <= s
    ensures Holds(h, s, id)
  {
    var es := Look(h, id).entries;
    forall i | 0 <= i < |es|
      ensures HoldsEntry(s, es[i].value)
    {
      if es[i].value.Ref? {
        var child := es[i].value.id;
        ChildHasView(keep, h, id, child, levels);
        AtMostSum(TimesBelow(h, levels - 1, child), es, i);
        assert Times(h, es[i].value, levels - 1, child) > 0;
        assert child in Containers(h, Ref(id), levels);
      }
    }
  }

  lemma ClosedWith(h: Heap, s: set<nat>, id: nat)
    requires Closed(h, s) && Holds(h, s + {id}, id)
    ensures Closed(h, s + {id})
  {
    forall k: nat | k in s + {id}
      ensures Holds(h, s + {id}, k)
    {
      if k != id {
        assert Holds(h, s, k);
        forall i | 0 <= i < |Look(h, k).entries|
          ensures HoldsEntry(s + {id}, Look(h, k).entries[i].value)
        {
          assert HoldsEntry(s, Look(h, k).entries[i].value);
        }
      }
    }
  }

  lemma {:induction false} SharedVisits(keep: bool, h: Heap, es: seq<Keyed<Val>>, levels: nat, before: Visits)
    requires ViewsAll(keep, h, es, levels) && Closed(h, before.finished)
    ensures VisitAll(keep, h, es, levels, before).Some? ==>
              Counts(h, before, VisitAll(keep, h, es, levels, before).value,
                     ContainersBelow(h, es, levels), Sum(LeafWeight(), es))
    decreases levels, |es| + 1
  {
    if es == [] {
      assert before.finished + ContainersBelow(h, es, levels) == before.finished;
    } else if VisitAll(keep, h, es, levels, before).Some? {
      var n := |es| - 1;
      SharedVisits(keep, h, es[..n], levels, before);
      SharedVisit(keep, h, es[n].value, levels, VisitAll(keep, h, es[..n], levels, before).value);
      ContainersOfEntries(h, es, levels);
      LeavesOneMore(es);
    }
  }

  lemma LeavesOneMore(es: seq<Keyed<Val>>)
    requires es != []
    ensures Sum(LeafWeight(), es) == Sum(LeafWeight(), es[..|es| - 1]) + Alone(es[|es| - 1].value)
  {
  }

  /**
   However its parts are shared and met, a value within the budget has been counted by its
   distinct parts, each with its leaves, and that many fit.
   */
  lemma SharedPartsCountOnce(keep: bool, h: Heap, v: Val)
    requires Unfold(h, v, MAX_DEPTH + 1).Some? && FirstVisits(keep, h, v).Some?
    ensures
      var now := FirstVisits(keep, h, v).value;
      && now.finished == Containers(h, v, MAX_DEPTH + 1)
      && now.count == CostOnce(h, v, MAX_DEPTH + 1) <= MAX_NODES
  {
    ViewIsNormalUnfolding(keep, h, v, MAX_DEPTH + 1);
    SharedVisit(keep, h, v, MAX_DEPTH + 1, Visits(0, {}));
    CountStaysWithin(keep, h, v, MAX_DEPTH + 1, Visits(0, {}));
    assert {} + Containers(h, v, MAX_DEPTH + 1) == Containers(h, v, MAX_DEPTH + 1);
  }

  /** What a value adds to the count keeps `room` free for the containers that any one container refers to. */
  ghost predicate HasRoom(h: Heap, before: Visits, parts: set<nat>, leaves: nat, room: nat) {
    && before.count + Cost(h, before.finished + parts) + leaves + room <= MAX_NODES + Cost(h, before.finished)
    && forall id: nat :: id in parts ==> Refs(h, id) <= room
  }

  lemma {:induction false} RoomIsEnough(keep: bool, h: Heap, v: Val, levels: nat, before: Visits, room: nat)
    requires View(keep, h, v, levels).Some? && Closed(h, before.finished)
    requires HasRoom(h, before, Containers(h, v, levels), Alone(v), room)
    ensures Visit(keep, h, v, levels, before).Some?
    decreases levels, 0
  {
    if !v.Ref? {
      CostGrows(h, before.finished, before.finished + Containers(h, v, levels));
    } else if v.id !in before.finished {
      RoomInside(keep, h, v.id, levels, before, room);
      RoomIsEnoughForAll(
        keep, h, Arranged(keep, Look(h, v.id)), levels - 1, before.(count := before.count + 1), room);
      EntersWithRoom(keep, h, v.id, levels, before);
    }
  }

  lemma EntersWithRoom(keep: bool, h: Heap, id: nat, levels: nat, before: Visits)
    requires levels > 0 && Look(h, id).Container? && id !in before.finished
    requires before.count + 1 + |Arranged(keep, Look(h, id))| <= MAX_NODES
    ensures
      var counted := before.(count := before.count + 1);
      Visit(keep, h, Ref(id), levels, before)
      == Finish(id, VisitAll(keep, h, Arranged(keep, Look(h, id)), levels - 1, counted))
  {
  }

  /** The room left for a container is enough for its entries, and for the container to be entered. */
  lemma RoomInside(keep: bool, h: Heap, id: nat, levels: nat, before: Visits, room: nat)
    requires View(keep, h, Ref(id), levels).Some? && id !in before.finished
    requires HasRoom(h, before, Containers(h, Ref(id), levels), 0, room)
    ensures
      var es := Arranged(keep, Look(h, id));
      && ViewsAll(keep, h, es, levels - 1) && before.count + 1 + |es| <= MAX_NODES
      && HasRoom(h, before.(count := before.count + 1), ContainersBelow(h, es, levels - 1), Sum(LeafWeight(), es), room)
  {
    var es := Arranged(keep, Look(h, id));
    ContainersInside(keep, h, id, levels);
    NotBelowItself(keep, h, id, levels);
    ArrangedSum(TimesBelow(h, levels - 1, id), keep, Look(h, id));
    ArrangedSum(LeafWeight(), keep, Look(h, id));
    ArrangedSum(RefWeight(), keep, Look(h, id));
    LeavesAndRefs(es);
    var all := before.finished + Containers(h, Ref(id), levels);
    var below := before.finished + ContainersBelow(h, es, levels - 1);
    CostSplit(h, all, id);
    assert all - {id} == below;
    CostGrows(h, before.finished, below);
    assert id in Containers(h, Ref(id), levels);
  }

  lemma {:induction false} RoomIsEnoughForAll(
    keep: bool, h: Heap, es: seq<Keyed<Val>>, levels: nat, before: Visits, room: nat)
    requires ViewsAll(keep, h, es, levels) && Closed(h, before.finished)
    requires HasRoom(h, before, ContainersBelow(h, es, levels), Sum(LeafWeight(), es), room)
    ensures VisitAll(keep, h, es, levels, before).Some?
    decreases levels, |es| + 1
  {
    if es != [] {
      var n := |es| - 1;
      ContainersOfEntries(h, es, levels);
      LeavesOneMore(es);
      CostGrows(
        h, before.finished + ContainersBelow(h, es[..n], levels), before.finished + ContainersBelow(h, es, levels));
      RoomIsEnoughForAll(keep, h, es[..n], levels, before, room);
      SharedVisits(keep, h, es[..n], levels, before);
      var now := VisitAll(keep, h, es[..n], levels, before).value;
      assert now.finished + Containers(h, es[n].value, levels) == before.finished + ContainersBelow(h, es, levels);
      RoomIsEnough(keep, h, es[n].value, levels, now, room);
    }
  }

  /**
   Parts that are met again take no budget of their own: what the distinct parts cost is enough,
   when it leaves room for the containers that any one of them refers to.
   */
  lemma SharedPartsKeepWithinBudget(keep: bool, h: Heap, v: Val, room: nat)
    requires Unfold(h, v, MAX_DEPTH + 1).Some?
    requires forall id: nat :: id in Containers(h, v, MAX_DEPTH + 1) ==> Refs(h, id) <= room
    requires CostOnce(h, v, MAX_DEPTH + 1) + room <= MAX_NODES
    ensures FirstVisits(keep, h, v).Some?
  {
    ViewIsNormalUnfolding(keep, h, v, MAX_DEPTH + 1);
    assert {} + Containers(h, v, MAX_DEPTH + 1) == Containers(h, v, MAX_DEPTH + 1);
    RoomIsEnough(keep, h, v, MAX_DEPTH + 1, Visits(0, {}), room);
  }

  /** Without that room a value of two distinct parts is turned away: 20,000 items that are all one empty array. */
  lemma RepeatedItemsNeedRoom() returns (h: Heap, v: Val)
    ensures Unfold(h, v, MAX_DEPTH + 1).Some? && FirstVisits(false, h, v).None?
    ensures CostOnce(h, v, MAX_DEPTH + 1) == 2
  {
    var es := seq(MAX_NODES, _ => Keyed([], Ref(1)));
    h, v := map[0 := Container(Array, es), 1 := Container(Array, [])], Ref(0);
    EmptyArrayUnfolds(h, 1, MAX_DEPTH);
    assert UnfoldsAll(h, es, MAX_DEPTH);
    ViewIsNormalUnfolding(false, h, v, MAX_DEPTH + 1);
    OneRepeatedPart(h, es, MAX_DEPTH + 1);
  }

  lemma EmptyArrayUnfolds(h: Heap, id: nat, levels: nat)
    requires Look(h, id) == Container(Array, []) && levels > 0
    ensures Unfold(h, Ref(id), levels).Some?
  {
    assert UnfoldsAll(h, [], levels - 1);
  }

  lemma OneRepeatedPart(h: Heap, es: seq<Keyed<Val>>, levels: nat)
    requires h == map[0 := Container(Array, es), 1 := Container(Array, [])] && levels > 1
    requires es != [] && forall i :: 0 <= i < |es| ==> es[i].value == Ref(1)
    ensures Cost(h, Containers(h, Ref(0), levels)) == 2
  {
    AtMostSum(TimesBelow(h, levels - 1, 1), es, 0);
    assert Times(h, es[0].value, levels - 1, 1) > 0;
    assert Containers(h, Ref(0), levels) == {0, 1};
    CostSplit(h, {0, 1}, 0);
    assert {0, 1} - {0} == {1};
    CostSplit(h, {1}, 1);
    assert {1} - {1} == {};
    NoLeaves(es);
    NoLeaves([]);
  }

  lemma {:induction false} NoLeaves(es: seq<Keyed<Val>>)
    requires forall i :: 0 <= i < |es| ==> es[i].value.Ref?
    ensures Sum(LeafWeight(), es) == 0
  {
    if es != [] {
      NoLeaves(es[..|es| - 1]);
    }
  }
}
