/**
 Forests of reports, cycles included: going down, who is reached, what sorting in place
 does, and that from a settled member nobody is ever below themselves.
 */
module Forests {
  import opened KeyOrder
  import opened Sequences

  type Id = nat

  /** A member in a list of reports, under the name it is sorted by. */
  type Node = Keyed<Id>

  type Forest = map<Id, seq<Node>>

  // ---------------------------------------------------------------- reaching down

  /** Reports are members themselves. */
  predicate IsClosed(forest: Forest) {
    forall id, i :: id in forest && 0 <= i < |forest[id]| ==> forest[id][i].value in forest
  }

  lemma OneLess(forest: Forest, path: set<Id>, id: Id)
    requires id in forest && id !in path
    ensures |forest.Keys - (path + {id})| < |forest.Keys - path|
  {
    assert id in forest.Keys - path;
    Fewer(forest.Keys - (path + {id}), forest.Keys - path);
  }

  /** What can be reached from some members without passing the same one twice. */
  function Reach(forest: Forest, list: seq<Node>, path: set<Id>): set<Id>
    requires IsClosed(forest)
    decreases |forest.Keys - path|, |list|
  {
    if list == [] then {}
    else
      var n := |list| - 1;
      Reach(forest, list[..n], path) + ReachOne(forest, list[n].value, path)
  }

  function ReachOne(forest: Forest, id: Id, path: set<Id>): set<Id>
    requires IsClosed(forest)
    decreases |forest.Keys - path|, 0
  {
    if id in path || id !in forest then {}
    else
      OneLess(forest, path, id);
      {id} + Reach(forest, forest[id], path + {id})
  }

  lemma {:induction false} ReachIsUnion(forest: Forest, list: seq<Node>, path: set<Id>, x: Id)
    requires IsClosed(forest)
    ensures x in Reach(forest, list, path)
       <==> exists i :: 0 <= i < |list| && x in ReachOne(forest, list[i].value, path)
  {
    if list != [] {
      var n := |list| - 1;
      ReachIsUnion(forest, list[..n], path, x);
      if i :| 0 <= i < n && x in ReachOne(forest, list[i].value, path) {
        assert list[..n][i] == list[i];
      }
    }
  }

  lemma ReachOfOne(forest: Forest, node: Node, path: set<Id>)
    requires IsClosed(forest)
    ensures Reach(forest, [node], path) == ReachOne(forest, node.value, path)
  {
    assert [node][..0] == [];
  }

  // ---------------------------------------------------------------- ways down

  predicate IsReport(forest: Forest, manager: Id, id: Id) {
    manager in forest && id in forest && exists k :: 0 <= k < |forest[manager]| && forest[manager][k].value == id
  }

  /** Going down from one member to one of its reports, again and again. */
  predicate IsWayDown(forest: Forest, way: seq<Id>) {
    forall i :: 0 <= i < |way| - 1 ==> IsReport(forest, way[i], way[i + 1])
  }

  lemma RestOfWay(forest: Forest, way: seq<Id>)
    requires |way| > 1 && IsWayDown(forest, way)
    ensures IsReport(forest, way[0], way[1]) && IsWayDown(forest, way[1..])
  {
    assert IsReport(forest, way[0], way[0 + 1]);
    forall i | 0 <= i < |way[1..]| - 1
      ensures IsReport(forest, way[1..][i], way[1..][i + 1])
    {
      assert IsReport(forest, way[i + 1], way[i + 1 + 1]);
    }
  }

  lemma {:induction false} TailOfWay(forest: Forest, way: seq<Id>, i: nat)
    requires IsWayDown(forest, way) && i < |way|
    ensures IsWayDown(forest, way[i..])
    decreases i
  {
    if i > 0 {
      RestOfWay(forest, way);
      TailOfWay(forest, way[1..], i - 1);
      assert way[1..][i - 1..] == way[i..];
    }
  }

  lemma OneMoreOnWay(forest: Forest, way: seq<Id>, id: Id)
    requires way != [] && IsWayDown(forest, way) && IsReport(forest, way[|way| - 1], id)
    ensures IsWayDown(forest, way + [id])
  {
    var longer := way + [id];
    forall i | 0 <= i < |longer| - 1
      ensures IsReport(forest, longer[i], longer[i + 1])
    {
      if i < |way| - 1 {
        assert IsReport(forest, way[i], way[i + 1]);
      }
    }
  }

  lemma StartOfWay(forest: Forest, way: seq<Id>, n: nat)
    requires IsWayDown(forest, way) && n <= |way|
    ensures IsWayDown(forest, way[..n])
  {
    forall i | 0 <= i < n - 1
      ensures IsReport(forest, way[..n][i], way[..n][i + 1])
    {
      assert IsReport(forest, way[i], way[i + 1]);
    }
  }

  /** Ways that meet are one way. */
  lemma {:induction false} JoinedWays(forest: Forest, a: seq<Id>, b: seq<Id>)
    requires a != [] && b != [] && IsWayDown(forest, a) && IsWayDown(forest, b) && a[|a| - 1] == b[0]
    ensures IsWayDown(forest, a + b[1..])
  {
    var way := a + b[1..];
    forall i | 0 <= i < |way| - 1
      ensures IsReport(forest, way[i], way[i + 1])
    {
      if i < |a| - 1 {
        assert IsReport(forest, a[i], a[i + 1]);
      } else {
        assert IsReport(forest, b[i + 1 - |a|], b[i + 1 - |a| + 1]);
      }
    }
  }

  /** A way down on which nobody is met twice. */
  predicate IsPath(forest: Forest, way: seq<Id>) {
    && way != [] && way[0] in forest && IsWayDown(forest, way)
    && forall i, j :: 0 <= i < j < |way| ==> way[i] != way[j]
  }

  predicate Avoids(way: seq<Id>, path: set<Id>) {
    forall i :: 0 <= i < |way| ==> way[i] !in path
  }

  lemma {:induction false} PathReaches(forest: Forest, way: seq<Id>, path: set<Id>)
    requires IsClosed(forest) && IsPath(forest, way) && Avoids(way, path)
    ensures way[|way| - 1] in ReachOne(forest, way[0], path)
    decreases |way|
  {
    if |way| > 1 {
      OneLess(forest, path, way[0]);
      RestOfWay(forest, way);
      var k :| 0 <= k < |forest[way[0]]| && forest[way[0]][k].value == way[1];
      PathReaches(forest, way[1..], path + {way[0]});
      ReachIsUnion(forest, forest[way[0]], path + {way[0]}, way[|way| - 1]);
    }
  }

  lemma {:induction false} ReachedByPath(forest: Forest, id: Id, path: set<Id>, x: Id) returns (way: seq<Id>)
    requires IsClosed(forest) && x in ReachOne(forest, id, path)
    ensures IsPath(forest, way) && Avoids(way, path) && way[0] == id && way[|way| - 1] == x
    decreases |forest.Keys - path|
  {
    way := [id];
    if x != id {
      OneLess(forest, path, id);
      ReachIsUnion(forest, forest[id], path + {id}, x);
      var i :| 0 <= i < |forest[id]| && x in ReachOne(forest, forest[id][i].value, path + {id});
      var rest := ReachedByPath(forest, forest[id][i].value, path + {id}, x);
      assert IsReport(forest, id, rest[0]);
      PathGrows(forest, id, rest, path);
      way := [id] + rest;
    }
  }

  lemma PathGrows(forest: Forest, id: Id, rest: seq<Id>, path: set<Id>)
    requires IsPath(forest, rest) && Avoids(rest, path + {id}) && IsReport(forest, id, rest[0]) && id !in path
    ensures IsPath(forest, [id] + rest) && Avoids([id] + rest, path)
    ensures ([id] + rest)[|rest|] == rest[|rest| - 1]
  {
    var way := [id] + rest;
    forall i | 0 <= i < |way| - 1
      ensures IsReport(forest, way[i], way[i + 1])
    {
      if i > 0 {
        assert IsReport(forest, rest[i - 1], rest[i - 1 + 1]);
      }
    }
  }

  /** Whoever reaches a manager reaches the reports. */
  lemma ReportsAreReached(forest: Forest, id: Id, manager: Id, report: Id)
    requires IsClosed(forest) && manager in ReachOne(forest, id, {}) && IsReport(forest, manager, report)
    ensures report in ReachOne(forest, id, {})
  {
    var way := ReachedByPath(forest, id, {}, manager);
    if report in way {
      var j :| 0 <= j < |way| && way[j] == report;
      StartOfWay(forest, way, j + 1);
      PathReaches(forest, way[..j + 1], {});
    } else {
      OneMoreOnWay(forest, way, report);
      PathReaches(forest, way + [report], {});
    }
  }

  /** Everybody on a way down is reached from its start. */
  lemma {:induction false} WayIsReached(forest: Forest, way: seq<Id>, i: nat)
    requires IsClosed(forest) && IsWayDown(forest, way) && i < |way| && way[0] in forest
    ensures way[i] in ReachOne(forest, way[0], {})
  {
    if i > 0 {
      WayIsReached(forest, way, i - 1);
      assert IsReport(forest, way[i - 1], way[i - 1 + 1]);
      ReportsAreReached(forest, way[0], way[i - 1], way[i]);
    }
  }

  predicate IsLoop(forest: Forest, way: seq<Id>, id: Id) {
    |way| > 1 && IsWayDown(forest, way) && way[0] == id == way[|way| - 1]
  }

  /** Members who, through their managers, report to themselves. */
  ghost predicate IsBelowThemselves(forest: Forest, id: Id) {
    exists way :: IsLoop(forest, way, id)
  }

  ghost predicate HasLoop(forest: Forest) {
    exists id :: id in forest && IsBelowThemselves(forest, id)
  }

  // ---------------------------------------------------------------- never below itself

  /**
   Every list from `id` downwards is sorted, and every way down either ends or comes to a
   member of the path that has no reports.
   */
  ghost predicate IsSettled(forest: Forest, id: Id, path: set<Id>)
    requires id in forest && IsClosed(forest)
    decreases |forest.Keys - path|, 1
  {
    && Sorted(forest[id])
    && forall i :: 0 <= i < |forest[id]| ==> StepIsSettled(forest, forest[id][i].value, path)
  }

  ghost predicate StepIsSettled(forest: Forest, child: Id, path: set<Id>)
    requires child in forest && IsClosed(forest)
    decreases |forest.Keys - path|, 0
  {
    if child in path then forest[child] == []
    else
      OneLess(forest, path, child);
      IsSettled(forest, child, path + {child})
  }

  /** What sorting may do to a list of reports: leave it, sort it or empty it. */
  predicate Settles(before: seq<Node>, after: seq<Node>) {
    after == [] || after == before || after == Sort(before)
  }

  predicate Shrinks(forest: Forest, later: Forest) {
    later.Keys == forest.Keys && forall id :: id in forest ==> Settles(forest[id], later[id])
  }

  lemma SettlesOn(a: seq<Node>, b: seq<Node>, c: seq<Node>)
    requires Settles(a, b) && Settles(b, c)
    ensures Settles(a, c)
  {
    SortSorts(a);
    SortedStays(Sort(a));
    if b == [] {
      assert c == [];
    }
  }

  lemma ShrinksOn(a: Forest, b: Forest, c: Forest)
    requires Shrinks(a, b) && Shrinks(b, c)
    ensures Shrinks(a, c)
  {
    forall id | id in a
      ensures Settles(a[id], c[id])
    {
      SettlesOn(a[id], b[id], c[id]);
    }
  }

  lemma SameMember(before: seq<Node>, after: seq<Node>, i: nat) returns (j: nat)
    requires Settles(before, after) && i < |after|
    ensures j < |before| && before[j] == after[i]
  {
    SortMember(before, after[i]);
    j :| 0 <= j < |before| && before[j] == after[i];
  }

  lemma ShrinksClosed(forest: Forest, later: Forest)
    requires IsClosed(forest) && Shrinks(forest, later)
    ensures IsClosed(later)
  {
    forall id, i | id in later && 0 <= i < |later[id]|
      ensures later[id][i].value in later
    {
      var j := SameMember(forest[id], later[id], i);
    }
  }

  lemma {:induction false} ShrinkingStaysSettled(forest: Forest, later: Forest, id: Id, path: set<Id>)
    requires IsClosed(forest) && Shrinks(forest, later) && IsClosed(later)
    requires id in forest && IsSettled(forest, id, path)
    ensures IsSettled(later, id, path)
    decreases |forest.Keys - path|, 1
  {
    SortedStays(forest[id]);
    forall i | 0 <= i < |later[id]|
      ensures StepIsSettled(later, later[id][i].value, path)
    {
      var j := SameMember(forest[id], later[id], i);
      ShrinkingStepStaysSettled(forest, later, forest[id][j].value, path);
    }
  }

  lemma {:induction false} ShrinkingStepStaysSettled(forest: Forest, later: Forest, child: Id, path: set<Id>)
    requires IsClosed(forest) && Shrinks(forest, later) && IsClosed(later)
    requires child in forest && StepIsSettled(forest, child, path)
    ensures StepIsSettled(later, child, path)
    decreases |forest.Keys - path|, 0
  {
    if child !in path {
      OneLess(forest, path, child);
      ShrinkingStaysSettled(forest, later, child, path + {child});
    }
  }

  /** Below a settled member, a way that goes on never comes to anything on the path. */
  lemma {:induction false} SettledWaysLeaveThePath(forest: Forest, way: seq<Id>, path: set<Id>, j: nat)
    requires IsClosed(forest) && IsWayDown(forest, way) && 0 < j < |way| - 1
    requires way[0] in forest && way[0] in path && IsSettled(forest, way[0], path)
    ensures way[j] !in path
    decreases |way|
  {
    RestOfWay(forest, way);
    var child := way[1];
    assert StepIsSettled(forest, child, path);
    RestOfWay(forest, way[1..]);
    if j > 1 {
      SettledWaysLeaveThePath(forest, way[1..], path + {child}, j - 1);
    }
  }

  lemma {:induction false} SettledBelow(forest: Forest, way: seq<Id>, path: set<Id>, i: nat) returns (longer: set<Id>)
    requires IsClosed(forest) && IsWayDown(forest, way) && i < |way| - 1
    requires way[0] in forest && way[0] in path && IsSettled(forest, way[0], path)
    ensures way[i] in forest && way[i] in longer && path <= longer && IsSettled(forest, way[i], longer)
    decreases |way|
  {
    longer := path;
    if i > 0 {
      RestOfWay(forest, way);
      RestOfWay(forest, way[1..]);
      assert StepIsSettled(forest, way[1], path);
      longer := SettledBelow(forest, way[1..], path + {way[1]}, i - 1);
    }
  }

  /** From a settled root, nobody is placed below themselves: no way down comes back. */
  lemma NobodyBelowThemselves(forest: Forest, way: seq<Id>, i: nat, j: nat)
    requires IsClosed(forest) && IsWayDown(forest, way) && i < j < |way|
    requires way[0] in forest && IsSettled(forest, way[0], {way[0]})
    ensures way[i] != way[j]
  {
    if way[i] == way[j] {
      var longer := SettledBelow(forest, way, {way[0]}, i);
      assert IsReport(forest, way[i], way[i + 1]);
      TailOfWay(forest, way, i);
      GoingOn(forest, way, i, j);
      var loop := way[i..j + 1] + [way[i + 1]];
      SettledWaysLeaveThePath(forest, loop, longer, j - i);
    }
  }

  /** A way that has come back can go round again. */
  lemma GoingOn(forest: Forest, way: seq<Id>, i: nat, j: nat)
    requires IsWayDown(forest, way) && i < j < |way| && way[i] == way[j]
    ensures IsWayDown(forest, way[i..j + 1] + [way[i + 1]])
  {
    var loop := way[i..j + 1] + [way[i + 1]];
    forall k | 0 <= k < |loop| - 1
      ensures IsReport(forest, loop[k], loop[k + 1])
    {
      if k < j - i {
        assert IsReport(forest, way[i + k], way[i + k + 1]);
      } else {
        assert IsReport(forest, way[i], way[i + 1]);
      }
    }
  }

  // ---------------------------------------------------------------- who loses their reports

  predicate KeepsAll(forest: Forest, later: Forest) {
    && later.Keys == forest.Keys
    && forall id :: id in forest ==> later[id] == forest[id] || later[id] == Sort(forest[id])
  }

  predicate Loses(forest: Forest, later: Forest, id: Id) {
    id in forest && id in later && forest[id] != [] && later[id] == []
  }

  lemma KeepsAllIffNobodyLoses(forest: Forest, later: Forest)
    requires Shrinks(forest, later)
    ensures KeepsAll(forest, later) <==> forall id :: id in forest ==> !Loses(forest, later, id)
  {
    forall id | id in forest
      ensures Loses(forest, later, id) <==> later[id] != forest[id] && later[id] != Sort(forest[id])
    {
      SortSorts(forest[id]);
      assert |Sort(forest[id])| == |multiset(Sort(forest[id]))| == |forest[id]|;
    }
  }

  ghost predicate OneManager(forest: Forest) {
    forall a, b, id :: IsReport(forest, a, id) && IsReport(forest, b, id) ==> a == b
  }

  /**
   Only those lose their reports who report to themselves; where everybody has one manager,
   only roots of those do.
   */
  ghost predicate LosesRightly(forest: Forest, later: Forest, tops: set<Id>) {
    && Shrinks(forest, later)
    && forall id :: Loses(forest, later, id) ==> IsBelowThemselves(forest, id) && (OneManager(forest) ==> id in tops)
  }

  lemma SortingLosesNobody(forest: Forest, now: Forest, id: Id, tops: set<Id>)
    requires id in now && LosesRightly(forest, now, tops)
    ensures Shrinks(now, now[id := Sort(now[id])]) && LosesRightly(forest, now[id := Sort(now[id])], tops)
  {
    var later := now[id := Sort(now[id])];
    SortSorts(now[id]);
    assert |Sort(now[id])| == |multiset(Sort(now[id]))| == |now[id]|;
    ShrinksOn(forest, now, later);
    forall x | Loses(forest, later, x)
      ensures Loses(forest, now, x)
    {
    }
  }

  /** A report that is on the way down to its manager is below itself, and is where the way began. */
  lemma MetAgain(forest: Forest, way: seq<Id>, child: Id)
    requires IsPath(forest, way) && child in way && IsReport(forest, way[|way| - 1], child)
    ensures IsBelowThemselves(forest, child)
    ensures OneManager(forest) ==> child == way[0]
  {
    var n := |way| - 1;
    var j :| 0 <= j <= n && way[j] == child;
    TailOfWay(forest, way, j);
    OneMoreOnWay(forest, way[j..], child);
    assert IsLoop(forest, way[j..] + [child], child);
    if j > 0 {
      assert IsReport(forest, way[j - 1], way[j - 1 + 1]);
    }
  }

  lemma ClearingLosesRightly(forest: Forest, now: Forest, way: seq<Id>, child: Id, tops: set<Id>)
    requires IsPath(forest, way) && child in way && IsReport(forest, way[|way| - 1], child)
    requires way[0] in tops && child in now && LosesRightly(forest, now, tops)
    ensures Shrinks(now, now[child := []]) && LosesRightly(forest, now[child := []], tops)
  {
    MetAgain(forest, way, child);
    ShrinksOn(forest, now, now[child := []]);
    forall x | Loses(forest, now[child := []], x) && x != child
      ensures Loses(forest, now, x)
    {
    }
  }

  lemma NextOnPath(forest: Forest, way: seq<Id>, child: Id)
    requires IsPath(forest, way) && child !in way && IsReport(forest, way[|way| - 1], child)
    ensures IsPath(forest, way + [child])
  {
    OneMoreOnWay(forest, way, child);
  }

  /** A report while lists are sorted or emptied is a report before that. */
  lemma ReportBefore(forest: Forest, now: Forest, id: Id, i: nat)
    requires IsClosed(forest) && Shrinks(forest, now) && id in now && i < |now[id]|
    ensures IsReport(forest, id, now[id][i].value)
  {
    var j := SameMember(forest[id], now[id], i);
  }

  lemma ReportAfter(forest: Forest, later: Forest, manager: Id, id: Id)
    requires Shrinks(forest, later) && IsReport(forest, manager, id) && !Loses(forest, later, manager)
    ensures IsReport(later, manager, id)
  {
    var k :| 0 <= k < |forest[manager]| && forest[manager][k].value == id;
    SortMember(forest[manager], forest[manager][k]);
    var j :| 0 <= j < |later[manager]| && later[manager][j] == forest[manager][k];
  }

  lemma WayAfter(forest: Forest, later: Forest, way: seq<Id>)
    requires Shrinks(forest, later) && IsWayDown(forest, way)
    requires forall i :: 0 <= i < |way| - 1 ==> !Loses(forest, later, way[i])
    ensures IsWayDown(later, way)
  {
    forall i | 0 <= i < |way| - 1
      ensures IsReport(later, way[i], way[i + 1])
    {
      assert IsReport(forest, way[i], way[i + 1]);
      ReportAfter(forest, later, way[i], way[i + 1]);
    }
  }

  ghost predicate AreSettled(forest: Forest, list: seq<Node>, path: set<Id>)
    requires IsClosed(forest)
  {
    forall j :: 0 <= j < |list| ==> list[j].value in forest && StepIsSettled(forest, list[j].value, path)
  }

  /** Steps that are settled stay so while lists shrink. */
  lemma OneMoreSettled(before: Forest, after: Forest, list: seq<Node>, i: nat, path: set<Id>)
    requires IsClosed(before) && Shrinks(before, after) && IsClosed(after) && i < |list|
    requires AreSettled(before, list[..i], path)
    requires list[i].value in after && StepIsSettled(after, list[i].value, path)
    ensures AreSettled(after, list[..i + 1], path)
  {
    forall j | 0 <= j < i
      ensures list[j].value in after && StepIsSettled(after, list[j].value, path)
    {
      assert list[..i][j] == list[j];
      ShrinkingStepStaysSettled(before, after, list[j].value, path);
    }
  }

  lemma SettledList(unsorted: seq<Node>, forest: Forest, id: Id, path: set<Id>, list: seq<Node>)
    requires IsClosed(forest) && id in forest && list == Sort(unsorted)
    requires Settles(list, forest[id]) && AreSettled(forest, list, path)
    ensures IsSettled(forest, id, path)
  {
    SortSorts(unsorted);
    SortedStays(list);
  }

  function Elements(way: seq<Id>): set<Id> {
    set id | id in way
  }

  /** A root that reports to itself has lost its reports, or somebody below it has. */
  lemma SomebodyOnLoopLoses(forest: Forest, later: Forest, before: seq<Id>, way: seq<Id>) returns (id: Id)
    requires IsClosed(forest) && IsClosed(later) && Shrinks(forest, later)
    requires before != [] && IsWayDown(forest, before) && way != []
    requires IsLoop(forest, way, way[0]) && before[|before| - 1] == way[0] && before[0] in later
    requires IsSettled(later, before[0], {before[0]})
    ensures Loses(forest, later, id) && (id in before || id in way)
  {
    var whole := before + way[1..];
    JoinedWays(forest, before, way);
    if i :| 0 <= i < |whole| - 1 && Loses(forest, later, whole[i]) {
      id := whole[i];
    } else {
      WayAfter(forest, later, whole);
      NobodyBelowThemselves(later, whole, |before| - 1, |whole| - 1);
      assert false;
    }
  }

  lemma ManagerIsBelowThemselves(forest: Forest, manager: Id, id: Id)
    requires OneManager(forest) && IsReport(forest, manager, id) && IsBelowThemselves(forest, id)
    ensures IsBelowThemselves(forest, manager)
  {
    var way :| IsLoop(forest, way, id);
    var n := |way| - 1;
    assert IsReport(forest, way[n - 1], way[n - 1 + 1]);
    StartOfWay(forest, way, n);
    JoinedWays(forest, [manager, id], way[..n]);
    assert [manager, id] + way[..n][1..] == [manager] + way[..n];
    assert IsLoop(forest, [manager] + way[..n], manager);
  }

  lemma {:induction false} TopIsBelowThemselves(forest: Forest, way: seq<Id>, i: nat)
    requires OneManager(forest) && IsWayDown(forest, way) && i < |way| && IsBelowThemselves(forest, way[i])
    ensures IsBelowThemselves(forest, way[0])
  {
    if i > 0 {
      assert IsReport(forest, way[i - 1], way[i - 1 + 1]);
      ManagerIsBelowThemselves(forest, way[i - 1], way[i]);
      TopIsBelowThemselves(forest, way, i - 1);
    }
  }

  lemma WayBefore(forest: Forest, later: Forest, way: seq<Id>)
    requires IsClosed(forest) && Shrinks(forest, later) && IsWayDown(later, way)
    ensures IsWayDown(forest, way)
  {
    forall i | 0 <= i < |way| - 1
      ensures IsReport(forest, way[i], way[i + 1])
    {
      assert IsReport(later, way[i], way[i + 1]);
      var k :| 0 <= k < |later[way[i]]| && later[way[i]][k].value == way[i + 1];
      ReportBefore(forest, later, way[i], k);
    }
  }

  // ---------------------------------------------------------------- rescuing whom nobody reaches

  /** Of the ids in order, those that nothing before them reaches, and all that is reached then. */
  function Rescue(forest: Forest, order: seq<Id>, start: set<Id>): (seq<Id>, set<Id>)
    requires IsClosed(forest)
  {
    if order == [] then ([], start)
    else
      var n := |order| - 1;
      var (rescued, reached) := Rescue(forest, order[..n], start);
      if order[n] in reached then (rescued, reached)
      else (rescued + [order[n]], reached + ReachOne(forest, order[n], {}))
  }

  lemma {:induction false} RescueReachesAll(forest: Forest, order: seq<Id>, start: set<Id>)
    requires IsClosed(forest) && forall k :: 0 <= k < |order| ==> order[k] in forest
    ensures start <= Rescue(forest, order, start).1
    ensures forall k :: 0 <= k < |order| ==> order[k] in Rescue(forest, order, start).1
  {
    if order != [] {
      var n := |order| - 1;
      RescueReachesAll(forest, order[..n], start);
      forall k | 0 <= k < n
        ensures order[k] in Rescue(forest, order, start).1
      {
        assert order[..n][k] == order[k];
      }
    }
  }

  lemma {:induction false} RescuedReach(forest: Forest, order: seq<Id>, start: set<Id>, x: Id)
    requires IsClosed(forest)
    ensures x in Rescue(forest, order, start).1
       <==> x in start || exists k :: 0 <= k < |Rescue(forest, order, start).0|
                                      && x in ReachOne(forest, Rescue(forest, order, start).0[k], {})
  {
    if order != [] {
      var n := |order| - 1;
      var before, now := Rescue(forest, order[..n], start).0, Rescue(forest, order, start).0;
      RescuedReach(forest, order[..n], start, x);
      if now != before {
        assert now[|before|] == order[n];
      }
      if k :| 0 <= k < |before| && x in ReachOne(forest, before[k], {}) {
        assert now[k] == before[k];
      }
    }
  }

  /** Nobody is rescued whom the start or anybody rescued before reaches. */
  lemma {:induction false} RescuedApart(forest: Forest, order: seq<Id>, start: set<Id>, j: nat)
    requires IsClosed(forest) && j < |Rescue(forest, order, start).0|
    ensures Rescue(forest, order, start).0[j] in order && Rescue(forest, order, start).0[j] !in start
    ensures forall i :: 0 <= i < j ==>
                          Rescue(forest, order, start).0[j] !in ReachOne(forest, Rescue(forest, order, start).0[i], {})
  {
    var n := |order| - 1;
    var before := Rescue(forest, order[..n], start).0;
    if j < |before| {
      RescuedApart(forest, order[..n], start, j);
    } else {
      RescuedReach(forest, order[..n], start, order[n]);
    }
  }

  lemma FirstRescuesSecond(forest: Forest, a: Id, b: Id)
    requires IsClosed(forest) && b in ReachOne(forest, a, {})
    ensures Rescue(forest, [a, b], {}).0 == [a]
  {
    var one := [a, b][..1];
    assert one == [a] && one[..0] == [] && Rescue(forest, one[..0], {}) == ([], {});
    assert [] + [a] == [a] && {} + ReachOne(forest, a, {}) == ReachOne(forest, a, {});
  }

  lemma ReachesOn(forest: Forest, a: Id, b: Id, c: Id)
    requires IsClosed(forest) && b in ReachOne(forest, a, {}) && c in ReachOne(forest, b, {})
    ensures c in ReachOne(forest, a, {})
  {
    var first := ReachedByPath(forest, a, {}, b);
    var second := ReachedByPath(forest, b, {}, c);
    JoinedWays(forest, first, second);
    WayIsReached(forest, first + second[1..], |first + second[1..]| - 1);
  }

  /** Whoever is reached from these members is one of them. */
  ghost predicate HoldsAllBelow(forest: Forest, ids: set<Id>)
    requires IsClosed(forest)
  {
    forall a: Id, x: Id :: a in ids && x in ReachOne(forest, a, {}) ==> x in ids
  }

  /** What is reached in the end is what the start or any of the ids reaches, rescued or not. */
  lemma {:induction false} RescueReaches(forest: Forest, order: seq<Id>, start: set<Id>, x: Id)
    requires IsClosed(forest) && HoldsAllBelow(forest, start)
    ensures x in Rescue(forest, order, start).1
       <==> x in start || exists j :: 0 <= j < |order| && x in ReachOne(forest, order[j], {})
  {
    if order != [] {
      var n := |order| - 1;
      RescueReaches(forest, order[..n], start, x);
      if j :| 0 <= j < n && x in ReachOne(forest, order[j], {}) {
        assert order[..n][j] == order[j];
      }
      if x in ReachOne(forest, order[n], {}) && order[n] in Rescue(forest, order[..n], start).1 {
        ReachedIsClosed(forest, order[..n], start, order[n], x);
      }
    }
  }

  lemma {:induction false} ReachedIsClosed(forest: Forest, order: seq<Id>, start: set<Id>, a: Id, x: Id)
    requires IsClosed(forest) && HoldsAllBelow(forest, start)
    requires a in Rescue(forest, order, start).1 && x in ReachOne(forest, a, {})
    ensures x in Rescue(forest, order, start).1
  {
    RescuedReach(forest, order, start, a);
    RescuedReach(forest, order, start, x);
    var rescued := Rescue(forest, order, start).0;
    if a !in start {
      var k :| 0 <= k < |rescued| && a in ReachOne(forest, rescued[k], {});
      ReachesOn(forest, rescued[k], a, x);
    }
  }

  /** A manager that is reached in the end reaches the last that is rescued, so nobody but that one reaches it. */
  lemma LastRescued(forest: Forest, order: seq<Id>, start: set<Id>, manager: Id, id: Id)
    requires IsClosed(forest) && HoldsAllBelow(forest, start) && IsReport(forest, manager, id)
    requires manager in Rescue(forest, order, start).1
    requires
      var rescued := Rescue(forest, order, start).0;
      rescued != [] && rescued[|rescued| - 1] == id
    ensures IsBelowThemselves(forest, id)
  {
    var rescued := Rescue(forest, order, start).0;
    RescuedApart(forest, order, start, |rescued| - 1);
    RescuedReach(forest, order, start, manager);
    WayIsReached(forest, [manager, id], 1);
    if manager !in start {
      var k :| 0 <= k < |rescued| && manager in ReachOne(forest, rescued[k], {});
      ReportsAreReached(forest, rescued[k], manager, id);
      ReachingTheManager(forest, id, manager);
    }
  }

  /** Among distinct ids, one is rescued exactly when nothing reaches it in its turn. */
  lemma {:induction false} RescuedIffUnreached(forest: Forest, order: seq<Id>, start: set<Id>, k: nat)
    requires IsClosed(forest) && k < |order| && forall i, j :: 0 <= i < j < |order| ==> order[i] != order[j]
    ensures order[k] in Rescue(forest, order, start).0 <==> order[k] !in Rescue(forest, order[..k], start).1
  {
    var n := |order| - 1;
    if k < n {
      assert order[..n][..k] == order[..k] && order[..n][k] == order[k];
      RescuedIffUnreached(forest, order[..n], start, k);
    } else {
      RescuedAreOf(forest, order[..n], start);
      assert order[n] !in order[..n];
    }
  }

  lemma {:induction false} RescuedAreOf(forest: Forest, order: seq<Id>, start: set<Id>)
    requires IsClosed(forest)
    ensures forall id :: id in Rescue(forest, order, start).0 ==> id in order
  {
    if order != [] {
      RescuedAreOf(forest, order[..|order| - 1], start);
    }
  }

  /** Whoever reaches their manager reports to themselves. */
  lemma ReachingTheManager(forest: Forest, id: Id, manager: Id)
    requires IsClosed(forest) && manager in ReachOne(forest, id, {}) && IsReport(forest, manager, id)
    ensures IsBelowThemselves(forest, id)
  {
    var way := ReachedByPath(forest, id, {}, manager);
    OneMoreOnWay(forest, way, id);
    assert IsLoop(forest, way + [id], id);
  }

  lemma OnLoopAreBelow(forest: Forest, way: seq<Id>, id: Id, k: nat)
    requires IsLoop(forest, way, id) && k < |way|
    ensures IsBelowThemselves(forest, way[k])
  {
    if k < |way| - 1 {
      TailOfWay(forest, way, k);
      StartOfWay(forest, way, k + 1);
      JoinedWays(forest, way[k..], way[..k + 1]);
      assert IsLoop(forest, way[k..] + way[..k + 1][1..], way[k]);
    }
  }
}
