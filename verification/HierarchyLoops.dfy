/**
 What building the hierarchy keeps when members report to themselves: all reports are kept
 exactly when none do; otherwise the first member of every loop loses its reports, and with
 them everybody to whom no other root leads.
 */
module HierarchyLoops {
  import opened Options
  import opened KeyOrder
  import opened Sequences
  import opened Forests
  import opened Hierarchy

  /** With one manager each, only one root is on a loop. */
  lemma OneRootOnLoop(nodes: Members, members: seq<Member>, way: seq<Id>, id: Id, other: Id)
    requires nodes == ById(members) && AreUnique(members) && IsClosed(ForestOf(nodes, members))
    requires IsLoop(ForestOf(nodes, members), way, id) && other in way
    requires IsRoot(AllRoots(nodes, members), id) && IsRoot(AllRoots(nodes, members), other)
    ensures other == id
  {
    var forest := ForestOf(nodes, members);
    var rescued := Rescued(nodes, members);
    var order, start := Order(members), Reach(forest, Known(RootsOf(nodes, members)), {});
    var k :| 0 <= k < |way| && way[k] == other;
    TailOfWay(forest, way, k);
    assert IsReport(forest, way[0], way[0 + 1]);
    WayIsReached(forest, way, k);
    WayIsReached(forest, way[k..], |way| - 1 - k);
    var m := if k > 0 then way[k - 1] else way[|way| - 2];
    assert IsReport(forest, way[|way| - 2], way[|way| - 2 + 1]);
    if k > 0 {
      assert IsReport(forest, way[k - 1], way[k - 1 + 1]);
    }
    var i := ManagedRootIsRescued(nodes, members, way[|way| - 2], id);
    var j := ManagedRootIsRescued(nodes, members, m, other);
    if i < j {
      RescuedApart(forest, order, start, j);
    } else if j < i {
      RescuedApart(forest, order, start, i);
    }
  }

  lemma ManagedRootIsRescued(nodes: Members, members: seq<Member>, manager: Id, id: Id) returns (k: nat)
    requires nodes == ById(members) && AreUnique(members) && IsClosed(ForestOf(nodes, members))
    requires IsReport(ForestOf(nodes, members), manager, id) && IsRoot(AllRoots(nodes, members), id)
    ensures k < |Rescued(nodes, members)| && Rescued(nodes, members)[k] == id
  {
    var placed, all := RootsOf(nodes, members), AllRoots(nodes, members);
    UniqueHaveOneManager(nodes, members);
    AllKeepTheirRecord(nodes, members);
    var j :| 0 <= j < |all| && all[j].value == Some(id);
    if j < |placed| {
      RootsHaveNoManager(nodes, members, j);
      assert false;
    }
    k := j - |placed|;
  }

  ghost predicate IsBuilt(nodes: Members, members: seq<Member>, children: Forest, roots: seq<Root>)
    requires IsClosed(ForestOf(nodes, members))
  {
    && IsClosed(children) && roots == Sort(AllRoots(nodes, members)) && RootsSettle(children, roots)
    && LosesRightly(ForestOf(nodes, members), children, Tops(roots))
  }

  function Tops(roots: seq<Root>): set<Id> {
    set k | 0 <= k < |roots| && roots[k].value.Some? :: roots[k].value.value
  }

  lemma SortKeepsRoots(roots: seq<Root>, id: Id)
    ensures IsRoot(Sort(roots), id) <==> IsRoot(roots, id)
  {
    if j :| 0 <= j < |roots| && roots[j].value == Some(id) {
      SortMember(roots, roots[j]);
      var k :| 0 <= k < |Sort(roots)| && Sort(roots)[k] == roots[j];
    }
    if k :| 0 <= k < |Sort(roots)| && Sort(roots)[k].value == Some(id) {
      SortMember(roots, Sort(roots)[k]);
      var j :| 0 <= j < |roots| && roots[j] == Sort(roots)[k];
    }
  }

  /** All reports are kept exactly when nobody reports to themselves. */
  lemma AllAreKeptIffNoLoop(nodes: Members, members: seq<Member>, children: Forest, roots: seq<Root>)
    requires nodes == ById(members) && IsClosed(ForestOf(nodes, members))
    requires IsBuilt(nodes, members, children, roots)
    ensures KeepsAll(ForestOf(nodes, members), children) <==> !HasLoop(ForestOf(nodes, members))
  {
    var forest := ForestOf(nodes, members);
    KeepsAllIffNobodyLoses(forest, children);
    if HasLoop(forest) {
      var id :| id in forest && IsBelowThemselves(forest, id);
      var way :| IsLoop(forest, way, id);
      var root := SomeRootReaches(nodes, members, id);
      var before := ReachedByPath(forest, root, {}, id);
      SortKeepsRoots(AllRoots(nodes, members), root);
      var k :| 0 <= k < |roots| && roots[k].value == Some(root);
      assert RootSettles(children, roots[k]);
      var loser := SomebodyOnLoopLoses(forest, children, before, way);
    }
  }

  /** With unique ids, exactly those lose their reports who report to themselves and are a root. */
  lemma LosesIffRootOnLoop(nodes: Members, members: seq<Member>, children: Forest, roots: seq<Root>, id: Id)
    requires nodes == ById(members) && AreUnique(members) && IsClosed(ForestOf(nodes, members))
    requires IsBuilt(nodes, members, children, roots) && id in nodes
    ensures Loses(ForestOf(nodes, members), children, id)
       <==> IsBelowThemselves(ForestOf(nodes, members), id) && IsRoot(roots, id)
  {
    var forest := ForestOf(nodes, members);
    UniqueHaveOneManager(nodes, members);
    if IsBelowThemselves(forest, id) && IsRoot(roots, id) {
      var way :| IsLoop(forest, way, id);
      var k :| 0 <= k < |roots| && roots[k].value == Some(id);
      assert RootSettles(children, roots[k]) && IsWayDown(forest, [id]);
      var loser := SomebodyOnLoopLoses(forest, children, [id], way);
      assert loser in Tops(roots);
      SortKeepsRoots(AllRoots(nodes, members), id);
      SortKeepsRoots(AllRoots(nodes, members), loser);
      OneRootOnLoop(nodes, members, way, id, loser);
    }
  }

  /** The first member of a loop: one that reports to itself, and whom nobody before it reaches. */
  ghost predicate IsFirstOfLoop(forest: Forest, members: seq<Member>, id: Id)
    requires IsClosed(forest)
  {
    IsBelowThemselves(forest, id) && !EarlierReaches(forest, members, id)
  }

  /** No way from an unmanaged member comes to a loop. */
  lemma LoopsAreManaged(nodes: Members, members: seq<Member>, u: Id, id: Id)
    requires nodes == ById(members) && AreUnique(members) && IsClosed(ForestOf(nodes, members))
    requires id in ReachOne(ForestOf(nodes, members), u, {}) && IsBelowThemselves(ForestOf(nodes, members), id)
    ensures !IsUnmanaged(nodes, members, u) && IsBelowThemselves(ForestOf(nodes, members), u)
  {
    var forest := ForestOf(nodes, members);
    UniqueHaveOneManager(nodes, members);
    AllKeepTheirRecord(nodes, members);
    var way := ReachedByPath(forest, u, {}, id);
    TopIsBelowThemselves(forest, way, |way| - 1);
    var loop :| IsLoop(forest, loop, u);
    assert IsReport(forest, loop[|loop| - 2], loop[|loop| - 2 + 1]);
  }

  /** With unique ids, exactly the first members of loops lose their reports. */
  lemma LosesIffFirstOfLoop(nodes: Members, members: seq<Member>, children: Forest, roots: seq<Root>, id: Id)
    requires nodes == ById(members) && AreUnique(members) && IsClosed(ForestOf(nodes, members))
    requires IsBuilt(nodes, members, children, roots) && id in nodes
    ensures Loses(ForestOf(nodes, members), children, id)
       <==> IsFirstOfLoop(ForestOf(nodes, members), members, id)
  {
    var forest := ForestOf(nodes, members);
    LosesIffRootOnLoop(nodes, members, children, roots, id);
    SortKeepsRoots(AllRoots(nodes, members), id);
    RootIffNobodyBefore(nodes, members, id);
    if IsBelowThemselves(forest, id) {
      WayIsReached(forest, [id], 0);
      LoopsAreManaged(nodes, members, id, id);
      if u: Id :| IsUnmanaged(nodes, members, u) && id in ReachOne(forest, u, {}) {
        LoopsAreManaged(nodes, members, u, id);
      }
    }
  }

  /** Whether a member is in what is built: a root, or somewhere below one. */
  predicate IsShown(children: Forest, roots: seq<Root>, id: Id)
    requires IsClosed(children)
  {
    id in Reach(children, Known(roots), {})
  }

  /** Whom a root leads to: everybody below, unless the root reports to itself. */
  ghost predicate LeadsTo(forest: Forest, root: Id, id: Id)
    requires IsClosed(forest)
  {
    id == root || (id in ReachOne(forest, root, {}) && !IsBelowThemselves(forest, root))
  }

  ghost predicate SomeLeadsTo(nodes: Members, members: seq<Member>, id: Id)
    requires IsClosed(ForestOf(nodes, members))
  {
    exists root: Id :: root in nodes && BecomesRoot(nodes, members, root)
                       && LeadsTo(ForestOf(nodes, members), root, id)
  }

  lemma LedToStays(nodes: Members, members: seq<Member>, children: Forest, roots: seq<Root>, root: Id, id: Id)
    requires nodes == ById(members) && AreUnique(members) && IsClosed(ForestOf(nodes, members))
    requires IsBuilt(nodes, members, children, roots) && root in nodes && id in nodes
    requires LeadsTo(ForestOf(nodes, members), root, id)
    ensures id in ReachOne(children, root, {})
  {
    var forest := ForestOf(nodes, members);
    UniqueHaveOneManager(nodes, members);
    if id != root {
      var way := ReachedByPath(forest, root, {}, id);
      forall i | 0 <= i < |way|
        ensures !Loses(forest, children, way[i])
      {
        if Loses(forest, children, way[i]) {
          TopIsBelowThemselves(forest, way, i);
        }
      }
      WayAfter(forest, children, way);
      WayIsReached(children, way, |way| - 1);
    }
  }

  lemma StaysIfLedTo(nodes: Members, members: seq<Member>, children: Forest, roots: seq<Root>, root: Id, id: Id)
    requires nodes == ById(members) && AreUnique(members) && IsClosed(ForestOf(nodes, members))
    requires IsBuilt(nodes, members, children, roots) && root in nodes && IsRoot(roots, root)
    requires id in ReachOne(children, root, {})
    ensures LeadsTo(ForestOf(nodes, members), root, id)
  {
    var forest := ForestOf(nodes, members);
    if id != root {
      var way := ReachedByPath(children, root, {}, id);
      assert IsReport(children, way[0], way[0 + 1]);
      LosesIffRootOnLoop(nodes, members, children, roots, root);
      WayBefore(forest, children, way);
      WayIsReached(forest, way, |way| - 1);
    }
  }

  lemma BuiltRoots(nodes: Members, members: seq<Member>, children: Forest, roots: seq<Root>, id: Id)
    requires nodes == ById(members) && IsClosed(ForestOf(nodes, members))
    requires IsBuilt(nodes, members, children, roots)
    ensures IsRoot(roots, id) ==> id in nodes
    ensures id in nodes ==> (IsRoot(roots, id) <==> BecomesRoot(nodes, members, id))
  {
    SortKeepsRoots(AllRoots(nodes, members), id);
    AllRootsAreKnown(nodes, members);
    if id in nodes {
      RootIffNobodyBefore(nodes, members, id);
    }
  }

  /**
   With unique ids, exactly those members are shown that some root leads to: whoever is
   only below a root that reports to itself is lost.
   */
  lemma ShownIffLedTo(nodes: Members, members: seq<Member>, children: Forest, roots: seq<Root>, id: Id)
    requires nodes == ById(members) && AreUnique(members) && IsClosed(ForestOf(nodes, members))
    requires IsBuilt(nodes, members, children, roots) && id in nodes
    ensures IsShown(children, roots, id) <==> SomeLeadsTo(nodes, members, id)
  {
    if IsShown(children, roots, id) {
      var known := Known(roots);
      ReachIsUnion(children, known, {}, id);
      var k :| 0 <= k < |known| && id in ReachOne(children, known[k].value, {});
      KnownIsRoot(roots, k);
      BuiltRoots(nodes, members, children, roots, known[k].value);
      StaysIfLedTo(nodes, members, children, roots, known[k].value, id);
    }
    if SomeLeadsTo(nodes, members, id) {
      LedToIsShown(nodes, members, children, roots, id);
    }
  }

  lemma LedToIsShown(nodes: Members, members: seq<Member>, children: Forest, roots: seq<Root>, id: Id)
    requires nodes == ById(members) && AreUnique(members) && IsClosed(ForestOf(nodes, members))
    requires IsBuilt(nodes, members, children, roots) && id in nodes && SomeLeadsTo(nodes, members, id)
    ensures IsShown(children, roots, id)
  {
    var root: Id :|
      root in nodes && BecomesRoot(nodes, members, root) && LeadsTo(ForestOf(nodes, members), root, id);
    BuiltRoots(nodes, members, children, roots, root);
    LedToStays(nodes, members, children, roots, root, id);
    var j :| 0 <= j < |roots| && roots[j].value == Some(root);
    var k := KnownHolds(roots, j);
    ReachIsUnion(children, Known(roots), {}, id);
  }

  // ---------------------------------------------------------------- when everybody is shown

  /** Whoever reports to themselves comes behind all their other reports. */
  ghost predicate SelfManagersComeLast(forest: Forest, members: seq<Member>) {
    forall i: Id, j: Id :: IsReport(forest, i, j) && i != j && IsBelowThemselves(forest, i) ==>
                             FirstAt(members, j) < FirstAt(members, i)
  }

  lemma {:induction false} LoopsGoBack(forest: Forest, members: seq<Member>, way: seq<Id>, id: Id, k: nat)
    requires SelfManagersComeLast(forest, members) && IsLoop(forest, way, id) && k < |way|
    ensures FirstAt(members, way[k]) <= FirstAt(members, id)
  {
    if k > 0 {
      LoopsGoBack(forest, members, way, id, k - 1);
      OnLoopAreBelow(forest, way, id, k - 1);
      assert IsReport(forest, way[k - 1], way[k - 1 + 1]);
    }
  }

  /** Then loops are members who manage themselves, and their other reports are on none. */
  lemma OtherReportsAreOnNoLoop(forest: Forest, members: seq<Member>, manager: Id, id: Id)
    requires SelfManagersComeLast(forest, members) && OneManager(forest)
    requires IsReport(forest, manager, id) && manager != id && IsBelowThemselves(forest, manager)
    ensures !IsBelowThemselves(forest, id)
  {
    if IsBelowThemselves(forest, id) {
      var way :| IsLoop(forest, way, id);
      assert IsReport(forest, way[|way| - 2], way[|way| - 2 + 1]);
      LoopsGoBack(forest, members, way, id, |way| - 2);
    }
  }

  /** A report is reached only through its manager. */
  lemma ThroughTheManager(forest: Forest, a: Id, manager: Id, id: Id)
    requires IsClosed(forest) && OneManager(forest) && IsReport(forest, manager, id)
    requires id in ReachOne(forest, a, {}) && a != id
    ensures manager in ReachOne(forest, a, {})
  {
    var way := ReachedByPath(forest, a, {}, id);
    var n := |way| - 1;
    assert IsReport(forest, way[n - 1], way[n - 1 + 1]);
    WayIsReached(forest, way, n - 1);
  }

  /** A report that comes before a root that manages itself is a root of its own. */
  lemma OtherReportsAreRoots(nodes: Members, members: seq<Member>, root: Id, id: Id)
    requires nodes == ById(members) && AreUnique(members) && IsClosed(ForestOf(nodes, members))
    requires IsReport(ForestOf(nodes, members), root, id) && root in nodes && BecomesRoot(nodes, members, root)
    requires IsBelowThemselves(ForestOf(nodes, members), root) && FirstAt(members, id) < FirstAt(members, root)
    ensures BecomesRoot(nodes, members, id)
  {
    var forest := ForestOf(nodes, members);
    UniqueHaveOneManager(nodes, members);
    AllKeepTheirRecord(nodes, members);
    WayIsReached(forest, [root], 0);
    LoopsAreManaged(nodes, members, root, root);
    if a: Id :| id in ReachOne(forest, a, {})
                && (IsUnmanaged(nodes, members, a) || FirstAt(members, a) < FirstAt(members, id)) {
      assert a != id;
      ThroughTheManager(forest, a, root, id);
    }
  }

  lemma AllAreLedTo(nodes: Members, members: seq<Member>, id: Id)
    requires nodes == ById(members) && AreUnique(members) && IsClosed(ForestOf(nodes, members))
    requires SelfManagersComeLast(ForestOf(nodes, members), members) && id in nodes
    ensures SomeLeadsTo(nodes, members, id)
  {
    var root := SomeRootReaches(nodes, members, id);
    RootIffNobodyBefore(nodes, members, root);
    if !LeadsTo(ForestOf(nodes, members), root, id) {
      AnotherLeadsTo(nodes, members, root, id);
    }
  }

  /** Below a root that manages itself, another report of it leads on. */
  lemma AnotherLeadsTo(nodes: Members, members: seq<Member>, root: Id, id: Id)
    requires nodes == ById(members) && AreUnique(members) && IsClosed(ForestOf(nodes, members))
    requires SelfManagersComeLast(ForestOf(nodes, members), members)
    requires root in nodes && BecomesRoot(nodes, members, root) && IsBelowThemselves(ForestOf(nodes, members), root)
    requires id in ReachOne(ForestOf(nodes, members), root, {}) && id != root
    ensures SomeLeadsTo(nodes, members, id)
  {
    var forest := ForestOf(nodes, members);
    UniqueHaveOneManager(nodes, members);
    var next := NextOnTheWay(forest, root, id);
    OtherReportsAreOnNoLoop(forest, members, root, next);
    OtherReportsAreRoots(nodes, members, root, next);
    assert LeadsTo(forest, next, id);
  }

  lemma NextOnTheWay(forest: Forest, root: Id, id: Id) returns (next: Id)
    requires IsClosed(forest) && id in ReachOne(forest, root, {}) && id != root
    ensures IsReport(forest, root, next) && next != root && id in ReachOne(forest, next, {})
  {
    var way := ReachedByPath(forest, root, {}, id);
    RestOfWay(forest, way);
    WayIsReached(forest, way[1..], |way| - 2);
    next := way[1];
  }

  lemma LedToComesFirst(nodes: Members, members: seq<Member>, manager: Id, id: Id)
    requires nodes == ById(members) && AreUnique(members) && IsClosed(ForestOf(nodes, members))
    requires IsReport(ForestOf(nodes, members), manager, id) && manager != id
    requires IsBelowThemselves(ForestOf(nodes, members), manager) && SomeLeadsTo(nodes, members, id)
    ensures FirstAt(members, id) < FirstAt(members, manager)
  {
    var root: Id :|
      root in nodes && BecomesRoot(nodes, members, root) && LeadsTo(ForestOf(nodes, members), root, id);
    LedToIsRoot(nodes, members, manager, root, id);
    ManagerReaches(nodes, members, manager, id);
    if FirstAt(members, id) == FirstAt(members, manager) {
      FirstIsOnlyOnce(members, id, manager);
    }
  }

  lemma LedToIsRoot(nodes: Members, members: seq<Member>, manager: Id, root: Id, id: Id)
    requires nodes == ById(members) && AreUnique(members) && IsClosed(ForestOf(nodes, members))
    requires IsReport(ForestOf(nodes, members), manager, id) && LeadsTo(ForestOf(nodes, members), root, id)
    requires IsBelowThemselves(ForestOf(nodes, members), manager)
    ensures root == id
  {
    if root != id {
      UniqueHaveOneManager(nodes, members);
      ThroughTheManager(ForestOf(nodes, members), root, manager, id);
      LoopsAreManaged(nodes, members, root, manager);
    }
  }

  /** A report that is a root comes before its manager. */
  lemma ManagerReaches(nodes: Members, members: seq<Member>, manager: Id, id: Id)
    requires nodes == ById(members) && AreUnique(members) && IsClosed(ForestOf(nodes, members))
    requires IsReport(ForestOf(nodes, members), manager, id) && BecomesRoot(nodes, members, id)
    ensures FirstAt(members, id) <= FirstAt(members, manager) && FirstAt(members, id) < |members|
  {
    UniqueHaveOneManager(nodes, members);
    AllKeepTheirRecord(nodes, members);
    WayIsReached(ForestOf(nodes, members), [manager, id], 1);
    OrderGoesUp(members);
    OrderHasAll(members);
    var k :| 0 <= k < |Order(members)| && Order(members)[k] == id;
  }

  /**
   With unique ids, everybody is shown exactly when whoever reports to themselves comes
   behind all their other reports, which excludes loops of two or more.
   */
  lemma AllAreShownIff(nodes: Members, members: seq<Member>, children: Forest, roots: seq<Root>)
    requires nodes == ById(members) && AreUnique(members) && IsClosed(ForestOf(nodes, members))
    requires IsBuilt(nodes, members, children, roots)
    ensures (forall id :: id in nodes ==> IsShown(children, roots, id))
       <==> SelfManagersComeLast(ForestOf(nodes, members), members)
  {
    var forest := ForestOf(nodes, members);
    if SelfManagersComeLast(forest, members) {
      forall id | id in nodes
        ensures IsShown(children, roots, id)
      {
        AllAreLedTo(nodes, members, id);
        ShownIffLedTo(nodes, members, children, roots, id);
      }
    } else {
      var i: Id, j: Id :| IsReport(forest, i, j) && i != j && IsBelowThemselves(forest, i)
                          && FirstAt(members, j) >= FirstAt(members, i);
      if SomeLeadsTo(nodes, members, j) {
        LedToComesFirst(nodes, members, i, j);
      }
      ShownIffLedTo(nodes, members, children, roots, j);
    }
  }

  // ---------------------------------------------------------------- two members

  /** Of two members who manage each other, the second is lost. */
  lemma SecondOfTwoIsLost(first: Member, second: Member, children: Forest, roots: seq<Root>)
    requires first.id.Some? && second.id.Some? && first.id != second.id
    requires first.manager == second.id && second.manager == first.id
    requires
      var members := [first, second];
      IsClosed(ForestOf(ById(members), members)) && IsBuilt(ById(members), members, children, roots)
    ensures IsShown(children, roots, first.id.value) && !IsShown(children, roots, second.id.value)
  {
    var members := [first, second];
    var nodes, a, b := ById(members), first.id.value, second.id.value;
    TwoManageEachOther(first, second);
    FirstOfTwoLeads(nodes, members, children, roots, a, b);
  }

  lemma FirstOfTwoLeads(nodes: Members, members: seq<Member>, children: Forest, roots: seq<Root>, a: Id, b: Id)
    requires nodes == ById(members) && AreUnique(members) && IsClosed(ForestOf(nodes, members))
    requires IsBuilt(nodes, members, children, roots) && nodes.Keys == {a, b} && a != b
    requires AllRoots(nodes, members) == [RootOf(nodes, a)] && IsBelowThemselves(ForestOf(nodes, members), a)
    ensures IsShown(children, roots, a) && !IsShown(children, roots, b)
  {
    ShownIffLedTo(nodes, members, children, roots, a);
    ShownIffLedTo(nodes, members, children, roots, b);
    RootIffNobodyBefore(nodes, members, a);
    RootIffNobodyBefore(nodes, members, b);
    assert AllRoots(nodes, members)[0].value == Some(a);
    assert LeadsTo(ForestOf(nodes, members), a, a);
  }

  lemma TwoManageEachOther(first: Member, second: Member)
    requires first.id.Some? && second.id.Some? && first.id != second.id
    requires first.manager == second.id && second.manager == first.id
    requires IsClosed(ForestOf(ById([first, second]), [first, second]))
    ensures
      var members := [first, second];
      var nodes := ById(members);
      && nodes.Keys == {first.id.value, second.id.value}
      && AllRoots(nodes, members) == [RootOf(nodes, first.id.value)]
      && IsBelowThemselves(ForestOf(nodes, members), first.id.value)
  {
    var members := [first, second];
    var nodes, a, b := ById(members), first.id.value, second.id.value;
    var forest := ForestOf(nodes, members);
    TwoMembers(first, second);
    assert IsReport(forest, a, b) by { assert forest[a][0].value == b; }
    assert IsReport(forest, b, a) by { assert forest[b][0].value == a; }
    assert IsLoop(forest, [a, b, a], a);
    WayIsReached(forest, [a, b], 0);
    WayIsReached(forest, [a, b], 1);
    FirstRescuesSecond(forest, a, b);
    assert Rescued(nodes, members) == [a];
    assert AllRoots(nodes, members) == [RootOf(nodes, a)];
  }

  lemma TwoMembers(first: Member, second: Member)
    requires first.id.Some? && second.id.Some? && first.id != second.id
    requires first.manager == second.id && second.manager == first.id
    ensures
      var members := [first, second];
      var nodes, a, b := ById(members), first.id.value, second.id.value;
      && nodes == map[a := first, b := second] && Order(members) == [a, b]
      && Reports(nodes, members, a) == [NodeOf(nodes, b)] && Reports(nodes, members, b) == [NodeOf(nodes, a)]
      && RootsOf(nodes, members) == []
  {
    var members := [first, second];
    var one, a, b := members[..1], first.id.value, second.id.value;
    assert one == [first] && members[1] == second;
    OneMember(ById(members), first);
    assert ById(members) == map[a := first, b := second];
  }

  /** What is built of one member whose manager is another one. */
  lemma OneMember(nodes: Members, m: Member)
    requires m.id.Some?
    ensures ById([m]) == map[m.id.value := m] && Order([m]) == [m.id.value]
    ensures HasManager(nodes, m) ==> RootsOf(nodes, [m]) == []
    ensures forall id: Id ::
              Reports(nodes, [m], id) == if m.manager == Some(id) then [NodeOf(nodes, m.id.value)] else []
  {
    var one := [m];
    var none := one[..0];
    assert none == [] && ById(none) == map[] && Order(none) == [] && RootsOf(nodes, none) == [];
    assert forall id: Id :: Reports(nodes, none, id) == [];
  }

  /** With unique ids and no loop, everybody is placed once in what is built. */
  lemma BuiltPlacesOnce(nodes: Members, members: seq<Member>, children: Forest, roots: seq<Root>, i: nat)
    requires nodes == ById(members) && AreUnique(members) && IsClosed(ForestOf(nodes, members))
    requires IsBuilt(nodes, members, children, roots) && !HasLoop(ForestOf(nodes, members))
    requires i < |members| && members[i].id.Some?
    ensures members[i].id.value in nodes && IsPlacedOnce(nodes, members[i], children, roots)
  {
    var forest := ForestOf(nodes, members);
    PlacedExactlyOnce(members, i);
    AllAreKeptIffNoLoop(nodes, members, children, roots);
    NobodyIsRescued(nodes, members);
    SortSorts(RootsOf(nodes, members));
    forall m | m in children
      ensures multiset(children[m]) == multiset(forest[m])
    {
      SortSorts(forest[m]);
    }
  }

  lemma BuiltWithoutLoops(nodes: Members, members: seq<Member>, children: Forest, roots: seq<Root>)
    requires nodes == ById(members) && IsClosed(ForestOf(nodes, members))
    requires IsBuilt(nodes, members, children, roots)
    ensures !HasLoop(ForestOf(nodes, members)) ==> roots == Sort(RootsOf(nodes, members))
    ensures AreUnique(members) && !HasLoop(ForestOf(nodes, members)) ==>
              forall i :: 0 <= i < |members| && members[i].id.Some? ==>
                            members[i].id.value in nodes && IsPlacedOnce(nodes, members[i], children, roots)
  {
    if !HasLoop(ForestOf(nodes, members)) {
      NobodyIsRescued(nodes, members);
      if AreUnique(members) {
        forall i | 0 <= i < |members| && members[i].id.Some?
          ensures members[i].id.value in nodes && IsPlacedOnce(nodes, members[i], children, roots)
        {
          BuiltPlacesOnce(nodes, members, children, roots, i);
        }
      }
    }
  }

  lemma WhatIsBuilt(nodes: Members, members: seq<Member>, children: Forest, roots: seq<Root>)
    requires nodes == ById(members) && IsClosed(ForestOf(nodes, members))
    requires IsBuilt(nodes, members, children, roots)
    ensures forall id :: id in nodes ==> (IsRoot(roots, id) <==> BecomesRoot(nodes, members, id))
    ensures KeepsAll(ForestOf(nodes, members), children) <==> !HasLoop(ForestOf(nodes, members))
    ensures !HasLoop(ForestOf(nodes, members)) ==> roots == Sort(RootsOf(nodes, members))
    ensures AreUnique(members) && !HasLoop(ForestOf(nodes, members)) ==>
              forall i :: 0 <= i < |members| && members[i].id.Some? ==>
                            members[i].id.value in nodes && IsPlacedOnce(nodes, members[i], children, roots)
  {
    forall id | id in nodes
      ensures IsRoot(roots, id) <==> BecomesRoot(nodes, members, id)
    {
      BuiltRoots(nodes, members, children, roots, id);
    }
    AllAreKeptIffNoLoop(nodes, members, children, roots);
    BuiltWithoutLoops(nodes, members, children, roots);
  }

  lemma BuiltWithLoops(nodes: Members, members: seq<Member>, children: Forest, roots: seq<Root>)
    requires nodes == ById(members) && AreUnique(members) && IsClosed(ForestOf(nodes, members))
    requires IsBuilt(nodes, members, children, roots)
    ensures forall id :: id in nodes ==>
                           (Loses(ForestOf(nodes, members), children, id)
                            <==> IsFirstOfLoop(ForestOf(nodes, members), members, id))
    ensures forall id :: id in nodes ==> (IsShown(children, roots, id) <==> SomeLeadsTo(nodes, members, id))
    ensures (forall id :: id in nodes ==> IsShown(children, roots, id))
       <==> SelfManagersComeLast(ForestOf(nodes, members), members)
  {
    forall id | id in nodes
      ensures Loses(ForestOf(nodes, members), children, id)
         <==> IsFirstOfLoop(ForestOf(nodes, members), members, id)
      ensures IsShown(children, roots, id) <==> SomeLeadsTo(nodes, members, id)
    {
      LosesIffFirstOfLoop(nodes, members, children, roots, id);
      ShownIffLedTo(nodes, members, children, roots, id);
    }
    AllAreShownIff(nodes, members, children, roots);
  }
}
