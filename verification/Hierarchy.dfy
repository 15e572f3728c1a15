/**
 The forest of an organization's members: every member under the manager, if that is
 one of them, and otherwise a root; what no root reaches is added as further roots; then
 every level is sorted by name, and a member met below itself loses its reports.
 */
module Hierarchy {
  import opened Options
  import opened KeyOrder
  import opened Sequences
  import opened Forests

  datatype Member = Member(id: Option<Id>, manager: Option<Id>, fullName: string)

  /** A root may be a member without an id, which nobody can report to. */
  type Root = Keyed<Option<Id>>

  type Members = map<Id, Member>

  // ---------------------------------------------------------------- who is placed where

  /** The members by id; a later one with the same id takes the place. */
  function ById(members: seq<Member>): Members {
    if members == [] then map[]
    else
      var n := |members| - 1;
      if members[n].id.None? then ById(members[..n]) else ById(members[..n])[members[n].id.value := members[n]]
  }

  function NodeOf(nodes: Members, id: Id): Node {
    Keyed(if id in nodes then nodes[id].fullName else [], id)
  }

  function RootOf(nodes: Members, id: Id): Root {
    Keyed(NodeOf(nodes, id).key, Some(id))
  }

  predicate HasManager(nodes: Members, m: Member) {
    m.manager.Some? && m.manager.value in nodes
  }

  /** The reports of `manager`, in the order of the members. */
  function Reports(nodes: Members, members: seq<Member>, manager: Id): seq<Node> {
    if members == [] then []
    else
      var n := |members| - 1;
      var before := Reports(nodes, members[..n], manager);
      if members[n].id.Some? && members[n].manager == Some(manager)
      then before + [NodeOf(nodes, members[n].id.value)]
      else before
  }

  function RootsOf(nodes: Members, members: seq<Member>): seq<Root> {
    if members == [] then []
    else
      var n := |members| - 1;
      var before := RootsOf(nodes, members[..n]);
      if members[n].id.None? then before + [Keyed(members[n].fullName, None)]
      else if HasManager(nodes, members[n]) then before
      else before + [RootOf(nodes, members[n].id.value)]
  }

  function ForestOf(nodes: Members, members: seq<Member>): Forest {
    map id | id in nodes :: Reports(nodes, members, id)
  }

  lemma {:induction false} ByIdHasAll(members: seq<Member>)
    ensures forall i :: 0 <= i < |members| && members[i].id.Some? ==> members[i].id.value in ById(members)
    ensures forall id :: id in ById(members) ==> ById(members)[id].id == Some(id) && ById(members)[id] in members
  {
    if members != [] {
      var n := |members| - 1;
      ByIdHasAll(members[..n]);
      forall i | 0 <= i < |members| && members[i].id.Some?
        ensures members[i].id.value in ById(members)
      {
        if i < n {
          assert members[..n][i] == members[i];
        }
      }
    }
  }

  // ---------------------------------------------------------------- placed once

  /** Ids that nobody shares. */
  predicate AreUnique(members: seq<Member>) {
    forall i, j :: 0 <= i < j < |members| && members[i].id.Some? ==> members[i].id != members[j].id
  }

  /** Of several members with one id the last is the one that is shown. */
  lemma {:induction false} LastRecordIsKept(members: seq<Member>, i: nat)
    requires i < |members| && members[i].id.Some?
    requires forall j :: i < j < |members| ==> members[j].id != members[i].id
    ensures members[i].id.value in ById(members) && ById(members)[members[i].id.value] == members[i]
  {
    var n := |members| - 1;
    if i < n {
      assert members[..n][i] == members[i];
      LastRecordIsKept(members[..n], i);
    }
  }

  /** Whether `members` hold a member with this id under this manager. */
  predicate Holds(members: seq<Member>, id: Id, manager: Option<Id>) {
    exists i :: 0 <= i < |members| && members[i].id == Some(id) && members[i].manager == manager
  }

  lemma {:induction false} ReportsHoldOnce(nodes: Members, members: seq<Member>, manager: Id, id: Id)
    requires AreUnique(members) && id in nodes
    requires forall i :: 0 <= i < |members| && members[i].id.Some? ==> members[i].id.value in nodes
    ensures multiset(Reports(nodes, members, manager))[NodeOf(nodes, id)]
         == if Holds(members, id, Some(manager)) then 1 else 0
  {
    if members != [] {
      var n := |members| - 1;
      ReportsHoldOnce(nodes, members[..n], manager, id);
      HoldsStep(members, id, Some(manager));
      if members[n].id == Some(id) {
        assert forall i :: 0 <= i < n ==> members[..n][i] == members[i];
      }
    }
  }

  lemma HoldsStep(members: seq<Member>, id: Id, manager: Option<Id>)
    requires members != []
    ensures
      var n := |members| - 1;
      Holds(members, id, manager)
      <==> Holds(members[..n], id, manager) || (members[n].id == Some(id) && members[n].manager == manager)
  {
    var n := |members| - 1;
    if i :| 0 <= i < n && members[i].id == Some(id) && members[i].manager == manager {
      assert members[..n][i] == members[i];
    }
    if Holds(members[..n], id, manager) {
      var i :| 0 <= i < n && members[..n][i].id == Some(id) && members[..n][i].manager == manager;
      assert members[i] == members[..n][i];
    }
  }

  lemma {:induction false} RootsHoldOnce(nodes: Members, members: seq<Member>, id: Id)
    requires AreUnique(members) && id in nodes
    requires forall i :: 0 <= i < |members| && members[i].id.Some? ==>
                           members[i].id.value in nodes && nodes[members[i].id.value] == members[i]
    ensures multiset(RootsOf(nodes, members))[RootOf(nodes, id)]
         == if !HasManager(nodes, nodes[id]) && Holds(members, id, nodes[id].manager) then 1 else 0
  {
    if members != [] {
      var n := |members| - 1;
      RootsHoldOnce(nodes, members[..n], id);
      HoldsStep(members, id, nodes[id].manager);
      if members[n].id == Some(id) {
        assert forall i :: 0 <= i < n ==> members[..n][i] == members[i];
      }
    }
  }

  /**
   A member is among the reports of the manager it names, once, and of nobody else, and
   nowhere among the roots; or, if that manager is not there, once among the roots.
   */
  predicate IsPlacedOnce(nodes: Members, m: Member, forest: Forest, roots: seq<Root>)
    requires m.id.Some? && m.id.value in nodes
  {
    var id := m.id.value;
    && (forall manager :: manager in forest ==>
          multiset(forest[manager])[NodeOf(nodes, id)] == if m.manager == Some(manager) then 1 else 0)
    && multiset(roots)[RootOf(nodes, id)] == if HasManager(nodes, m) then 0 else 1
  }

  /** With unique ids every member is placed exactly once. */
  lemma PlacedExactlyOnce(members: seq<Member>, i: nat)
    requires AreUnique(members) && i < |members| && members[i].id.Some?
    ensures
      var nodes := ById(members);
      && members[i].id.value in nodes
      && IsPlacedOnce(nodes, members[i], ForestOf(nodes, members), RootsOf(nodes, members))
  {
    var nodes, id := ById(members), members[i].id.value;
    AllKeepTheirRecord(nodes, members);
    forall m | m in nodes
      ensures multiset(Reports(nodes, members, m))[NodeOf(nodes, id)] == if members[i].manager == Some(m) then 1 else 0
    {
      ReportsHoldOnce(nodes, members, m, id);
    }
    RootsHoldOnce(nodes, members, id);
  }

  lemma AllKeepTheirRecord(nodes: Members, members: seq<Member>)
    requires nodes == ById(members) && AreUnique(members)
    ensures forall i :: 0 <= i < |members| && members[i].id.Some? ==>
                          members[i].id.value in nodes && nodes[members[i].id.value] == members[i]
  {
    forall i | 0 <= i < |members| && members[i].id.Some?
      ensures members[i].id.value in nodes && nodes[members[i].id.value] == members[i]
    {
      LastRecordIsKept(members, i);
    }
  }

  // ---------------------------------------------------------------- building the forest

  lemma {:induction false} ReportsAreNodes(nodes: Members, members: seq<Member>, manager: Id)
    requires forall i :: 0 <= i < |members| && members[i].id.Some? ==>
                           members[i].id.value in nodes && nodes[members[i].id.value] == members[i]
    ensures forall k :: 0 <= k < |Reports(nodes, members, manager)| ==>
                          && Reports(nodes, members, manager)[k].value in nodes
                          && nodes[Reports(nodes, members, manager)[k].value].manager == Some(manager)
  {
    if members != [] {
      ReportsAreNodes(nodes, members[..|members| - 1], manager);
    }
  }

  lemma {:induction false} ReportsAreMembers(nodes: Members, members: seq<Member>, manager: Id)
    requires forall i :: 0 <= i < |members| && members[i].id.Some? ==> members[i].id.value in nodes
    ensures forall k :: 0 <= k < |Reports(nodes, members, manager)| ==>
                          Reports(nodes, members, manager)[k].value in nodes
  {
    if members != [] {
      ReportsAreMembers(nodes, members[..|members| - 1], manager);
    }
  }

  lemma ForestIsClosed(nodes: Members, members: seq<Member>)
    requires nodes == ById(members)
    ensures IsClosed(ForestOf(nodes, members))
  {
    ByIdHasAll(members);
    forall id | id in nodes
      ensures forall k :: 0 <= k < |ForestOf(nodes, members)[id]| ==>
                            ForestOf(nodes, members)[id][k].value in ForestOf(nodes, members)
    {
      ReportsAreMembers(nodes, members, id);
    }
  }

  /** What one more member does to the forest and to the roots. */
  lemma LinkStep(nodes: Members, members: seq<Member>, i: nat)
    requires i < |members|
    ensures
      var m, before := members[i], ForestOf(nodes, members[..i]);
      && ForestOf(nodes, members[..i + 1])
         == (if m.id.Some? && HasManager(nodes, m)
             then before[m.manager.value := before[m.manager.value] + [NodeOf(nodes, m.id.value)]]
             else before)
      && RootsOf(nodes, members[..i + 1])
         == RootsOf(nodes, members[..i])
            + if m.id.None? then [Keyed(m.fullName, None)]
              else if HasManager(nodes, m) then []
              else [RootOf(nodes, m.id.value)]
  {
    Prefix(members, i);
    var m := members[i];
    forall id | id in nodes
      ensures Reports(nodes, members[..i + 1], id)
           == Reports(nodes, members[..i], id)
              + if m.id.Some? && m.manager == Some(id) then [NodeOf(nodes, m.id.value)] else []
    {
    }
  }

  /** The ids in the order of the members, each once. */
  function Order(members: seq<Member>): seq<Id> {
    if members == [] then []
    else
      var n := |members| - 1;
      var before := Order(members[..n]);
      if members[n].id.None? || members[n].id.value in before then before else before + [members[n].id.value]
  }

  lemma {:induction false} OrderHasAll(members: seq<Member>)
    ensures forall id :: id in ById(members) <==> id in Order(members)
    ensures forall i :: 0 <= i < |Order(members)| ==> Order(members)[i] in ById(members)
    ensures forall id :: id in ById(members) ==> exists i :: 0 <= i < |Order(members)| && Order(members)[i] == id
  {
    if members != [] {
      OrderHasAll(members[..|members| - 1]);
    }
  }

  // ---------------------------------------------------------------- who becomes a root

  /** The roots that are members with an id. */
  function Known(roots: seq<Root>): seq<Node> {
    if roots == [] then []
    else
      var n := |roots| - 1;
      if roots[n].value.None? then Known(roots[..n])
      else Known(roots[..n]) + [Keyed(roots[n].key, roots[n].value.value)]
  }

  lemma {:induction false} KnownRoots(roots: seq<Root>, nodes: Members, members: seq<Member>)
    requires nodes == ById(members) && roots == RootsOf(nodes, members)
    ensures forall i :: 0 <= i < |Known(roots)| ==> Known(roots)[i].value in nodes
    ensures RootsAre(roots, nodes.Keys)
  {
    ByIdHasAll(members);
    RootsAreMembers(nodes, members);
    KnownAreRoots(roots, nodes.Keys);
  }

  lemma {:induction false} RootsAreMembers(nodes: Members, members: seq<Member>)
    requires forall i :: 0 <= i < |members| && members[i].id.Some? ==> members[i].id.value in nodes
    ensures forall i :: 0 <= i < |RootsOf(nodes, members)| && RootsOf(nodes, members)[i].value.Some? ==>
                          RootsOf(nodes, members)[i].value.value in nodes
  {
    if members != [] {
      RootsAreMembers(nodes, members[..|members| - 1]);
    }
  }

  lemma {:induction false} KnownAreRoots(roots: seq<Root>, ids: set<Id>)
    requires RootsAre(roots, ids)
    ensures forall i :: 0 <= i < |Known(roots)| ==> Known(roots)[i].value in ids
  {
    if roots != [] {
      KnownAreRoots(roots[..|roots| - 1], ids);
    }
  }

  lemma SortedRootsAreKnown(roots: seq<Root>, ids: set<Id>)
    requires RootsAre(roots, ids)
    ensures RootsAre(Sort(roots), ids)
  {
    forall i | 0 <= i < |Sort(roots)| && Sort(roots)[i].value.Some?
      ensures Sort(roots)[i].value.value in ids
    {
      SortMember(roots, Sort(roots)[i]);
      var j :| 0 <= j < |roots| && roots[j] == Sort(roots)[i];
    }
  }

  predicate RootsAre(roots: seq<Root>, ids: set<Id>) {
    forall i :: 0 <= i < |roots| && roots[i].value.Some? ==> roots[i].value.value in ids
  }

  lemma {:induction false} KnownHolds(roots: seq<Root>, i: nat) returns (k: nat)
    requires i < |roots| && roots[i].value.Some?
    ensures k < |Known(roots)| && Known(roots)[k].value == roots[i].value.value
  {
    var n := |roots| - 1;
    if i < n {
      k := KnownHolds(roots[..n], i);
    } else {
      k := |Known(roots)| - 1;
    }
  }

  function AsRoots(nodes: Members, ids: seq<Id>): seq<Root> {
    seq(|ids|, i requires 0 <= i < |ids| => RootOf(nodes, ids[i]))
  }

  lemma RescueStep(forest: Forest, nodes: Members, order: seq<Id>, i: nat, start: set<Id>)
    requires IsClosed(forest) && i < |order|
    ensures
      var id, before, now := order[i], Rescue(forest, order[..i], start), Rescue(forest, order[..i + 1], start);
      && now.1 == before.1 + (if id in before.1 then {} else ReachOne(forest, id, {}))
      && AsRoots(nodes, now.0) == AsRoots(nodes, before.0) + if id in before.1 then [] else [RootOf(nodes, id)]
  {
    Prefix(order, i);
  }

  /** Whom the members without a manager reach. */
  function FromUnmanaged(nodes: Members, members: seq<Member>): set<Id>
    requires IsClosed(ForestOf(nodes, members))
  {
    Reach(ForestOf(nodes, members), Known(RootsOf(nodes, members)), {})
  }

  function Rescued(nodes: Members, members: seq<Member>): seq<Id>
    requires IsClosed(ForestOf(nodes, members))
  {
    Rescue(ForestOf(nodes, members), Order(members), FromUnmanaged(nodes, members)).0
  }

  /** The roots before they are sorted: members without a manager, then whom those do not reach. */
  function AllRoots(nodes: Members, members: seq<Member>): seq<Root>
    requires IsClosed(ForestOf(nodes, members))
  {
    RootsOf(nodes, members) + AsRoots(nodes, Rescued(nodes, members))
  }

  lemma AllRootsAreKnown(nodes: Members, members: seq<Member>)
    requires nodes == ById(members) && IsClosed(ForestOf(nodes, members))
    ensures RootsAre(AllRoots(nodes, members), nodes.Keys)
  {
    var forest, placed, order := ForestOf(nodes, members), RootsOf(nodes, members), Order(members);
    KnownRoots(placed, nodes, members);
    OrderHasAll(members);
    forall k | 0 <= k < |Rescued(nodes, members)|
      ensures Rescued(nodes, members)[k] in nodes
    {
      RescuedApart(forest, order, Reach(forest, Known(placed), {}), k);
    }
  }

  predicate IsRoot(roots: seq<Root>, id: Id) {
    exists k :: 0 <= k < |roots| && roots[k].value == Some(id)
  }

  lemma {:induction false} RecordIsPlaced(nodes: Members, members: seq<Member>, i: nat)
    requires i < |members| && members[i].id.Some?
    ensures !HasManager(nodes, members[i]) ==> IsRoot(RootsOf(nodes, members), members[i].id.value)
    ensures HasManager(nodes, members[i]) ==>
              exists k :: 0 <= k < |Reports(nodes, members, members[i].manager.value)|
                          && Reports(nodes, members, members[i].manager.value)[k].value == members[i].id.value
  {
    var n := |members| - 1;
    var id, before, now := members[i].id.value, RootsOf(nodes, members[..n]), RootsOf(nodes, members);
    if i < n {
      assert members[..n][i] == members[i];
      RecordIsPlaced(nodes, members[..n], i);
      if HasManager(nodes, members[i]) {
        var m := members[i].manager.value;
        var k :| 0 <= k < |Reports(nodes, members[..n], m)| && Reports(nodes, members[..n], m)[k].value == id;
        assert Reports(nodes, members, m)[k].value == id;
      } else {
        var k :| 0 <= k < |before| && before[k].value == Some(id);
        assert now[k].value == Some(id);
      }
    } else if HasManager(nodes, members[i]) {
      var list := Reports(nodes, members, members[i].manager.value);
      assert list[|list| - 1].value == id;
    } else {
      assert now[|now| - 1].value == Some(id);
    }
  }

  /** Everybody has a place: among the roots, or under a manager. */
  lemma EverybodyIsPlaced(nodes: Members, members: seq<Member>, id: Id)
    requires nodes == ById(members) && id in nodes
    ensures !HasManager(nodes, nodes[id]) ==> IsRoot(RootsOf(nodes, members), id)
    ensures HasManager(nodes, nodes[id]) ==> IsReport(ForestOf(nodes, members), nodes[id].manager.value, id)
  {
    ByIdHasAll(members);
    var i :| 0 <= i < |members| && members[i] == nodes[id];
    RecordIsPlaced(nodes, members, i);
  }

  lemma RootIsReached(forest: Forest, roots: seq<Root>, id: Id)
    requires IsClosed(forest) && id in forest && IsRoot(roots, id)
    ensures id in Reach(forest, Known(roots), {})
  {
    var j :| 0 <= j < |roots| && roots[j].value == Some(id);
    var k := KnownHolds(roots, j);
    ReachIsUnion(forest, Known(roots), {}, id);
    assert id in ReachOne(forest, Known(roots)[k].value, {});
  }

  lemma {:induction false} KnownIsRoot(roots: seq<Root>, k: nat)
    requires k < |Known(roots)|
    ensures IsRoot(roots, Known(roots)[k].value)
  {
    var n := |roots| - 1;
    if k < |Known(roots[..n])| {
      KnownIsRoot(roots[..n], k);
      var j :| 0 <= j < n && roots[..n][j].value == Some(Known(roots)[k].value);
      assert roots[j].value == Some(Known(roots)[k].value);
    } else {
      assert roots[n].value == Some(Known(roots)[k].value);
    }
  }

  lemma RootOfAll(nodes: Members, members: seq<Member>, id: Id)
    requires IsClosed(ForestOf(nodes, members))
    ensures IsRoot(AllRoots(nodes, members), id) <==>
            IsRoot(RootsOf(nodes, members), id)
            || exists k :: 0 <= k < |Rescued(nodes, members)| && Rescued(nodes, members)[k] == id
  {
    var placed, rescued, all := RootsOf(nodes, members), Rescued(nodes, members), AllRoots(nodes, members);
    if j :| 0 <= j < |placed| && placed[j].value == Some(id) {
      assert all[j].value == Some(id);
    }
    if k :| 0 <= k < |rescued| && rescued[k] == id {
      assert all[|placed| + k].value == Some(id);
    }
    if j :| 0 <= j < |all| && all[j].value == Some(id) {
      assert if j < |placed| then placed[j].value == Some(id) else rescued[j - |placed|] == id;
    }
  }

  /** Every member is reached from some root. */
  lemma SomeRootReaches(nodes: Members, members: seq<Member>, id: Id) returns (root: Id)
    requires nodes == ById(members) && IsClosed(ForestOf(nodes, members)) && id in nodes
    ensures root in nodes && IsRoot(AllRoots(nodes, members), root)
    ensures id in ReachOne(ForestOf(nodes, members), root, {})
  {
    var forest, order, start := ForestOf(nodes, members), Order(members), FromUnmanaged(nodes, members);
    OrderHasAll(members);
    RescueReachesAll(forest, order, start);
    RescuedReach(forest, order, start, id);
    if id in start {
      root := UnmanagedRootReaches(nodes, members, id);
    } else {
      var rescued := Rescued(nodes, members);
      var k :| 0 <= k < |rescued| && id in ReachOne(forest, rescued[k], {});
      root := rescued[k];
    }
    RootOfAll(nodes, members, root);
  }

  lemma UnmanagedRootReaches(nodes: Members, members: seq<Member>, id: Id) returns (root: Id)
    requires IsClosed(ForestOf(nodes, members)) && id in FromUnmanaged(nodes, members)
    ensures IsRoot(RootsOf(nodes, members), root) && id in ReachOne(ForestOf(nodes, members), root, {})
  {
    var forest, known := ForestOf(nodes, members), Known(RootsOf(nodes, members));
    ReachIsUnion(forest, known, {}, id);
    var k :| 0 <= k < |known| && id in ReachOne(forest, known[k].value, {});
    root := known[k].value;
    KnownIsRoot(RootsOf(nodes, members), k);
  }

  /** Where nobody reports to themselves, the members without a manager reach everybody. */
  lemma NobodyIsRescued(nodes: Members, members: seq<Member>)
    requires nodes == ById(members) && IsClosed(ForestOf(nodes, members)) && !HasLoop(ForestOf(nodes, members))
    ensures Rescued(nodes, members) == [] && AllRoots(nodes, members) == RootsOf(nodes, members)
  {
    var forest, rescued := ForestOf(nodes, members), Rescued(nodes, members);
    if rescued != [] {
      var last := |rescued| - 1;
      var id := rescued[last];
      OrderHasAll(members);
      RescuedApart(forest, Order(members), FromUnmanaged(nodes, members), last);
      EverybodyIsPlaced(nodes, members, id);
      if !HasManager(nodes, nodes[id]) {
        RootIsReached(forest, RootsOf(nodes, members), id);
      } else {
        RescuedManager(nodes, members, nodes[id].manager.value, id);
      }
    }
  }

  /** The manager of the last member that is rescued is reached from nobody but that member. */
  lemma RescuedManager(nodes: Members, members: seq<Member>, manager: Id, id: Id)
    requires nodes == ById(members) && IsClosed(ForestOf(nodes, members))
    requires IsReport(ForestOf(nodes, members), manager, id)
    requires Rescued(nodes, members) != [] && Rescued(nodes, members)[|Rescued(nodes, members)| - 1] == id
    ensures IsBelowThemselves(ForestOf(nodes, members), id)
  {
    OrderHasAll(members);
    StartIsClosed(nodes, members);
    RescueReachesAll(ForestOf(nodes, members), Order(members), FromUnmanaged(nodes, members));
    LastRescued(ForestOf(nodes, members), Order(members), FromUnmanaged(nodes, members), manager, id);
  }

  lemma UniqueHaveOneManager(nodes: Members, members: seq<Member>)
    requires nodes == ById(members) && AreUnique(members)
    ensures OneManager(ForestOf(nodes, members))
    ensures forall a: Id, id: Id :: IsReport(ForestOf(nodes, members), a, id) ==> nodes[id].manager == Some(a)
  {
    var forest := ForestOf(nodes, members);
    AllKeepTheirRecord(nodes, members);
    forall a: Id, id: Id | IsReport(forest, a, id)
      ensures nodes[id].manager == Some(a)
    {
      ReportsAreNodes(nodes, members, a);
    }
  }

  /** Nobody comes back to this root, nor to anybody below it, and every list there is sorted. */
  ghost predicate RootSettles(forest: Forest, root: Root)
    requires IsClosed(forest)
  {
    root.value.Some? ==> root.value.value in forest && IsSettled(forest, root.value.value, {root.value.value})
  }

  ghost predicate RootsSettle(forest: Forest, roots: seq<Root>)
    requires IsClosed(forest)
  {
    forall i :: 0 <= i < |roots| ==> RootSettles(forest, roots[i])
  }

  lemma RootsStaySettled(before: Forest, after: Forest, roots: seq<Root>, i: nat)
    requires IsClosed(before) && IsClosed(after) && Shrinks(before, after) && i < |roots|
    requires RootsSettle(before, roots[..i]) && RootSettles(after, roots[i])
    ensures RootsSettle(after, roots[..i + 1])
  {
    forall j | 0 <= j < i
      ensures RootSettles(after, roots[j])
    {
      assert roots[..i][j] == roots[j];
      if roots[j].value.Some? {
        ShrinkingStaysSettled(before, after, roots[j].value.value, {roots[j].value.value});
      }
    }
  }

  lemma {:induction false} RootsHaveNoManager(nodes: Members, members: seq<Member>, j: nat)
    requires forall i :: 0 <= i < |members| && members[i].id.Some? ==>
                           members[i].id.value in nodes && nodes[members[i].id.value] == members[i]
    requires j < |RootsOf(nodes, members)| && RootsOf(nodes, members)[j].value.Some?
    ensures
      var id := RootsOf(nodes, members)[j].value.value;
      id in nodes && !HasManager(nodes, nodes[id])
  {
    var n := |members| - 1;
    if j < |RootsOf(nodes, members[..n])| {
      RootsHaveNoManager(nodes, members[..n], j);
    }
  }

  // ---------------------------------------------------------------- the roots, by the members alone

  /** A member without a manager, or whose manager is not there. */
  predicate IsUnmanaged(nodes: Members, members: seq<Member>, id: Id) {
    exists i :: 0 <= i < |members| && members[i].id == Some(id) && !HasManager(nodes, members[i])
  }

  lemma {:induction false} UnmanagedIffRoot(nodes: Members, members: seq<Member>, id: Id)
    ensures IsRoot(RootsOf(nodes, members), id) <==> IsUnmanaged(nodes, members, id)
  {
    if i :| 0 <= i < |members| && members[i].id == Some(id) && !HasManager(nodes, members[i]) {
      RecordIsPlaced(nodes, members, i);
    }
    if IsRoot(RootsOf(nodes, members), id) {
      RootIsUnmanaged(nodes, members, id);
    }
  }

  lemma {:induction false} RootIsUnmanaged(nodes: Members, members: seq<Member>, id: Id)
    requires IsRoot(RootsOf(nodes, members), id)
    ensures IsUnmanaged(nodes, members, id)
  {
    var n := |members| - 1;
    var k :| 0 <= k < |RootsOf(nodes, members)| && RootsOf(nodes, members)[k].value == Some(id);
    if k < |RootsOf(nodes, members[..n])| {
      assert RootsOf(nodes, members[..n])[k].value == Some(id);
      RootIsUnmanaged(nodes, members[..n], id);
      var i :| 0 <= i < n && members[..n][i].id == Some(id) && !HasManager(nodes, members[..n][i]);
      assert members[i] == members[..n][i];
    } else {
      assert members[n].id == Some(id);
    }
  }

  /** The place of the first member with this id; behind all of them if there is none. */
  function FirstAt(members: seq<Member>, id: Id): (i: nat)
    ensures i <= |members|
    ensures i < |members| ==> members[i].id == Some(id)
    ensures forall j :: 0 <= j < i ==> members[j].id != Some(id)
  {
    if members == [] then 0
    else
      var n := |members| - 1;
      var i := FirstAt(members[..n], id);
      if i < n then i else if members[n].id == Some(id) then n else |members|
  }

  lemma FirstIsOnlyOnce(members: seq<Member>, a: Id, b: Id)
    requires FirstAt(members, a) == FirstAt(members, b) < |members|
    ensures a == b
  {
  }

  lemma {:induction false} OrderGoesUp(members: seq<Member>)
    ensures forall k :: 0 <= k < |Order(members)| ==> FirstAt(members, Order(members)[k]) < |members|
    ensures forall j, k :: 0 <= j < k < |Order(members)| ==>
                             FirstAt(members, Order(members)[j]) < FirstAt(members, Order(members)[k])
    ensures forall id :: FirstAt(members, id) < |members| ==> id in Order(members)
  {
    if members != [] {
      var n := |members| - 1;
      OrderGoesUp(members[..n]);
      forall id | FirstAt(members, id) < |members|
        ensures id in Order(members)
      {
        if FirstAt(members[..n], id) < n {
          assert id in Order(members[..n]);
        }
      }
    }
  }

  /**
   Who becomes a root: the unmanaged, and whoever is reached neither from these nor from
   any member that comes before.
   */
  ghost predicate BecomesRoot(nodes: Members, members: seq<Member>, id: Id)
    requires IsClosed(ForestOf(nodes, members))
  {
    IsUnmanaged(nodes, members, id) || (id in nodes && NobodyBeforeReaches(nodes, members, id))
  }

  ghost predicate NobodyBeforeReaches(nodes: Members, members: seq<Member>, id: Id)
    requires IsClosed(ForestOf(nodes, members))
  {
    && !UnmanagedReaches(nodes, members, id)
    && !EarlierReaches(ForestOf(nodes, members), members, id)
  }

  ghost predicate UnmanagedReaches(nodes: Members, members: seq<Member>, id: Id)
    requires IsClosed(ForestOf(nodes, members))
  {
    exists u: Id :: IsUnmanaged(nodes, members, u) && id in ReachOne(ForestOf(nodes, members), u, {})
  }

  ghost predicate EarlierReaches(forest: Forest, members: seq<Member>, id: Id)
    requires IsClosed(forest)
  {
    exists a: Id :: FirstAt(members, a) < FirstAt(members, id) && id in ReachOne(forest, a, {})
  }

  lemma ReachedFromUnmanaged(nodes: Members, members: seq<Member>, x: Id)
    requires IsClosed(ForestOf(nodes, members))
    ensures x in Reach(ForestOf(nodes, members), Known(RootsOf(nodes, members)), {})
       <==> UnmanagedReaches(nodes, members, x)
  {
    var forest, placed := ForestOf(nodes, members), RootsOf(nodes, members);
    ReachIsUnion(forest, Known(placed), {}, x);
    if k :| 0 <= k < |Known(placed)| && x in ReachOne(forest, Known(placed)[k].value, {}) {
      KnownIsRoot(placed, k);
      UnmanagedIffRoot(nodes, members, Known(placed)[k].value);
    }
    if u: Id :| IsUnmanaged(nodes, members, u) && x in ReachOne(forest, u, {}) {
      UnmanagedIffRoot(nodes, members, u);
      var j :| 0 <= j < |placed| && placed[j].value == Some(u);
      var k := KnownHolds(placed, j);
    }
  }

  lemma StartIsClosed(nodes: Members, members: seq<Member>)
    requires IsClosed(ForestOf(nodes, members))
    ensures HoldsAllBelow(ForestOf(nodes, members), Reach(ForestOf(nodes, members), Known(RootsOf(nodes, members)), {}))
  {
    var forest := ForestOf(nodes, members);
    var start := Reach(forest, Known(RootsOf(nodes, members)), {});
    forall a: Id, x: Id | a in start && x in ReachOne(forest, a, {})
      ensures x in start
    {
      ReachedFromUnmanaged(nodes, members, a);
      var u: Id :| IsUnmanaged(nodes, members, u) && a in ReachOne(forest, u, {});
      ReachesOn(forest, u, a, x);
      ReachedFromUnmanaged(nodes, members, x);
    }
  }

  lemma RescuedIffNobodyBefore(nodes: Members, members: seq<Member>, k: nat)
    requires nodes == ById(members) && IsClosed(ForestOf(nodes, members)) && k < |Order(members)|
    ensures Order(members)[k] in Rescued(nodes, members) <==> NobodyBeforeReaches(nodes, members, Order(members)[k])
  {
    OrderGoesUp(members);
    RescuedIffUnreached(ForestOf(nodes, members), Order(members), FromUnmanaged(nodes, members), k);
    ReachedInTurn(nodes, members, k);
  }

  lemma ReachedInTurn(nodes: Members, members: seq<Member>, k: nat)
    requires IsClosed(ForestOf(nodes, members)) && k < |Order(members)|
    ensures
      var forest, id := ForestOf(nodes, members), Order(members)[k];
      id in Rescue(forest, Order(members)[..k], FromUnmanaged(nodes, members)).1
      <==> UnmanagedReaches(nodes, members, id) || EarlierReaches(forest, members, id)
  {
    var forest, before, id := ForestOf(nodes, members), Order(members)[..k], Order(members)[k];
    StartIsClosed(nodes, members);
    RescueReaches(forest, before, FromUnmanaged(nodes, members), id);
    ReachedFromUnmanaged(nodes, members, id);
    ReachedFromBefore(forest, members, k);
  }

  lemma ReachedFromBefore(forest: Forest, members: seq<Member>, k: nat)
    requires IsClosed(forest) && k < |Order(members)|
    ensures
      var before, id := Order(members)[..k], Order(members)[k];
      (exists j :: 0 <= j < |before| && id in ReachOne(forest, before[j], {})) <==> EarlierReaches(forest, members, id)
  {
    var before, id := Order(members)[..k], Order(members)[k];
    BeforeInOrder(members, k);
    if a: Id :| FirstAt(members, a) < FirstAt(members, id) && id in ReachOne(forest, a, {}) {
      assert a in before;
      var j :| 0 <= j < |before| && before[j] == a;
    }
    if j :| 0 <= j < |before| && id in ReachOne(forest, before[j], {}) {
      assert before[j] in before;
    }
  }

  lemma BeforeInOrder(members: seq<Member>, k: nat)
    requires k < |Order(members)|
    ensures forall a: Id :: a in Order(members)[..k] <==> FirstAt(members, a) < FirstAt(members, Order(members)[k])
  {
    var order := Order(members);
    OrderGoesUp(members);
    forall a: Id | FirstAt(members, a) < FirstAt(members, order[k])
      ensures a in order[..k]
    {
      assert a in order;
      var j :| 0 <= j < |order| && order[j] == a;
      assert order[..k][j] == a;
    }
  }

  /** The roots, by the members alone. */
  lemma RootIffNobodyBefore(nodes: Members, members: seq<Member>, id: Id)
    requires nodes == ById(members) && IsClosed(ForestOf(nodes, members)) && id in nodes
    ensures IsRoot(AllRoots(nodes, members), id) <==> BecomesRoot(nodes, members, id)
  {
    OrderHasAll(members);
    var k :| 0 <= k < |Order(members)| && Order(members)[k] == id;
    RescuedIffNobodyBefore(nodes, members, k);
    RootOfAll(nodes, members, id);
    UnmanagedIffRoot(nodes, members, id);
  }
}
