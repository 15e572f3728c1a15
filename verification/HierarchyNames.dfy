/**
 The names in a built hierarchy: every list is in the order of the members' full names,
 because those are the keys it is sorted by, and members without an id are all among
 the roots.
 */
module HierarchyNames {
  import opened Options
  import opened KeyOrder
  import opened Forests
  import opened Hierarchy
  import opened HierarchyLoops

  // ---------------------------------------------------------------- keys

  predicate IsNamed(nodes: Members, n: Node) {
    n.value in nodes && n.key == nodes[n.value].fullName
  }

  predicate AllNamed(nodes: Members, list: seq<Node>) {
    forall k :: 0 <= k < |list| ==> IsNamed(nodes, list[k])
  }

  /** Every report stands under its member's full name. */
  predicate IsForestNamed(nodes: Members, forest: Forest) {
    forall id :: id in forest ==> AllNamed(nodes, forest[id])
  }

  predicate IsRootNamed(nodes: Members, r: Root) {
    r.value.Some? ==> r.value.value in nodes && r.key == nodes[r.value.value].fullName
  }

  /** So does every root that has an id. */
  predicate AreRootsNamed(nodes: Members, roots: seq<Root>) {
    forall k :: 0 <= k < |roots| ==> IsRootNamed(nodes, roots[k])
  }

  lemma {:induction false} ReportsAreNamed(nodes: Members, members: seq<Member>, manager: Id)
    requires forall i :: 0 <= i < |members| && members[i].id.Some? ==> members[i].id.value in nodes
    ensures AllNamed(nodes, Reports(nodes, members, manager))
  {
    if members != [] {
      ReportsAreNamed(nodes, members[..|members| - 1], manager);
    }
  }

  lemma {:induction false} RootsOfAreNamed(nodes: Members, members: seq<Member>)
    requires forall i :: 0 <= i < |members| && members[i].id.Some? ==> members[i].id.value in nodes
    ensures AreRootsNamed(nodes, RootsOf(nodes, members))
  {
    if members != [] {
      RootsOfAreNamed(nodes, members[..|members| - 1]);
    }
  }

  lemma SettlingKeepsNames(nodes: Members, before: seq<Node>, after: seq<Node>)
    requires AllNamed(nodes, before) && Settles(before, after)
    ensures AllNamed(nodes, after)
  {
    forall k | 0 <= k < |after|
      ensures IsNamed(nodes, after[k])
    {
      SortMember(before, after[k]);
      var j :| 0 <= j < |before| && before[j] == after[k];
    }
  }

  lemma SortingKeepsRootNames(nodes: Members, roots: seq<Root>)
    requires AreRootsNamed(nodes, roots)
    ensures AreRootsNamed(nodes, Sort(roots))
  {
    forall k | 0 <= k < |Sort(roots)|
      ensures IsRootNamed(nodes, Sort(roots)[k])
    {
      SortMember(roots, Sort(roots)[k]);
      var j :| 0 <= j < |roots| && roots[j] == Sort(roots)[k];
    }
  }

  /** In a built hierarchy everybody stands under their full name. */
  lemma BuiltIsNamed(nodes: Members, members: seq<Member>, children: Forest, roots: seq<Root>)
    requires nodes == ById(members) && IsClosed(ForestOf(nodes, members))
    requires IsBuilt(nodes, members, children, roots)
    ensures IsForestNamed(nodes, children) && AreRootsNamed(nodes, roots)
  {
    ByIdHasAll(members);
    forall id | id in children
      ensures AllNamed(nodes, children[id])
    {
      ReportsAreNamed(nodes, members, id);
      SettlingKeepsNames(nodes, ForestOf(nodes, members)[id], children[id]);
    }
    RootsOfAreNamed(nodes, members);
    AllRootsAreKnown(nodes, members);
    SortingKeepsRootNames(nodes, AllRoots(nodes, members));
  }

  // ---------------------------------------------------------------- members without an id

  /** How many members have this name and no id. */
  function Unidentified(members: seq<Member>, name: string): nat {
    if members == [] then 0
    else
      var n := |members| - 1;
      Unidentified(members[..n], name) + if members[n].id.None? && members[n].fullName == name then 1 else 0
  }

  lemma {:induction false} RootsOfHoldUnidentified(nodes: Members, members: seq<Member>, name: string)
    ensures multiset(RootsOf(nodes, members))[Keyed(name, None)] == Unidentified(members, name)
  {
    if members != [] {
      RootsOfHoldUnidentified(nodes, members[..|members| - 1], name);
    }
  }

  lemma NoRescuedIsUnidentified(nodes: Members, ids: seq<Id>, name: string)
    ensures multiset(AsRoots(nodes, ids))[Keyed(name, None)] == 0
  {
    assert Keyed(name, None) !in AsRoots(nodes, ids);
  }

  /** Each member without an id is a root, once. */
  lemma UnidentifiedAreRoots(
    nodes: Members, members: seq<Member>, children: Forest, roots: seq<Root>, name: string)
    requires nodes == ById(members) && IsClosed(ForestOf(nodes, members))
    requires IsBuilt(nodes, members, children, roots)
    ensures multiset(roots)[Keyed(name, None)] == Unidentified(members, name)
  {
    SortSorts(AllRoots(nodes, members));
    RootsOfHoldUnidentified(nodes, members, name);
    NoRescuedIsUnidentified(nodes, Rescued(nodes, members), name);
  }

  lemma AllUnidentifiedAreRoots(nodes: Members, members: seq<Member>, children: Forest, roots: seq<Root>)
    requires nodes == ById(members) && IsClosed(ForestOf(nodes, members))
    requires IsBuilt(nodes, members, children, roots)
    ensures forall name :: multiset(roots)[Keyed(name, None)] == Unidentified(members, name)
  {
    forall name
      ensures multiset(roots)[Keyed(name, None)] == Unidentified(members, name)
    {
      UnidentifiedAreRoots(nodes, members, children, roots, name);
    }
  }
}
