/**
 Building the hierarchy in place: members are linked to their managers, who is not reached
 is added to the roots, and every list is sorted, on which way a member met below itself
 loses its reports.
 */
module HierarchyBuild {
  import opened Options
  import opened KeyOrder
  import opened Sequences
  import opened Forests
  import opened Hierarchy
  import opened HierarchyLoops
  import opened HierarchyNames

  class HierarchyBuilder {
    const members: seq<Member>
    const nodes: Members
    var children: Forest
    var roots: seq<Root>
    var reachable: set<Id>

    constructor (members: seq<Member>)
      ensures this.members == members && nodes == ById(members)
      ensures children == ForestOf(nodes, []) && roots == [] && reachable == {}
    {
      this.members := members;
      nodes := ById(members);
      children := map id | id in ById(members) :: [];
      roots, reachable := [], {};
    }

    ghost predicate Valid()
      reads this
    {
      && nodes == ById(members) && children.Keys == nodes.Keys && IsClosed(children)
    }

    /** Puts every member under its manager, or among the roots. */
    method Link()
      requires nodes == ById(members) && roots == [] && children == ForestOf(nodes, [])
      modifies this`children, this`roots
      ensures children == ForestOf(nodes, members) && roots == RootsOf(nodes, members)
      ensures Valid()
    {
      for i := 0 to |members|
        invariant children == ForestOf(nodes, members[..i]) && roots == RootsOf(nodes, members[..i])
      {
        var m := members[i];
        LinkStep(nodes, members, i);
        if m.id.None? {
          roots := roots + [Keyed(m.fullName, None)];
        } else if m.manager.None? || m.manager.value !in nodes {
          roots := roots + [RootOf(nodes, m.id.value)];
        } else {
          children := children[m.manager.value := children[m.manager.value] + [NodeOf(nodes, m.id.value)]];
        }
      }
      assert members[..|members|] == members;
      ForestIsClosed(nodes, members);
    }

    method MarkReachable(list: seq<Node>, path: set<Id>)
      requires Valid() && forall i :: 0 <= i < |list| ==> list[i].value in children
      modifies this`reachable
      ensures reachable == old(reachable) + Reach(children, list, path)
      decreases |children.Keys - path|, |list| + 1
    {
      for i := 0 to |list|
        invariant reachable == old(reachable) + Reach(children, list[..i], path)
      {
        Prefix(list, i);
        MarkNode(list[i].value, path);
      }
      assert list[..|list|] == list;
    }

    /** A node on the path is passed over; any other is marked with all below it. */
    method MarkNode(id: Id, path: set<Id>)
      requires Valid() && id in children
      modifies this`reachable
      ensures reachable == old(reachable) + ReachOne(children, id, path)
      decreases |children.Keys - path|, 0
    {
      if id !in path {
        OneLess(children, path, id);
        reachable := reachable + {id};
        MarkReachable(children[id], path + {id});
      }
    }

    /** What no root reaches becomes a root, in the order of the members. */
    method AddUnreached()
      requires Valid() && reachable == Reach(children, Known(roots), {})
      modifies this`roots, this`reachable
      ensures roots == old(roots) + AsRoots(nodes, Rescue(children, Order(members), old(reachable)).0)
    {
      var order := Order(members);
      OrderHasAll(members);
      for i := 0 to |order|
        invariant roots == old(roots) + AsRoots(nodes, Rescue(children, order[..i], old(reachable)).0)
        invariant reachable == Rescue(children, order[..i], old(reachable)).1
      {
        RescueStep(children, nodes, order, i, old(reachable));
        ghost var before := AsRoots(nodes, Rescue(children, order[..i], old(reachable)).0);
        Associate(old(roots), before, if order[i] in reachable then [] else [RootOf(nodes, order[i])]);
        AddIfUnreached(order[i]);
      }
      assert order[..|order|] == order;
    }

    method AddIfUnreached(id: Id)
      requires Valid() && id in children
      modifies this`roots, this`reachable
      ensures roots == old(roots) + if id in old(reachable) then [] else [RootOf(nodes, id)]
      ensures reachable == old(reachable) + if id in old(reachable) then {} else ReachOne(children, id, {})
    {
      if id !in reachable {
        roots := roots + [RootOf(nodes, id)];
        MarkReachable([NodeOf(nodes, id)], {});
        ReachOfOne(children, NodeOf(nodes, id), {});
      }
    }

    /**
     Sorts the reports of `id` and everything below them. The list is walked as it was
     when the walk began.
     */
    method SortChildren(id: Id, path: set<Id>, ghost forest: Forest, ghost way: seq<Id>, ghost tops: set<Id>)
      requires Valid() && IsClosed(forest) && LosesRightly(forest, children, tops) && id in children
      requires IsPath(forest, way) && way[0] in tops && way[|way| - 1] == id && path == Elements(way)
      modifies this`children
      ensures Valid() && Shrinks(old(children), children) && IsSettled(children, id, path)
      ensures LosesRightly(forest, children, tops)
      decreases |children.Keys - path|, 1
    {
      var list := Sort(children[id]);
      SortingLosesNobody(forest, children, id, tops);
      ShrinksClosed(children, children[id := list]);
      children := children[id := list];
      ghost var sorted := children;
      for i := 0 to |list|
        invariant Valid() && Shrinks(sorted, children) && LosesRightly(forest, children, tops)
        invariant AreSettled(children, list[..i], path)
      {
        ghost var before := children;
        ReportBefore(forest, sorted, id, i);
        SortChild(list[i].value, path, forest, way, tops);
        OneMoreSettled(before, children, list, i, path);
        ShrinksOn(sorted, before, children);
      }
      ShrinksOn(old(children), sorted, children);
      assert list[..|list|] == list;
      SettledList(old(children[id]), children, id, path, list);
    }

    /** A report found on the path loses its own reports; any other is sorted in turn. */
    method SortChild(child: Id, path: set<Id>, ghost forest: Forest, ghost way: seq<Id>, ghost tops: set<Id>)
      requires Valid() && IsClosed(forest) && LosesRightly(forest, children, tops)
      requires IsPath(forest, way) && way[0] in tops && path == Elements(way)
      requires IsReport(forest, way[|way| - 1], child)
      modifies this`children
      ensures Valid() && Shrinks(old(children), children) && StepIsSettled(children, child, path)
      ensures LosesRightly(forest, children, tops)
      decreases |children.Keys - path|, 0
    {
      if child in path {
        ClearingLosesRightly(forest, children, way, child, tops);
        ShrinksClosed(children, children[child := []]);
        children := children[child := []];
      } else {
        OneLess(children, path, child);
        NextOnPath(forest, way, child);
        SortChildren(child, path + {child}, forest, way + [child], tops);
      }
    }

    /**
     Builds the forest. Whatever the members are, nobody is placed below themselves, every
     list that a root reaches is sorted by full names, members without an id are roots, and
     all reports are kept exactly when nobody reports to themselves. With unique ids
     everybody is then placed once; otherwise exactly the first members of loops lose their
     reports, and exactly those are shown to whom some root leads.
     */
    method BuildTree()
      requires nodes == ById(members) && children == ForestOf(nodes, []) && roots == [] && reachable == {}
      modifies this
      ensures Valid() && IsClosed(ForestOf(nodes, members))
      ensures Sorted(roots) && IsBuilt(nodes, members, children, roots)
      ensures IsForestNamed(nodes, children) && AreRootsNamed(nodes, roots)
      ensures forall name :: multiset(roots)[Keyed(name, None)] == Unidentified(members, name)
      ensures forall id :: id in nodes ==> (IsRoot(roots, id) <==> BecomesRoot(nodes, members, id))
      ensures KeepsAll(ForestOf(nodes, members), children) <==> !HasLoop(ForestOf(nodes, members))
      ensures !HasLoop(ForestOf(nodes, members)) ==> roots == Sort(RootsOf(nodes, members))
      ensures AreUnique(members) && !HasLoop(ForestOf(nodes, members)) ==>
                forall i :: 0 <= i < |members| && members[i].id.Some? ==>
                              members[i].id.value in nodes && IsPlacedOnce(nodes, members[i], children, roots)
      ensures AreUnique(members) ==>
                forall id :: id in nodes ==>
                               (Loses(ForestOf(nodes, members), children, id)
                                <==> IsFirstOfLoop(ForestOf(nodes, members), members, id))
      ensures AreUnique(members) ==>
                forall id :: id in nodes ==> (IsShown(children, roots, id) <==> SomeLeadsTo(nodes, members, id))
      ensures AreUnique(members) ==>
                ((forall id :: id in nodes ==> IsShown(children, roots, id))
                 <==> SelfManagersComeLast(ForestOf(nodes, members), members))
    {
      Build();
      BuiltIsNamed(nodes, members, children, roots);
      AllUnidentifiedAreRoots(nodes, members, children, roots);
      WhatIsBuilt(nodes, members, children, roots);
      if AreUnique(members) {
        BuiltWithLoops(nodes, members, children, roots);
      }
    }

    method Build()
      requires nodes == ById(members) && children == ForestOf(nodes, []) && roots == [] && reachable == {}
      modifies this
      ensures Valid() && IsClosed(ForestOf(nodes, members))
      ensures Sorted(roots) && IsBuilt(nodes, members, children, roots)
    {
      Link();
      KnownRoots(roots, nodes, members);
      MarkReachable(Known(roots), {});
      AddUnreached();
      AllRootsAreKnown(nodes, members);
      SortRoots();
      SortSorts(AllRoots(nodes, members));
    }

    method SortRoots()
      requires Valid() && children == ForestOf(nodes, members) && RootsAre(roots, nodes.Keys)
      modifies this`roots, this`children
      ensures Valid() && roots == Sort(old(roots)) && RootsSettle(children, roots)
      ensures LosesRightly(old(children), children, Tops(roots))
    {
      SortedRootsAreKnown(roots, nodes.Keys);
      roots := Sort(roots);
      ghost var forest := children;
      for i := 0 to |roots|
        invariant Valid() && roots == Sort(old(roots)) && LosesRightly(forest, children, Tops(roots))
        invariant RootsSettle(children, roots[..i])
      {
        ghost var before := children;
        SortRoot(i, forest);
        RootsStaySettled(before, children, roots, i);
      }
      assert roots[..|roots|] == roots;
    }

    method SortRoot(i: nat, ghost forest: Forest)
      requires Valid() && IsClosed(forest) && i < |roots| && RootsAre(roots, nodes.Keys)
      requires LosesRightly(forest, children, Tops(roots))
      modifies this`children
      ensures Valid() && Shrinks(old(children), children) && RootSettles(children, roots[i])
      ensures LosesRightly(forest, children, Tops(roots))
    {
      if roots[i].value.Some? {
        var id := roots[i].value.value;
        SortChildren(id, {id}, forest, [id], Tops(roots));
      }
    }
  }
}
