/**
 The values a request key is made of, as they lie in memory: containers may be
 shared, and may contain themselves. Unfolding copies every shared part out, down
 to a number of levels; what lies on a cycle never unfolds.
 */
module RequestGraph {
  import opened Options
  import opened KeyOrder
  import opened RequestTree
  import opened RequestNormal

  /** A Date is a leaf here; `Foreign` is a bigint, a function or a symbol. */
  datatype Val = Prim(leaf: Leaf) | Foreign | Ref(id: nat)

  /** `Unsupported` is every object that is neither an array nor a plain object without accessors. */
  datatype Node = Container(kind: Kind, entries: seq<Keyed<Val>>) | Unsupported

  type Heap = map<nat, Node>

  function Look(h: Heap, id: nat): Node {
    if id in h then h[id] else Unsupported
  }

  // ---------------------------------------------------------------- the unshared value

  /** The value with every shared part copied out, or nothing if it nests `levels` deep or more. */
  ghost function Unfold(h: Heap, v: Val, levels: nat): Option<Tree>
    decreases levels, 0
  {
    if levels == 0 then None
    else
      match v
      case Prim(l) => Some(Atom(l))
      case Foreign => None
      case Ref(id) =>
        match Look(h, id)
        case Unsupported => None
        case Container(kind, es) =>
          if UnfoldsAll(h, es, levels - 1) then Some(Group(kind, UnfoldAll(h, es, levels - 1))) else None
  }

  ghost predicate UnfoldsAll(h: Heap, es: seq<Keyed<Val>>, levels: nat)
    decreases levels, 1
  {
    forall i :: 0 <= i < |es| ==> Unfold(h, es[i].value, levels).Some?
  }

  ghost function UnfoldAll(h: Heap, es: seq<Keyed<Val>>, levels: nat): seq<Entry>
    requires UnfoldsAll(h, es, levels)
    decreases levels, 2
  {
    seq(|es|, i requires 0 <= i < |es| => Keyed(es[i].key, Unfold(h, es[i].value, levels).value))
  }

  /** The entries in the order in which the key spells them. */
  function Arranged(keep: bool, node: Node): seq<Keyed<Val>>
    requires node.Container?
  {
    Arrange(keep, node.kind, node.entries)
  }

  /** The unshared value with its entries in the order of its key. */
  ghost function View(keep: bool, h: Heap, v: Val, levels: nat): Option<Tree>
    decreases levels, 0
  {
    if levels == 0 then None
    else
      match v
      case Prim(l) => Some(Atom(l))
      case Foreign => None
      case Ref(id) =>
        var node := Look(h, id);
        if node.Container? && ViewsAll(keep, h, Arranged(keep, node), levels - 1)
        then Some(Group(node.kind, ViewAll(keep, h, Arranged(keep, node), levels - 1)))
        else None
  }

  ghost predicate ViewsAll(keep: bool, h: Heap, es: seq<Keyed<Val>>, levels: nat)
    decreases levels, 1
  {
    forall i :: 0 <= i < |es| ==> View(keep, h, es[i].value, levels).Some?
  }

  ghost function ViewAll(keep: bool, h: Heap, es: seq<Keyed<Val>>, levels: nat): seq<Entry>
    requires ViewsAll(keep, h, es, levels)
    decreases levels, 2
  {
    seq(|es|, i requires 0 <= i < |es| => Keyed(es[i].key, View(keep, h, es[i].value, levels).value))
  }

  /** The view of a value is its unfolding in normal order. */
  ghost predicate ViewsNormal(keep: bool, h: Heap, v: Val, levels: nat) {
    View(keep, h, v, levels)
    == match Unfold(h, v, levels)
       case None => None
       case Some(t) => Some(Normal(keep, t))
  }

  /** Walking the entries in key order reads the unfolded value in its normal order. */
  lemma {:induction false} ViewIsNormalUnfolding(keep: bool, h: Heap, v: Val, levels: nat)
    ensures ViewsNormal(keep, h, v, levels)
    decreases levels
  {
    if levels > 0 && v.Ref? && Look(h, v.id).Container? {
      var node := Look(h, v.id);
      var es, arranged := node.entries, Arranged(keep, node);
      forall i | 0 <= i < |es|
        ensures ViewsNormal(keep, h, es[i].value, levels - 1)
      {
        ViewIsNormalUnfolding(keep, h, es[i].value, levels - 1);
      }
      if UnfoldsAll(h, es, levels - 1) {
        ArrangedViews(keep, h, node, levels - 1);
      } else {
        var i :| 0 <= i < |es| && Unfold(h, es[i].value, levels - 1).None?;
        var j := IndexInArranged(keep, node, i);
      }
    }
  }

  lemma IndexInArranged(keep: bool, node: Node, i: nat) returns (j: nat)
    requires node.Container? && i < |node.entries|
    ensures j < |Arranged(keep, node)| && Arranged(keep, node)[j] == node.entries[i]
  {
    if keep || node.kind.Array? {
      j := i;
    } else {
      j := IntoSorted(node.entries, i);
    }
  }

  lemma ArrangedViews(keep: bool, h: Heap, node: Node, levels: nat)
    requires node.Container? && UnfoldsAll(h, node.entries, levels)
    requires forall i :: 0 <= i < |node.entries| ==> ViewsNormal(keep, h, node.entries[i].value, levels)
    ensures ViewsAll(keep, h, Arranged(keep, node), levels)
    ensures ViewAll(keep, h, Arranged(keep, node), levels)
         == Arrange(keep, node.kind, NormalAll(keep, UnfoldAll(h, node.entries, levels)))
  {
    var ns := NormalAll(keep, UnfoldAll(h, node.entries, levels));
    var r := (val: Val, t: Tree) => View(keep, h, val, levels) == Some(t);
    assert Related(r, node.entries, ns);
    if !keep && !node.kind.Array? {
      SortRelated(r, node.entries, ns);
    }
    assert Related(r, Arranged(keep, node), Arrange(keep, node.kind, ns));
  }

  // ---------------------------------------------------------------- sizes

  function Max(a: nat, b: nat): nat {
    if a < b then b else a
  }

  /** How many containers nest below a value; an empty container nests none. */
  function Height(t: Tree): nat
    decreases t, 1
  {
    match t
    case Atom(_) => 0
    case Group(_, es) => HeightAll(es)
  }

  function HeightAll(es: seq<Entry>): nat
    decreases es, 0
  {
    if es == [] then 0 else var n := |es| - 1; Max(HeightAll(es[..n]), Height(es[n].value) + 1)
  }

  function Nodes(t: Tree): (n: nat)
    ensures n >= 1
    decreases t, 1
  {
    match t
    case Atom(_) => 1
    case Group(_, es) => 1 + NodesAll(es)
  }

  function NodesAll(es: seq<Entry>): (n: nat)
    ensures n >= |es|
    decreases es, 0
  {
    if es == [] then 0 else var n := |es| - 1; NodesAll(es[..n]) + Nodes(es[n].value)
  }

  lemma {:induction false} HeightAllBounds(es: seq<Entry>)
    ensures forall i :: 0 <= i < |es| ==> Height(es[i].value) + 1 <= HeightAll(es)
    ensures es == [] || exists i :: 0 <= i < |es| && Height(es[i].value) + 1 == HeightAll(es)
  {
    if es != [] {
      var n := |es| - 1;
      HeightAllBounds(es[..n]);
      if HeightAll(es[..n]) > Height(es[n].value) + 1 {
        var i :| 0 <= i < n && Height(es[..n][i].value) + 1 == HeightAll(es[..n]);
        assert es[i] == es[..n][i];
      } else {
        assert Height(es[n].value) + 1 == HeightAll(es);
      }
    }
  }

  /** The text of a group is at least what precedes entry `i`, that entry, and the closing bracket. */
  lemma {:induction false} JoinGrows(parts: seq<string>, i: nat)
    requires i < |parts|
    ensures |Join(parts[..i])| + (if i > 0 then 1 else 0) + |parts[i]| <= |Join(parts)|
  {
    var n := |parts| - 1;
    if i < n {
      JoinGrows(parts[..n], i);
      assert parts[..n][..i] == parts[..i];
    }
  }

  /** Every entry costs its key, five characters at least, and a comma when it is not the first. */
  lemma {:induction false} JoinOfObjectIsLong(es: seq<Entry>, weight: Entry -> nat)
    requires forall e: Entry :: weight(e) == |e.key|
    ensures |Join(Parts(Object, es))| + 1 >= Sum(weight, es) + 6 * |es|
  {
    if es != [] {
      var n := |es| - 1;
      JoinOfObjectIsLong(es[..n], weight);
      assert Parts(Object, es)[..n] == Parts(Object, es[..n]);
    }
  }

  lemma {:induction false} NodesAllIsSum(es: seq<Entry>, weight: Entry -> nat)
    requires forall e: Entry :: weight(e) == Nodes(e.value)
    ensures NodesAll(es) == Sum(weight, es)
  {
    if es != [] {
      NodesAllIsSum(es[..|es| - 1], weight);
    }
  }

  lemma {:induction false} EqualNodes(es: seq<Entry>, fs: seq<Entry>)
    requires |es| == |fs| && forall i :: 0 <= i < |es| ==> Nodes(es[i].value) == Nodes(fs[i].value)
    ensures NodesAll(es) == NodesAll(fs)
  {
    if es != [] {
      EqualNodes(es[..|es| - 1], fs[..|fs| - 1]);
    }
  }

  /** Sorting the entries of a value does not change how many nodes it has. */
  lemma {:induction false} NormalKeepsNodes(keep: bool, t: Tree)
    ensures Nodes(Normal(keep, t)) == Nodes(t)
    decreases t
  {
    match t
    case Atom(_) =>
    case Group(kind, es) =>
      var ns := NormalAll(keep, es);
      forall i | 0 <= i < |es|
        ensures Nodes(ns[i].value) == Nodes(es[i].value)
      {
        NormalKeepsNodes(keep, es[i].value);
      }
      EqualNodes(ns, es);
      var weight := (e: Entry) => Nodes(e.value);
      NodesAllIsSum(ns, weight);
      NodesAllIsSum(Sort(ns), weight);
      SortKeepsSum(weight, ns);
  }

  // ---------------------------------------------------------------- depth and cycles

  /** The views of a container's entries. */
  lemma ContainerView(keep: bool, h: Heap, id: nat, levels: nat) returns (es: seq<Keyed<Val>>, ts: seq<Entry>)
    requires View(keep, h, Ref(id), levels).Some?
    ensures levels > 0 && Look(h, id).Container? && es == Arranged(keep, Look(h, id))
    ensures ViewsAll(keep, h, es, levels - 1) && ts == ViewAll(keep, h, es, levels - 1)
    ensures View(keep, h, Ref(id), levels).value == Group(Look(h, id).kind, ts)
  {
    es := Arranged(keep, Look(h, id));
    ts := ViewAll(keep, h, es, levels - 1);
  }

  /** A view nests fewer levels than it was allowed. */
  lemma {:induction false} ViewIsShallow(keep: bool, h: Heap, v: Val, levels: nat)
    requires View(keep, h, v, levels).Some?
    ensures Height(View(keep, h, v, levels).value) < levels
    decreases levels
  {
    if v.Ref? {
      var es, ts := ContainerView(keep, h, v.id, levels);
      HeightAllBounds(ts);
      forall i | 0 <= i < |ts|
        ensures Height(ts[i].value) < levels - 1
      {
        ViewIsShallow(keep, h, es[i].value, levels - 1);
      }
    }
  }

  /** A view is there, and the same, whenever its height allows. */
  lemma {:induction false} ViewIsStable(keep: bool, h: Heap, v: Val, levels: nat, other: nat)
    requires View(keep, h, v, levels).Some?
    requires other > Height(View(keep, h, v, levels).value)
    ensures View(keep, h, v, other) == View(keep, h, v, levels)
    decreases levels
  {
    if v.Ref? {
      var es, ts := ContainerView(keep, h, v.id, levels);
      HeightAllBounds(ts);
      forall i | 0 <= i < |es|
        ensures View(keep, h, es[i].value, other - 1) == Some(ts[i].value)
      {
        assert Height(ts[i].value) + 1 <= HeightAll(ts);
        ViewIsStable(keep, h, es[i].value, levels - 1, other - 1);
      }
      assert ViewAll(keep, h, es, other - 1) == ts;
    }
  }

  ghost predicate IsChild(h: Heap, a: nat, b: nat) {
    Look(h, a).Container? && exists i :: 0 <= i < |Look(h, a).entries| && Look(h, a).entries[i].value == Ref(b)
  }

  ghost predicate Chain(h: Heap, path: seq<nat>) {
    forall i :: 0 <= i < |path| - 1 ==> IsChild(h, path[i], path[i + 1])
  }

  lemma ChildHasView(keep: bool, h: Heap, a: nat, b: nat, levels: nat)
    requires IsChild(h, a, b) && View(keep, h, Ref(a), levels).Some?
    ensures levels > 0 && View(keep, h, Ref(b), levels - 1).Some?
  {
    var es, ts := ContainerView(keep, h, a, levels);
    var i :| 0 <= i < |Look(h, a).entries| && Look(h, a).entries[i].value == Ref(b);
    var j := IndexInArranged(keep, Look(h, a), i);
    assert View(keep, h, es[j].value, levels - 1).Some?;
  }

  lemma {:induction false} ChainHasViews(keep: bool, h: Heap, path: seq<nat>, levels: nat, i: nat)
    requires Chain(h, path) && i < |path| && View(keep, h, Ref(path[0]), levels).Some?
    ensures i < levels && View(keep, h, Ref(path[i]), levels - i).Some?
    decreases i
  {
    if i > 0 {
      ChainHasViews(keep, h, path, levels, i - 1);
      assert IsChild(h, path[i - 1], path[i - 1 + 1]);
      ChildHasView(keep, h, path[i - 1], path[i], levels - (i - 1));
    }
  }

  /** A container that lies below itself never unfolds. */
  lemma {:induction false} CycleHasNoView(keep: bool, h: Heap, cycle: seq<nat>, levels: nat)
    requires cycle != [] && Chain(h, cycle) && IsChild(h, cycle[|cycle| - 1], cycle[0])
    ensures View(keep, h, Ref(cycle[0]), levels).None?
    decreases levels
  {
    if View(keep, h, Ref(cycle[0]), levels).Some? {
      var n := |cycle| - 1;
      ChainHasViews(keep, h, cycle, levels, n);
      ChildHasView(keep, h, cycle[n], cycle[0], levels - n);
      CycleHasNoView(keep, h, cycle, levels - n - 1);
    }
  }
}
