/**
 The order a key puts object entries in, and what two values with one key have in
 common: the same structure, whatever the order in which entries were added.
 */
module RequestNormal {
  import opened Options
  import opened KeyOrder
  import opened RequestTree

  /** The tree as its key spells it: entries sorted, or as they stand for sort specifications. */
  function Normal(keepOrder: bool, t: Tree): Tree
    decreases t, 1
  {
    match t
    case Atom(_) => t
    case Group(kind, es) => Group(kind, Arrange(keepOrder, kind, NormalAll(keepOrder, es)))
  }

  function NormalAll(keepOrder: bool, es: seq<Entry>): (r: seq<Entry>)
    ensures |r| == |es|
    ensures forall i :: 0 <= i < |es| ==> r[i] == Keyed(es[i].key, Normal(keepOrder, es[i].value))
    decreases es, 0
  {
    if es == [] then [] else [Keyed(es[0].key, Normal(keepOrder, es[0].value))] + NormalAll(keepOrder, es[1..])
  }

  function Arrange<T>(keepOrder: bool, kind: Kind, es: seq<Keyed<T>>): seq<Keyed<T>> {
    if keepOrder || kind.Array? then es else Sort(es)
  }

  function Key(keepOrder: bool, t: Tree): string {
    Text(Normal(keepOrder, t))
  }

  /** Array items have no name, and an object has each key once. */
  ghost predicate WellFormed(t: Tree)
    decreases t, 1
  {
    match t
    case Atom(_) => true
    case Group(kind, es) => AllWellFormed(kind, es) && (kind.Object? ==> DistinctKeys(es))
  }

  ghost predicate AllWellFormed(kind: Kind, es: seq<Entry>)
    decreases es, 0
  {
    forall i :: 0 <= i < |es| ==> (kind.Array? ==> es[i].key == []) && WellFormed(es[i].value)
  }

  /** A plain value as it compares: the entries of an object have no order. */
  datatype Plain = PlainLeaf(leaf: Leaf) | PlainArray(items: seq<Plain>) | PlainObject(fields: map<string, Plain>)

  function Structure(t: Tree): Plain
    decreases t, 1
  {
    match t
    case Atom(l) => PlainLeaf(l)
    case Group(Array, es) => PlainArray(Items(es))
    case Group(Object, es) => PlainObject(Fields(es))
  }

  function Items(es: seq<Entry>): (r: seq<Plain>)
    ensures |r| == |es|
    ensures forall i :: 0 <= i < |es| ==> r[i] == Structure(es[i].value)
    decreases es, 0
  {
    if es == [] then [] else [Structure(es[0].value)] + Items(es[1..])
  }

  function Fields(es: seq<Entry>): map<string, Plain>
    decreases es, 0
  {
    if es == [] then map[] else Fields(es[1..])[es[0].key := Structure(es[0].value)]
  }

  lemma {:induction false} FieldsAreTheEntries(es: seq<Entry>)
    requires DistinctKeys(es)
    ensures forall i :: 0 <= i < |es| ==> es[i].key in Fields(es) && Fields(es)[es[i].key] == Structure(es[i].value)
    ensures forall k :: k in Fields(es) ==> exists i :: 0 <= i < |es| && es[i].key == k
  {
    if es != [] {
      FieldsAreTheEntries(es[1..]);
      forall k | k in Fields(es)
        ensures exists i :: 0 <= i < |es| && es[i].key == k
      {
        if k in Fields(es[1..]) {
          var i :| 0 <= i < |es[1..]| && es[1..][i].key == k;
          assert es[i + 1].key == k;
        } else {
          assert es[0].key == k;
        }
      }
      forall i | 0 <= i < |es|
        ensures es[i].key in Fields(es) && Fields(es)[es[i].key] == Structure(es[i].value)
      {
        if i > 0 {
          assert es[1..][i - 1] == es[i];
        }
      }
    }
  }

  // ---------------------------------------------------------------- normal trees

  lemma {:induction false} NormalIsWellKeyed(keepOrder: bool, t: Tree)
    requires WellFormed(t)
    ensures WellKeyed(Normal(keepOrder, t))
    decreases t
  {
    match t
    case Atom(_) =>
    case Group(kind, es) =>
      var ns := NormalAll(keepOrder, es);
      var rs := Arrange(keepOrder, kind, ns);
      forall e | e in rs
        ensures (kind.Array? ==> e.key == []) && WellKeyed(e.value)
      {
        SortMember(ns, e);
        var i :| 0 <= i < |ns| && ns[i] == e;
        NormalIsWellKeyed(keepOrder, es[i].value);
      }
  }

  /** Keys never repeat in an object with distinct keys, so equal members make equal multisets. */
  lemma SameMembers<T>(x: seq<Keyed<T>>, y: seq<Keyed<T>>)
    requires DistinctKeys(x) && DistinctKeys(y)
    requires forall i :: 0 <= i < |x| ==> x[i] in y
    requires forall i :: 0 <= i < |y| ==> y[i] in x
    ensures multiset(x) == multiset(y)
  {
    forall e
      ensures multiset(x)[e] == multiset(y)[e]
    {
      OccursOnce(x, e);
      OccursOnce(y, e);
      if e in x {
        var i :| 0 <= i < |x| && x[i] == e;
      }
      if e in y {
        var i :| 0 <= i < |y| && y[i] == e;
      }
    }
  }

  lemma {:induction false} OccursOnce<T>(x: seq<Keyed<T>>, e: Keyed<T>)
    requires DistinctKeys(x)
    ensures multiset(x)[e] == if e in x then 1 else 0
  {
    if x != [] {
      OccursOnce(x[1..], e);
      assert x == [x[0]] + x[1..];
      if e in x[1..] {
        var k :| 0 <= k < |x[1..]| && x[1..][k] == e;
        assert x[k + 1] == e;
      }
    }
  }

  lemma SameMembersSortAlike<T>(x: seq<Keyed<T>>, y: seq<Keyed<T>>)
    requires DistinctKeys(x) && DistinctKeys(y)
    requires forall i :: 0 <= i < |x| ==> x[i] in y
    requires forall i :: 0 <= i < |y| ==> y[i] in x
    ensures Sort(x) == Sort(y)
  {
    SameMembers(x, y);
    SortSorts(x);
    SortSorts(y);
    SortKeepsDistinct(x);
    SortedOrderIsUnique(Sort(x), Sort(y));
  }

  /** The entry of `fs` that stands for entry `i` of `es` when both make the same fields. */
  lemma Counterpart(es: seq<Entry>, fs: seq<Entry>, i: nat) returns (j: nat)
    requires DistinctKeys(es) && DistinctKeys(fs) && Fields(es) == Fields(fs) && i < |es|
    ensures j < |fs| && fs[j].key == es[i].key && Structure(fs[j].value) == Structure(es[i].value)
  {
    FieldsAreTheEntries(es);
    FieldsAreTheEntries(fs);
    assert es[i].key in Fields(fs);
    j :| 0 <= j < |fs| && fs[j].key == es[i].key;
  }

  lemma {:induction false} SameStructureGivesEqualNormals(a: Tree, b: Tree)
    requires WellFormed(a) && WellFormed(b) && Structure(a) == Structure(b)
    ensures Normal(false, a) == Normal(false, b)
    decreases a, 2
  {
    match a
    case Atom(_) =>
    case Group(kind, es) =>
      var fs := b.entries;
      if kind.Array? {
        SameItemsGiveEqualNormals(es, fs);
      } else {
        SameFieldsGiveEqualNormals(es, fs);
      }
  }

  lemma {:induction false} SameItemsGiveEqualNormals(es: seq<Entry>, fs: seq<Entry>)
    requires AllWellFormed(Array, es) && AllWellFormed(Array, fs) && Items(es) == Items(fs)
    ensures NormalAll(false, es) == NormalAll(false, fs)
    decreases es, 1
  {
    assert |Items(es)| == |Items(fs)|;
    forall i | 0 <= i < |es|
      ensures NormalAll(false, es)[i] == NormalAll(false, fs)[i]
    {
      assert Items(es)[i] == Items(fs)[i];
      SameStructureGivesEqualNormals(es[i].value, fs[i].value);
    }
  }

  lemma {:induction false} SameFieldsGiveEqualNormals(es: seq<Entry>, fs: seq<Entry>)
    requires AllWellFormed(Object, es) && AllWellFormed(Object, fs) && DistinctKeys(es) && DistinctKeys(fs)
    requires Fields(es) == Fields(fs)
    ensures Sort(NormalAll(false, es)) == Sort(NormalAll(false, fs))
    decreases es, 1
  {
    var x, y := NormalAll(false, es), NormalAll(false, fs);
    forall i | 0 <= i < |x|
      ensures x[i] in y
    {
      var j := Counterpart(es, fs, i);
      EqualEntry(es, fs, i, j);
    }
    forall j | 0 <= j < |y|
      ensures y[j] in x
    {
      var i := Counterpart(fs, es, j);
      EqualEntry(es, fs, i, j);
    }
    SameMembersSortAlike(x, y);
  }

  lemma {:induction false} EqualEntry(es: seq<Entry>, fs: seq<Entry>, i: nat, j: nat)
    requires AllWellFormed(Object, es) && AllWellFormed(Object, fs) && i < |es| && j < |fs|
    requires es[i].key == fs[j].key && Structure(es[i].value) == Structure(fs[j].value)
    ensures NormalAll(false, es)[i] == NormalAll(false, fs)[j]
    decreases es, 0
  {
    SameStructureGivesEqualNormals(es[i].value, fs[j].value);
  }

  /** Putting a value in normal order does not change it. */
  lemma {:induction false} NormalKeepsStructure(keepOrder: bool, t: Tree)
    requires WellFormed(t)
    ensures Structure(Normal(keepOrder, t)) == Structure(t)
    ensures WellFormed(Normal(keepOrder, t))
    decreases t
  {
    match t
    case Atom(_) =>
    case Group(kind, es) =>
      var x := NormalAll(keepOrder, es);
      forall i | 0 <= i < |es|
        ensures Structure(x[i].value) == Structure(es[i].value) && WellFormed(x[i].value)
      {
        NormalKeepsStructure(keepOrder, es[i].value);
      }
      if kind.Array? {
        assert Items(x) == Items(es);
      } else {
        EqualEntriesMakeEqualFields(es, x);
        if !keepOrder {
          SortKeepsFields(x);
        }
      }
  }

  lemma {:induction false} EqualEntriesMakeEqualFields(es: seq<Entry>, x: seq<Entry>)
    requires |x| == |es|
    requires forall i :: 0 <= i < |es| ==> x[i].key == es[i].key && Structure(x[i].value) == Structure(es[i].value)
    ensures Fields(x) == Fields(es)
  {
    if es != [] {
      EqualEntriesMakeEqualFields(es[1..], x[1..]);
    }
  }

  lemma FromSorted<T>(x: seq<Keyed<T>>, i: nat) returns (j: nat)
    requires i < |Sort(x)|
    ensures j < |x| && x[j] == Sort(x)[i]
  {
    SortMember(x, Sort(x)[i]);
    j :| 0 <= j < |x| && x[j] == Sort(x)[i];
  }

  lemma IntoSorted<T>(x: seq<Keyed<T>>, i: nat) returns (j: nat)
    requires i < |x|
    ensures j < |Sort(x)| && Sort(x)[j] == x[i]
  {
    SortMember(x, x[i]);
    j :| 0 <= j < |Sort(x)| && Sort(x)[j] == x[i];
  }

  lemma SortKeepsFields(x: seq<Entry>)
    requires DistinctKeys(x) && AllWellFormed(Object, x)
    ensures DistinctKeys(Sort(x)) && Fields(Sort(x)) == Fields(x) && AllWellFormed(Object, Sort(x))
  {
    var s := Sort(x);
    SortKeepsDistinct(x);
    forall i | 0 <= i < |s|
      ensures WellFormed(s[i].value)
    {
      var j := FromSorted(x, i);
    }
    SortedFields(x, s);
  }

  lemma SortedFields(x: seq<Entry>, s: seq<Entry>)
    requires DistinctKeys(x) && DistinctKeys(s) && s == Sort(x)
    ensures Fields(s) == Fields(x)
  {
    forall k | k in Fields(s)
      ensures k in Fields(x) && Fields(x)[k] == Fields(s)[k]
    {
      var i := EntryOf(s, k);
      var j := FromSorted(x, i);
      FieldOf(x, j);
    }
    forall k | k in Fields(x)
      ensures k in Fields(s)
    {
      var i := EntryOf(x, k);
      var j := IntoSorted(x, i);
      FieldOf(s, j);
    }
  }

  lemma EntryOf(es: seq<Entry>, k: string) returns (i: nat)
    requires DistinctKeys(es) && k in Fields(es)
    ensures i < |es| && es[i].key == k && Fields(es)[k] == Structure(es[i].value)
  {
    FieldsAreTheEntries(es);
    i :| 0 <= i < |es| && es[i].key == k;
  }

  lemma FieldOf(es: seq<Entry>, i: nat)
    requires DistinctKeys(es) && i < |es|
    ensures es[i].key in Fields(es) && Fields(es)[es[i].key] == Structure(es[i].value)
  {
    FieldsAreTheEntries(es);
  }

  lemma {:induction false} KeptOrderIsUnchanged(t: Tree)
    ensures Normal(true, t) == t
    decreases t
  {
    match t
    case Atom(_) =>
    case Group(kind, es) =>
      forall i | 0 <= i < |es|
        ensures NormalAll(true, es)[i] == es[i]
      {
        KeptOrderIsUnchanged(es[i].value);
      }
      assert NormalAll(true, es) == es;
  }

  // ---------------------------------------------------------------- what a key identifies

  /** The decoder recovers a value from its key, up to the order of entries; sort keys keep that too. */
  lemma KeysRoundTrip(keepOrder: bool, t: Tree)
    requires WellFormed(t)
    ensures Decode(Key(keepOrder, t)).Some?
    ensures Structure(Decode(Key(keepOrder, t)).value) == Structure(t)
    ensures keepOrder ==> Decode(Key(keepOrder, t)).value == t
  {
    NormalIsWellKeyed(keepOrder, t);
    TextDecodes(Normal(keepOrder, t));
    NormalKeepsStructure(keepOrder, t);
    if keepOrder {
      KeptOrderIsUnchanged(t);
    }
  }

  /** Two values have one request key exactly when they have one structure. */
  lemma RequestKeysIdentifyStructures(a: Tree, b: Tree)
    requires WellFormed(a) && WellFormed(b)
    ensures Key(false, a) == Key(false, b) <==> Structure(a) == Structure(b)
  {
    if Structure(a) == Structure(b) {
      SameStructureGivesEqualNormals(a, b);
    } else {
      KeysRoundTrip(false, a);
      KeysRoundTrip(false, b);
    }
  }

  /** Sort specifications have one key only when they are equal, order of fields included. */
  lemma SortKeysIdentifyValues(a: Tree, b: Tree)
    requires WellFormed(a) && WellFormed(b)
    ensures Key(true, a) == Key(true, b) <==> a == b
  {
    KeysRoundTrip(true, a);
    KeysRoundTrip(true, b);
  }
}
