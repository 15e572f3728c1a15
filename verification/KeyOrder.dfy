/** The order in which object keys are sorted: lexicographic by character. */
module KeyOrder {

  predicate Le(a: string, b: string) {
    a == [] || (b != [] && (a[0] < b[0] || (a[0] == b[0] && Le(a[1..], b[1..]))))
  }

  lemma {:induction false} Total(a: string, b: string)
    ensures Le(a, b) || Le(b, a)
  {
    if a != [] && b != [] && a[0] == b[0] {
      Total(a[1..], b[1..]);
    }
  }

  lemma {:induction false} Antisymmetric(a: string, b: string)
    requires Le(a, b) && Le(b, a)
    ensures a == b
  {
    if a != [] {
      Antisymmetric(a[1..], b[1..]);
      assert a == [a[0]] + a[1..] && b == [b[0]] + b[1..];
    }
  }

  lemma {:induction false} Transitive(a: string, b: string, c: string)
    requires Le(a, b) && Le(b, c)
    ensures Le(a, c)
  {
    if a != [] && a[0] == b[0] && b[0] == c[0] {
      Transitive(a[1..], b[1..], c[1..]);
    }
  }

  datatype Keyed<+T> = Keyed(key: string, value: T)

  function Insert<T>(e: Keyed<T>, es: seq<Keyed<T>>): seq<Keyed<T>> {
    if es == [] || Le(e.key, es[0].key) then [e] + es else [es[0]] + Insert(e, es[1..])
  }

  /** The entries in the order of their keys. */
  function Sort<T>(es: seq<Keyed<T>>): seq<Keyed<T>> {
    if es == [] then [] else Insert(es[0], Sort(es[1..]))
  }

  ghost predicate Sorted<T>(es: seq<Keyed<T>>) {
    forall i, j :: 0 <= i < j < |es| ==> Le(es[i].key, es[j].key)
  }

  ghost predicate DistinctKeys<T>(es: seq<Keyed<T>>) {
    forall i, j :: 0 <= i < j < |es| ==> es[i].key != es[j].key
  }

  lemma {:induction false} InsertSorts<T>(e: Keyed<T>, es: seq<Keyed<T>>)
    requires Sorted(es)
    ensures Sorted(Insert(e, es)) && multiset(Insert(e, es)) == multiset{e} + multiset(es)
  {
    if es == [] {
    } else if Le(e.key, es[0].key) {
      forall j | 0 <= j < |es|
        ensures Le(e.key, es[j].key)
      {
        if j > 0 {
          Transitive(e.key, es[0].key, es[j].key);
        }
      }
    } else {
      Total(e.key, es[0].key);
      InsertSorts(e, es[1..]);
      assert es == [es[0]] + es[1..];
      var rest := Insert(e, es[1..]);
      forall j | 0 <= j < |rest|
        ensures Le(es[0].key, rest[j].key)
      {
        assert rest[j] in multiset(rest);
        if rest[j] != e {
          var k :| 0 <= k < |es[1..]| && es[1..][k] == rest[j];
        }
      }
    }
  }

  lemma {:induction false} SortSorts<T>(es: seq<Keyed<T>>)
    ensures Sorted(Sort(es)) && multiset(Sort(es)) == multiset(es) && |Sort(es)| == |es|
  {
    if es != [] {
      SortSorts(es[1..]);
      InsertSorts(es[0], Sort(es[1..]));
      assert es == [es[0]] + es[1..];
    }
    assert |multiset(Sort(es))| == |multiset(es)|;
  }

  lemma SortMember<T>(es: seq<Keyed<T>>, e: Keyed<T>)
    ensures e in Sort(es) <==> e in es
  {
    SortSorts(es);
    assert e in multiset(Sort(es)) <==> e in multiset(es);
  }

  /** Sorted entries are left as they are. */
  lemma {:induction false} SortedStays<T>(es: seq<Keyed<T>>)
    requires Sorted(es)
    ensures Sort(es) == es
  {
    if es != [] {
      SortedStays(es[1..]);
      assert es == [es[0]] + es[1..];
    }
  }

  lemma {:induction false} SortKeepsDistinct<T>(es: seq<Keyed<T>>)
    requires DistinctKeys(es)
    ensures DistinctKeys(Sort(es))
  {
    if es != [] {
      var tail := Sort(es[1..]);
      SortKeepsDistinct(es[1..]);
      forall i | 0 <= i < |tail|
        ensures tail[i].key != es[0].key
      {
        SortMember(es[1..], tail[i]);
        var k :| 0 <= k < |es[1..]| && es[1..][k] == tail[i];
      }
      InsertKeepsDistinct(es[0], tail);
    }
  }

  lemma {:induction false} InsertKeepsDistinct<T>(e: Keyed<T>, es: seq<Keyed<T>>)
    requires DistinctKeys(es) && forall i :: 0 <= i < |es| ==> es[i].key != e.key
    ensures DistinctKeys(Insert(e, es))
    ensures forall i :: 0 <= i < |Insert(e, es)| ==>
                          Insert(e, es)[i] == e || exists k :: 0 <= k < |es| && es[k] == Insert(e, es)[i]
  {
    if es != [] && !Le(e.key, es[0].key) {
      InsertKeepsDistinct(e, es[1..]);
      var rest := Insert(e, es[1..]);
      forall i | 0 <= i < |rest|
        ensures rest[i].key != es[0].key
        ensures rest[i] == e || exists k :: 0 <= k < |es| && es[k] == rest[i]
      {
        if rest[i] != e {
          var k :| 0 <= k < |es[1..]| && es[1..][k] == rest[i];
          assert es[k + 1] == rest[i];
        }
      }
    }
  }

  /** Entries with distinct keys have one sorted order. */
  lemma {:induction false} SortedOrderIsUnique<T>(x: seq<Keyed<T>>, y: seq<Keyed<T>>)
    requires Sorted(x) && Sorted(y) && DistinctKeys(x) && multiset(x) == multiset(y)
    ensures x == y
  {
    assert |multiset(x)| == |multiset(y)|;
    if x != [] {
      SameHead(x, y);
      SameTail(x, y);
      SortedOrderIsUnique(x[1..], y[1..]);
    }
  }

  lemma SameTail<T>(x: seq<T>, y: seq<T>)
    requires x != [] && y != [] && x[0] == y[0] && multiset(x) == multiset(y)
    ensures multiset(x[1..]) == multiset(y[1..])
    ensures x == [x[0]] + x[1..] && y == [y[0]] + y[1..]
  {
    assert x == [x[0]] + x[1..] && y == [y[0]] + y[1..];
    assert multiset(x[1..]) == multiset(x) - multiset{x[0]};
    assert multiset(y[1..]) == multiset(y) - multiset{y[0]};
  }

  lemma SameHead<T>(x: seq<Keyed<T>>, y: seq<Keyed<T>>)
    requires x != [] && y != [] && multiset(x) == multiset(y)
    requires Sorted(x) && Sorted(y) && DistinctKeys(x)
    ensures x[0] == y[0]
  {
    assert x[0] in multiset(y) && y[0] in multiset(x);
    var i :| 0 <= i < |y| && y[i] == x[0];
    var j :| 0 <= j < |x| && x[j] == y[0];
    if i > 0 && j > 0 {
      Antisymmetric(x[0].key, y[0].key);
    }
  }

  /** Sorting moves values along with their keys, so it keeps what relates two lists entry by entry. */
  ghost predicate Related<S, T>(r: (S, T) -> bool, a: seq<Keyed<S>>, b: seq<Keyed<T>>) {
    && |a| == |b|
    && forall i :: 0 <= i < |a| ==> a[i].key == b[i].key && r(a[i].value, b[i].value)
  }

  lemma {:induction false} InsertRelated<S, T>(
    r: (S, T) -> bool, d: Keyed<S>, e: Keyed<T>, a: seq<Keyed<S>>, b: seq<Keyed<T>>)
    requires Related(r, a, b) && d.key == e.key && r(d.value, e.value)
    ensures Related(r, Insert(d, a), Insert(e, b))
  {
    if a != [] && !Le(d.key, a[0].key) {
      InsertRelated(r, d, e, a[1..], b[1..]);
    }
  }

  lemma {:induction false} SortRelated<S, T>(r: (S, T) -> bool, a: seq<Keyed<S>>, b: seq<Keyed<T>>)
    requires Related(r, a, b)
    ensures Related(r, Sort(a), Sort(b))
  {
    if a != [] {
      SortRelated(r, a[1..], b[1..]);
      InsertRelated(r, a[0], b[0], Sort(a[1..]), Sort(b[1..]));
    }
  }

  function Sum<T>(weight: Keyed<T> -> nat, es: seq<Keyed<T>>): nat {
    if es == [] then 0 else var n := |es| - 1; Sum(weight, es[..n]) + weight(es[n])
  }

  lemma {:induction false} SumFromTheLeft<T>(weight: Keyed<T> -> nat, es: seq<Keyed<T>>)
    requires es != []
    ensures Sum(weight, es) == weight(es[0]) + Sum(weight, es[1..])
  {
    var n := |es| - 1;
    if n > 0 {
      SumFromTheLeft(weight, es[..n]);
      assert es[..n][1..] == es[1..][..n - 1];
    }
  }

  lemma {:induction false} InsertAddsWeight<T>(weight: Keyed<T> -> nat, e: Keyed<T>, es: seq<Keyed<T>>)
    ensures Sum(weight, Insert(e, es)) == weight(e) + Sum(weight, es)
  {
    SumFromTheLeft(weight, Insert(e, es));
    if es != [] && !Le(e.key, es[0].key) {
      InsertAddsWeight(weight, e, es[1..]);
      SumFromTheLeft(weight, es);
    }
  }

  lemma {:induction false} SortKeepsSum<T>(weight: Keyed<T> -> nat, es: seq<Keyed<T>>)
    ensures Sum(weight, Sort(es)) == Sum(weight, es)
  {
    if es != [] {
      SortKeepsSum(weight, es[1..]);
      InsertAddsWeight(weight, es[0], Sort(es[1..]));
      SumFromTheLeft(weight, es);
    }
  }
}
