/**
 The conjunction of filters: nested conjunctions are flattened, equal clauses dropped,
 and clauses that do not disagree merged into one object. Clauses are compared whatever
 the order of keys. The result is in a normal form, and matches what the filters match as
 far as that order does not matter.
 */
module FilterConjunction {
  import opened Options
  import opened FilterKeys
  import opened Sequences

  const AND: string := "$and"

  /** A filter that nothing matches. */
  const FALSE := Bool(false)

  // ---------------------------------------------------------------- shapes of filters

  predicate IsAndFilter(v: Value) {
    v.Obj? && v.fields.Keys == {AND} && v.fields[AND].Arr?
  }

  function Clauses(v: Value): seq<Value>
    requires IsAndFilter(v)
  {
    v.fields[AND].items
  }

  function And(clauses: seq<Value>): (v: Value)
    ensures IsAndFilter(v) && Clauses(v) == clauses
  {
    Obj(map[AND := Arr(clauses)], [AND])
  }

  predicate IsMergeable(v: Value) {
    v.Obj? && forall k :: k in v.fields ==> k == [] || k[0] != '$'
  }

  predicate IsEmptyFilter(v: Value) {
    !v.Obj? || v.fields == map[]
  }

  // ---------------------------------------------------------------- what a filter matches

  /**
   A document, by the conditions it meets: whether a field, or any operator other than a
   list of conjuncts, holds of it with a given value.
   */
  type Document = (string, Value) -> bool

  /** Everything that is neither `false` nor an object states no condition. */
  predicate Matches(v: Value, doc: Document)
    decreases v, 2
  {
    match v
    case Bool(b) => b
    case Obj(fields, _) => forall k :: k in fields ==> Meets(k, fields[k], doc)
    case _ => true
  }

  predicate Meets(key: string, value: Value, doc: Document)
    decreases value, 1
  {
    if key == AND && value.Arr? then AllMatch(value.items, doc) else doc(key, value)
  }

  predicate AllMatch(vs: seq<Value>, doc: Document)
    decreases vs, 0
  {
    vs == [] || (AllMatch(vs[..|vs| - 1], doc) && Matches(vs[|vs| - 1], doc))
  }

  lemma {:induction false} AllMatchMeansEach(vs: seq<Value>, doc: Document)
    ensures AllMatch(vs, doc) <==> forall i :: 0 <= i < |vs| ==> Matches(vs[i], doc)
  {
    if vs != [] {
      AllMatchMeansEach(vs[..|vs| - 1], doc);
    }
  }

  lemma AllMatchConcat(a: seq<Value>, b: seq<Value>, doc: Document)
    ensures AllMatch(a + b, doc) <==> AllMatch(a, doc) && AllMatch(b, doc)
  {
    AllMatchMeansEach(a, doc);
    AllMatchMeansEach(b, doc);
    AllMatchMeansEach(a + b, doc);
    if AllMatch(a + b, doc) {
      assert forall i :: 0 <= i < |a| ==> a[i] == (a + b)[i];
      assert forall i :: 0 <= i < |b| ==> b[i] == (a + b)[|a| + i];
    }
  }

  lemma AndMatches(v: Value, doc: Document)
    requires IsAndFilter(v)
    ensures Matches(v, doc) <==> AllMatch(Clauses(v), doc)
  {
    assert AND in v.fields;
    assert Matches(v, doc) ==> Meets(AND, v.fields[AND], doc);
  }

  // ---------------------------------------------------------------- flattening

  /** One filter as its clauses; none if it is, or contains among its conjuncts, `false`. */
  function Flatten(v: Value): Option<seq<Value>>
    decreases v, 1
  {
    if v == FALSE then None
    else if IsEmptyFilter(v) then Some([])
    else if IsAndFilter(v) then FinalClauses(FlattenAll(v.fields[AND].items))
    else Some([v])
  }

  function FlattenAll(vs: seq<Value>): Option<seq<Value>>
    decreases vs, 0
  {
    if vs == [] then Some([])
    else
      var n := |vs| - 1;
      match FlattenAll(vs[..n])
      case None => None
      case Some(before) =>
        match Flatten(vs[n])
        case None => None
        case Some(clauses) => Some(before + clauses)
  }

  /** What is left of flattened clauses after deduplication and merging. */
  function FinalClauses(clauses: Option<seq<Value>>): Option<seq<Value>> {
    match clauses
    case None => None
    case Some(cs) => Some(Merge(Dedupe(cs)))
  }

  /** The clauses that are the first of their key, and those that have none. */
  function Dedupe(cs: seq<Value>): seq<Value> {
    if cs == [] then []
    else
      var n := |cs| - 1;
      if IsRepeated(cs[..n], cs[n]) then Dedupe(cs[..n]) else Dedupe(cs[..n]) + [cs[n]]
  }

  predicate IsRepeated(before: seq<Value>, c: Value) {
    DedupeKey(c).Some? && exists j :: 0 <= j < |before| && DedupeKey(before[j]) == DedupeKey(c)
  }

  datatype Merged = Merged(fields: map<string, Value>, order: seq<string>, remaining: seq<Value>)

  predicate CanMerge(fields: map<string, Value>, clause: Value) {
    IsMergeable(clause) && forall k :: k in clause.fields && k in fields ==> Same(fields[k], clause.fields[k])
  }

  /** The keys that assigning an object adds behind the ones that are there. */
  function NewKeys(order: seq<string>, known: set<string>): seq<string> {
    if order == [] then []
    else (if order[0] in known then [] else [order[0]]) + NewKeys(order[1..], known)
  }

  /** Keys keep their place, and values are those of the last clause. */
  function MergeInto(m: Merged, clause: Value): Merged {
    if CanMerge(m.fields, clause)
    then Merged(m.fields + clause.fields, m.order + NewKeys(clause.order, m.fields.Keys), m.remaining)
    else Merged(m.fields, m.order, m.remaining + [clause])
  }

  function MergeAll(cs: seq<Value>): Merged {
    if cs == [] then Merged(map[], [], []) else MergeInto(MergeAll(cs[..|cs| - 1]), cs[|cs| - 1])
  }

  function Merge(cs: seq<Value>): seq<Value> {
    var m := MergeAll(cs);
    if m.fields == map[] then m.remaining else [Obj(m.fields, m.order)] + m.remaining
  }

  /** The filter for some final clauses: `null` for none, the clause itself for one. */
  function Conjoin(final: Option<seq<Value>>): Value {
    match final
    case None => FALSE
    case Some(cs) => if cs == [] then Null else if |cs| == 1 then cs[0] else And(cs)
  }

  function Optimize(inputs: seq<Value>): Value {
    Conjoin(FinalClauses(FlattenAll(inputs)))
  }

  function Normalize(filter: Value): Value {
    if filter == FALSE then FALSE
    else if IsEmptyFilter(filter) then Null
    else if !IsAndFilter(filter) then filter
    else Optimize(Clauses(filter))
  }

  function Intersect(filters: seq<Value>): Value {
    var r := Optimize(filters);
    if r == Null then Obj(map[], []) else r
  }

  // ---------------------------------------------------------------- meaning is kept

  /**
   The conditions under which the code takes two values for one: on a field, or with a
   deduplication key. A list of conjuncts is no condition of its own.
   */
  predicate IsCompared(key: string, value: Value) {
    key == [] || key[0] != '$' || (DedupeKey(value).Some? && !(key == AND && value.Arr?))
  }

  /** A document that takes two values for one wherever the code does. */
  ghost predicate ForgetsOrder(doc: Document) {
    forall key, a, b :: Same(a, b) && IsCompared(key, a) ==> doc(key, a) == doc(key, b)
  }

  lemma {:induction false} SameMatchAlike(a: Value, b: Value, doc: Document)
    requires ForgetsOrder(doc) && Same(a, b) && DedupeKey(a).Some?
    ensures Matches(a, doc) == Matches(b, doc)
    decreases a, 2
  {
    if a.Obj? {
      SameFields(a, b);
      forall k | k in a.fields
        ensures Meets(k, a.fields[k], doc) == Meets(k, b.fields[k], doc)
      {
        assert DedupeKey(a.fields[k]).Some?;
        SameMeetAlike(k, a.fields[k], b.fields[k], doc);
      }
    }
  }

  lemma {:induction false} SameMeetAlike(key: string, a: Value, b: Value, doc: Document)
    requires ForgetsOrder(doc) && Same(a, b) && DedupeKey(a).Some?
    ensures Meets(key, a, doc) == Meets(key, b, doc)
    decreases a, 1
  {
    if key == AND && a.Arr? {
      SameItems(a, b);
      forall i | 0 <= i < |a.items|
        ensures Matches(a.items[i], doc) == Matches(b.items[i], doc)
      {
        assert DedupeKey(a.items[i]).Some?;
        SameMatchAlike(a.items[i], b.items[i], doc);
      }
      AllMatchMeansEach(a.items, doc);
      AllMatchMeansEach(b.items, doc);
    } else {
      SameKind(a, b);
      assert IsCompared(key, a);
    }
  }

  lemma SameKind(a: Value, b: Value)
    requires Same(a, b)
    ensures a.Arr? == b.Arr? && a.Obj? == b.Obj?
  {
  }

  /** A clause that repeats a key is the same as the one that had it first. */
  lemma FirstOfItsKey(before: seq<Value>, c: Value) returns (j: nat)
    requires IsRepeated(before, c)
    ensures j < |before| && Same(before[j], c) && DedupeKey(before[j]).Some?
  {
    j :| 0 <= j < |before| && DedupeKey(before[j]) == DedupeKey(c);
    DedupeKeyIsInjective(before[j], c);
  }

  lemma {:induction false} DedupeKeepsMeaning(cs: seq<Value>, doc: Document)
    requires ForgetsOrder(doc)
    ensures AllMatch(Dedupe(cs), doc) <==> AllMatch(cs, doc)
  {
    if cs != [] {
      var n := |cs| - 1;
      DedupeKeepsMeaning(cs[..n], doc);
      if IsRepeated(cs[..n], cs[n]) {
        var j := FirstOfItsKey(cs[..n], cs[n]);
        AllMatchMeansEach(cs[..n], doc);
        SameMatchAlike(cs[..n][j], cs[n], doc);
      } else {
        var d := Dedupe(cs[..n]);
        assert (d + [cs[n]])[..|d|] == d;
      }
    }
  }

  lemma MergedFieldsMatch(m: Merged, clause: Value, order: seq<string>, doc: Document)
    requires ForgetsOrder(doc) && CanMerge(m.fields, clause) && IsMergeable(Obj(m.fields, m.order))
    ensures Matches(Obj(m.fields + clause.fields, order), doc)
       <==> Matches(Obj(m.fields, m.order), doc) && Matches(clause, doc)
  {
    var fields := m.fields + clause.fields;
    forall k | k in m.fields
      ensures Meets(k, m.fields[k], doc) == Meets(k, fields[k], doc)
    {
      assert IsCompared(k, m.fields[k]) && k != AND;
    }
    assert forall k :: k in clause.fields ==> fields[k] == clause.fields[k];
  }

  lemma {:induction false} MergedIsMergeable(cs: seq<Value>)
    ensures IsMergeable(Obj(MergeAll(cs).fields, MergeAll(cs).order))
  {
    if cs != [] {
      MergedIsMergeable(cs[..|cs| - 1]);
    }
  }

  lemma {:induction false} MergeAllKeepsMeaning(cs: seq<Value>, doc: Document)
    requires ForgetsOrder(doc)
    ensures Matches(Obj(MergeAll(cs).fields, MergeAll(cs).order), doc) && AllMatch(MergeAll(cs).remaining, doc)
       <==> AllMatch(cs, doc)
  {
    if cs != [] {
      var n := |cs| - 1;
      var m := MergeAll(cs[..n]);
      MergeAllKeepsMeaning(cs[..n], doc);
      if CanMerge(m.fields, cs[n]) {
        MergedIsMergeable(cs[..n]);
        MergedFieldsMatch(m, cs[n], MergeAll(cs).order, doc);
      } else {
        assert (m.remaining + [cs[n]])[..|m.remaining|] == m.remaining;
      }
    }
  }

  lemma MergeKeepsMeaning(cs: seq<Value>, doc: Document)
    requires ForgetsOrder(doc)
    ensures AllMatch(Merge(cs), doc) <==> AllMatch(cs, doc)
  {
    var m := MergeAll(cs);
    MergeAllKeepsMeaning(cs, doc);
    if m.fields != map[] {
      var first := Obj(m.fields, m.order);
      AllMatchConcat([first], m.remaining, doc);
      assert [first][..0] == [];
      assert AllMatch([first], doc) <==> Matches(first, doc);
    }
  }

  lemma {:induction false} FlattenKeepsMeaning(v: Value, doc: Document)
    requires ForgetsOrder(doc)
    ensures Matches(v, doc) <==> Flatten(v).Some? && AllMatch(Flatten(v).value, doc)
    decreases v, 1
  {
    if IsAndFilter(v) {
      AndMatches(v, doc);
      FlattenAllKeepsMeaning(v.fields[AND].items, doc);
      FinalKeepsMeaning(FlattenAll(v.fields[AND].items), doc);
    } else if v.Obj? {
      assert [v][..0] == [];
    }
  }

  lemma FinalKeepsMeaning(clauses: Option<seq<Value>>, doc: Document)
    requires ForgetsOrder(doc)
    ensures clauses.Some? ==> (AllMatch(FinalClauses(clauses).value, doc) <==> AllMatch(clauses.value, doc))
  {
    if clauses.Some? {
      DedupeKeepsMeaning(clauses.value, doc);
      MergeKeepsMeaning(Dedupe(clauses.value), doc);
    }
  }

  lemma {:induction false} FlattenAllKeepsMeaning(vs: seq<Value>, doc: Document)
    requires ForgetsOrder(doc)
    ensures AllMatch(vs, doc) <==> FlattenAll(vs).Some? && AllMatch(FlattenAll(vs).value, doc)
    decreases vs, 0
  {
    if vs != [] {
      var n := |vs| - 1;
      FlattenAllKeepsMeaning(vs[..n], doc);
      FlattenKeepsMeaning(vs[n], doc);
      if FlattenAll(vs).Some? {
        AllMatchConcat(FlattenAll(vs[..n]).value, Flatten(vs[n]).value, doc);
      }
    }
  }

  lemma ConjoinKeepsMeaning(final: Option<seq<Value>>, doc: Document)
    ensures Matches(Conjoin(final), doc) <==> final.Some? && AllMatch(final.value, doc)
  {
    if final.Some? {
      if |final.value| == 1 {
        assert final.value[..0] == [];
      } else if |final.value| > 1 {
        AndMatches(And(final.value), doc);
      }
    }
  }

  lemma OptimizeKeepsMeaning(inputs: seq<Value>, doc: Document)
    requires ForgetsOrder(doc)
    ensures Matches(Optimize(inputs), doc) <==> AllMatch(inputs, doc)
  {
    FlattenAllKeepsMeaning(inputs, doc);
    FinalKeepsMeaning(FlattenAll(inputs), doc);
    ConjoinKeepsMeaning(FinalClauses(FlattenAll(inputs)), doc);
  }

  // ---------------------------------------------------------------- the normal form

  predicate IsClause(v: Value) {
    v.Obj? && v.fields != map[] && !IsAndFilter(v)
  }

  predicate AreClauses(cs: seq<Value>) {
    forall i :: 0 <= i < |cs| ==> IsClause(cs[i])
  }

  /** `false`, `null`, one clause, or two or more clauses under one `$and`. */
  predicate IsNormal(v: Value) {
    v == FALSE || v == Null || IsClause(v) || (IsAndFilter(v) && |Clauses(v)| >= 2 && AreClauses(Clauses(v)))
  }

  lemma {:induction false} DedupeKeepsClauses(cs: seq<Value>)
    requires AreClauses(cs)
    ensures AreClauses(Dedupe(cs))
  {
    if cs != [] {
      DedupeKeepsClauses(cs[..|cs| - 1]);
    }
  }

  lemma {:induction false} MergeAllKeepsClauses(cs: seq<Value>)
    requires AreClauses(cs)
    ensures AreClauses(MergeAll(cs).remaining)
  {
    if cs != [] {
      MergeAllKeepsClauses(cs[..|cs| - 1]);
    }
  }

  lemma MergeKeepsClauses(cs: seq<Value>)
    requires AreClauses(cs)
    ensures AreClauses(Merge(cs))
  {
    MergeAllKeepsClauses(cs);
    MergedIsMergeable(cs);
    assert AND !in MergeAll(cs).fields;
  }

  lemma {:induction false} FlattenGivesClauses(v: Value)
    ensures Flatten(v).Some? ==> AreClauses(Flatten(v).value)
    decreases v, 1
  {
    if IsAndFilter(v) && v != FALSE {
      FlattenAllGivesClauses(v.fields[AND].items);
      FinalGivesClauses(FlattenAll(v.fields[AND].items));
    }
  }

  lemma FinalGivesClauses(clauses: Option<seq<Value>>)
    requires clauses.Some? ==> AreClauses(clauses.value)
    ensures FinalClauses(clauses).Some? ==> AreClauses(FinalClauses(clauses).value)
  {
    if clauses.Some? {
      DedupeKeepsClauses(clauses.value);
      MergeKeepsClauses(Dedupe(clauses.value));
    }
  }

  lemma {:induction false} FlattenAllGivesClauses(vs: seq<Value>)
    ensures FlattenAll(vs).Some? ==> AreClauses(FlattenAll(vs).value)
    decreases vs, 0
  {
    if vs != [] {
      FlattenAllGivesClauses(vs[..|vs| - 1]);
      FlattenGivesClauses(vs[|vs| - 1]);
    }
  }

  /** `false` itself, or a conjunction that contains it at any depth. */
  predicate ContainsFalse(v: Value)
    decreases v, 1
  {
    v == FALSE || (IsAndFilter(v) && AnyContainsFalse(v.fields[AND].items))
  }

  predicate AnyContainsFalse(vs: seq<Value>)
    decreases vs, 0
  {
    vs != [] && (AnyContainsFalse(vs[..|vs| - 1]) || ContainsFalse(vs[|vs| - 1]))
  }

  lemma {:induction false} NothingLeftIffFalse(v: Value)
    ensures Flatten(v).None? <==> ContainsFalse(v)
    decreases v, 1
  {
    if IsAndFilter(v) {
      NothingLeftIffAnyFalse(v.fields[AND].items);
    }
  }

  lemma {:induction false} NothingLeftIffAnyFalse(vs: seq<Value>)
    ensures FlattenAll(vs).None? <==> AnyContainsFalse(vs)
    decreases vs, 0
  {
    if vs != [] {
      NothingLeftIffAnyFalse(vs[..|vs| - 1]);
      NothingLeftIffFalse(vs[|vs| - 1]);
    }
  }

  lemma OptimizedShape(inputs: seq<Value>)
    ensures IsNormal(Optimize(inputs))
    ensures Optimize(inputs) == FALSE <==> AnyContainsFalse(inputs)
  {
    FlattenAllGivesClauses(inputs);
    FinalGivesClauses(FlattenAll(inputs));
    NothingLeftIffAnyFalse(inputs);
  }

  /** `false` anywhere among the conjuncts, at any depth, gives `false`, and nothing else does. */
  lemma FalseIffContained(filters: seq<Value>)
    ensures Intersect(filters) == FALSE <==> AnyContainsFalse(filters)
  {
    OptimizedShape(filters);
  }

  lemma NormalizeGivesNormalForm(filter: Value)
    ensures IsNormal(Normalize(filter))
  {
    if IsAndFilter(filter) {
      OptimizedShape(Clauses(filter));
    }
  }

  // ---------------------------------------------------------------- normalizing again changes nothing

  /** No clause repeats the key of an earlier one. */
  predicate AreDistinct(cs: seq<Value>) {
    forall i, j :: 0 <= i < j < |cs| && DedupeKey(cs[j]).Some? ==> DedupeKey(cs[i]) != DedupeKey(cs[j])
  }

  lemma {:induction false} DedupeMakesDistinct(cs: seq<Value>)
    ensures AreDistinct(Dedupe(cs))
    ensures forall i :: 0 <= i < |Dedupe(cs)| ==> Dedupe(cs)[i] in cs
  {
    if cs != [] {
      var n := |cs| - 1;
      DedupeMakesDistinct(cs[..n]);
      var d := Dedupe(cs[..n]);
      forall i | 0 <= i < |d|
        ensures d[i] in cs
        ensures DedupeKey(cs[n]).Some? && !IsRepeated(cs[..n], cs[n]) ==> DedupeKey(d[i]) != DedupeKey(cs[n])
      {
        assert d[i] in cs[..n];
        var j :| 0 <= j < n && cs[..n][j] == d[i];
        assert DedupeKey(cs[..n][j]) == DedupeKey(d[i]) && cs[j] == d[i];
      }
    }
  }

  lemma {:induction false} DistinctStays(cs: seq<Value>)
    requires AreDistinct(cs)
    ensures Dedupe(cs) == cs
  {
    if cs != [] {
      var n := |cs| - 1;
      DistinctStays(cs[..n]);
      assert cs[..n] + [cs[n]] == cs;
    }
  }

  /** What merging leaves over stays in conflict with what it has merged. */
  lemma {:induction false} MergeLeavesConflicts(cs: seq<Value>)
    requires AreDistinct(cs)
    ensures
      var m := MergeAll(cs);
      && AreDistinct(m.remaining)
      && (forall i :: 0 <= i < |m.remaining| ==> m.remaining[i] in cs)
      && (forall i :: 0 <= i < |m.remaining| ==> !CanMerge(m.fields, m.remaining[i]))
  {
    if cs != [] {
      var n := |cs| - 1;
      var before, m := MergeAll(cs[..n]), MergeAll(cs);
      MergeLeavesConflicts(cs[..n]);
      forall i | 0 <= i < |before.remaining|
        ensures before.remaining[i] in cs
        ensures DedupeKey(cs[n]).Some? ==> DedupeKey(before.remaining[i]) != DedupeKey(cs[n])
        ensures !CanMerge(m.fields, before.remaining[i])
      {
        var j :| 0 <= j < n && cs[..n][j] == before.remaining[i];
        assert cs[j] == before.remaining[i];
        ConflictsPersist(before.fields, m.fields, before.remaining[i]);
      }
    }
  }

  lemma ConflictsPersist(before: map<string, Value>, after: map<string, Value>, clause: Value)
    requires !CanMerge(before, clause)
    requires forall k :: k in before ==> k in after && Same(after[k], before[k])
    ensures !CanMerge(after, clause)
  {
  }

  lemma {:induction false} ConflictsRemain(start: seq<Value>, rest: seq<Value>)
    requires forall i :: 0 <= i < |rest| ==> !CanMerge(MergeAll(start).fields, rest[i])
    ensures MergeAll(start + rest)
         == Merged(MergeAll(start).fields, MergeAll(start).order, MergeAll(start).remaining + rest)
  {
    if rest == [] {
      assert start + rest == start;
    } else {
      var n := |rest| - 1;
      ConflictsRemain(start, rest[..n]);
      LastOfConcat(start, rest);
      LastOfConcat(MergeAll(start).remaining, rest);
    }
  }

  lemma LastOfConcat<T>(a: seq<T>, b: seq<T>)
    requires b != []
    ensures (a + b)[..|a + b| - 1] == a + b[..|b| - 1] && (a + b)[|a + b| - 1] == b[|b| - 1]
    ensures a + b[..|b| - 1] + [b[|b| - 1]] == a + b
  {
  }

  lemma MergeAgain(cs: seq<Value>)
    requires AreDistinct(cs) && AreClauses(cs)
    ensures AreDistinct(Merge(cs)) && Merge(Merge(cs)) == Merge(cs)
  {
    var m := MergeAll(cs);
    MergeLeavesConflicts(cs);
    MergeAllKeepsClauses(cs);
    if m.fields == map[] {
      ConflictsRemain([], m.remaining);
      assert [] + m.remaining == m.remaining;
    } else {
      var first := Obj(m.fields, m.order);
      MergedIsMergeable(cs);
      MergeAlone(first);
      ConflictsRemain([first], m.remaining);
      assert [] + m.remaining == m.remaining;
      MergedIsDistinct(first, m.remaining);
    }
  }

  lemma {:induction false} AllKeysAreNew(order: seq<string>)
    ensures NewKeys(order, {}) == order
  {
    if order != [] {
      AllKeysAreNew(order[1..]);
      assert order == [order[0]] + order[1..];
    }
  }

  lemma MergeAlone(clause: Value)
    requires IsMergeable(clause)
    ensures MergeAll([clause]) == Merged(clause.fields, clause.order, [])
  {
    var one, nothing := [clause], Merged(map[], [], []);
    assert one[..0] == [] && MergeAll(one[..0]) == nothing;
    AllKeysAreNew(clause.order);
    assert nothing.fields.Keys == {} && CanMerge(nothing.fields, clause);
    assert nothing.fields + clause.fields == clause.fields && [] + clause.order == clause.order;
    assert MergeInto(nothing, clause) == Merged(clause.fields, clause.order, []);
  }

  lemma MergedIsDistinct(merged: Value, remaining: seq<Value>)
    requires AreDistinct(remaining) && IsMergeable(merged)
    requires forall i :: 0 <= i < |remaining| ==> !CanMerge(merged.fields, remaining[i])
    ensures AreDistinct([merged] + remaining)
  {
    forall i | 0 <= i < |remaining| && DedupeKey(remaining[i]).Some?
      ensures DedupeKey(merged) != DedupeKey(remaining[i])
    {
      if DedupeKey(merged) == DedupeKey(remaining[i]) {
        DedupeKeyIsInjective(merged, remaining[i]);
        SameFields(merged, remaining[i]);
      }
    }
  }

  lemma {:induction false} ClausesAreFlat(cs: seq<Value>)
    requires AreClauses(cs)
    ensures FlattenAll(cs) == Some(cs)
  {
    if cs != [] {
      var n := |cs| - 1;
      ClausesAreFlat(cs[..n]);
      assert cs[..n] + [cs[n]] == cs;
    }
  }

  lemma OptimizeAgain(inputs: seq<Value>)
    ensures Normalize(Optimize(inputs)) == Optimize(inputs)
  {
    var flat := FlattenAll(inputs);
    if flat.Some? {
      FlattenAllGivesClauses(inputs);
      FinalGivesClauses(flat);
      DedupeMakesDistinct(flat.value);
      DedupeKeepsClauses(flat.value);
      MergeAgain(Dedupe(flat.value));
      var final := Merge(Dedupe(flat.value));
      ClausesAreFlat(final);
      DistinctStays(final);
    }
  }

  /** Both are fields only, and they give some field two values. */
  predicate InConflict(a: Value, b: Value) {
    IsMergeable(a) && IsMergeable(b) && exists k :: k in a.fields && k in b.fields && !Same(a.fields[k], b.fields[k])
  }

  /** No clause repeats another, and whatever clause is left beside the first has operators or conflicts with it. */
  predicate IsCompact(cs: seq<Value>) {
    && AreDistinct(cs)
    && forall i :: 0 < i < |cs| ==> !IsMergeable(cs[i]) || InConflict(cs[0], cs[i])
  }

  lemma MergeIsCompact(cs: seq<Value>)
    requires AreDistinct(cs) && AreClauses(cs)
    ensures IsCompact(Merge(cs))
  {
    var m := MergeAll(cs);
    MergeAgain(cs);
    MergeLeavesConflicts(cs);
    if m.fields != map[] {
      MergedIsMergeable(cs);
    }
  }

  /** What an intersection puts under one conjunction is deduplicated and merged as far as it can be. */
  lemma IntersectionIsCompact(filters: seq<Value>)
    ensures IsAndFilter(Intersect(filters)) ==> IsCompact(Clauses(Intersect(filters)))
  {
    var flat := FlattenAll(filters);
    if flat.Some? {
      FlattenAllGivesClauses(filters);
      DedupeMakesDistinct(flat.value);
      DedupeKeepsClauses(flat.value);
      MergeIsCompact(Dedupe(flat.value));
      OptimizedShape(filters);
      FinalGivesClauses(flat);
    }
  }

  /** Normalizing a normalized filter changes nothing. */
  lemma NormalizeIsIdempotent(filter: Value)
    ensures Normalize(Normalize(filter)) == Normalize(filter)
  {
    if IsAndFilter(filter) {
      OptimizeAgain(Clauses(filter));
    }
  }
}
