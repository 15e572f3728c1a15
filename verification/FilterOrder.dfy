/**
 What the intersection of filters matches, when two values may differ in nothing but the
 order of their keys, which the code ignores and a database may not. A filter is read as
 the conditions it sets, and the question is which of these the intersection keeps.
 */
module FilterOrder {
  import opened Options
  import opened FilterKeys
  import opened FilterConjunction

  // ---------------------------------------------------------------- the conditions of a filter

  /** What a document must meet: a value under a key, or, for `false`, what none meets. */
  datatype Condition = Never | Condition(key: string, value: Value)

  predicate IsMet(c: Condition, doc: Document) {
    c.Condition? && doc(c.key, c.value)
  }

  /** Whether a filter sets a condition, at any depth of its conjunctions. */
  predicate Has(v: Value, c: Condition)
    decreases v, 2
  {
    match v
    case Bool(b) => !b && c.Never?
    case Obj(fields, _) => exists k :: k in fields && FieldHas(k, fields[k], c)
    case _ => false
  }

  predicate FieldHas(key: string, value: Value, c: Condition)
    decreases value, 1
  {
    if key == AND && value.Arr? then AnyHas(value.items, c) else c == Condition(key, value)
  }

  predicate AnyHas(vs: seq<Value>, c: Condition)
    decreases vs, 0
  {
    vs != [] && (AnyHas(vs[..|vs| - 1], c) || Has(vs[|vs| - 1], c))
  }

  lemma {:induction false} MatchesIffMet(v: Value, doc: Document)
    ensures Matches(v, doc) <==> forall c :: Has(v, c) ==> IsMet(c, doc)
    decreases v, 2
  {
    if v.Obj? {
      forall k | k in v.fields
        ensures Meets(k, v.fields[k], doc) <==> forall c :: FieldHas(k, v.fields[k], c) ==> IsMet(c, doc)
      {
        FieldIffMet(k, v.fields[k], doc);
      }
      assert forall k, c :: k in v.fields && FieldHas(k, v.fields[k], c) ==> Has(v, c);
    } else if v == FALSE {
      assert Has(v, Never);
    }
  }

  lemma {:induction false} FieldIffMet(key: string, value: Value, doc: Document)
    ensures Meets(key, value, doc) <==> forall c :: FieldHas(key, value, c) ==> IsMet(c, doc)
    decreases value, 1
  {
    if key == AND && value.Arr? {
      AllIffMet(value.items, doc);
    } else {
      var own := Condition(key, value);
      assert FieldHas(key, value, own) && IsMet(own, doc) == Meets(key, value, doc);
      assert forall c :: FieldHas(key, value, c) ==> c == own;
    }
  }

  lemma {:induction false} AllIffMet(vs: seq<Value>, doc: Document)
    ensures AllMatch(vs, doc) <==> forall c :: AnyHas(vs, c) ==> IsMet(c, doc)
    decreases vs, 0
  {
    if vs != [] {
      AllIffMet(vs[..|vs| - 1], doc);
      MatchesIffMet(vs[|vs| - 1], doc);
    }
  }

  lemma {:induction false} AnyHasMeansSome(vs: seq<Value>, c: Condition)
    ensures AnyHas(vs, c) <==> exists i :: 0 <= i < |vs| && Has(vs[i], c)
  {
    if vs != [] {
      var n := |vs| - 1;
      AnyHasMeansSome(vs[..n], c);
      if i :| 0 <= i < n && Has(vs[i], c) {
        assert Has(vs[..n][i], c);
      }
    }
  }

  lemma AnyHasConcat(a: seq<Value>, b: seq<Value>, c: Condition)
    ensures AnyHas(a + b, c) <==> AnyHas(a, c) || AnyHas(b, c)
  {
    AnyHasMeansSome(a, c);
    AnyHasMeansSome(b, c);
    AnyHasMeansSome(a + b, c);
    if i :| 0 <= i < |a| && Has(a[i], c) {
      assert Has((a + b)[i], c);
    }
    if i :| 0 <= i < |b| && Has(b[i], c) {
      assert Has((a + b)[|a| + i], c);
    }
  }

  lemma OneHas(v: Value, c: Condition)
    ensures AnyHas([v], c) <==> Has(v, c)
  {
    assert [v][..0] == [];
  }

  // ---------------------------------------------------------------- no condition is new

  lemma AndHas(v: Value, c: Condition)
    requires IsAndFilter(v)
    ensures Has(v, c) <==> AnyHas(Clauses(v), c)
  {
    assert AND in v.fields;
    assert AnyHas(Clauses(v), c) ==> FieldHas(AND, v.fields[AND], c);
  }

  lemma {:induction false} FlattenHasNothingNew(v: Value, c: Condition)
    requires Flatten(v).Some? && AnyHas(Flatten(v).value, c)
    ensures Has(v, c)
    decreases v, 1
  {
    if IsAndFilter(v) {
      FinalHasNothingNew(FlattenAll(v.fields[AND].items).value, c);
      FlattenAllHasNothingNew(v.fields[AND].items, c);
      AndHas(v, c);
    } else if v.Obj? && v.fields != map[] {
      OneHas(v, c);
    }
  }

  lemma {:induction false} FlattenAllHasNothingNew(vs: seq<Value>, c: Condition)
    requires FlattenAll(vs).Some? && AnyHas(FlattenAll(vs).value, c)
    ensures AnyHas(vs, c)
    decreases vs, 0
  {
    if vs != [] {
      var n := |vs| - 1;
      AnyHasConcat(FlattenAll(vs[..n]).value, Flatten(vs[n]).value, c);
      if AnyHas(FlattenAll(vs[..n]).value, c) {
        FlattenAllHasNothingNew(vs[..n], c);
      } else {
        FlattenHasNothingNew(vs[n], c);
      }
    }
  }

  lemma {:induction false} DedupeHasNothingNew(cs: seq<Value>, c: Condition)
    requires AnyHas(Dedupe(cs), c)
    ensures AnyHas(cs, c)
  {
    if cs != [] {
      var n := |cs| - 1;
      if !IsRepeated(cs[..n], cs[n]) {
        AnyHasConcat(Dedupe(cs[..n]), [cs[n]], c);
        OneHas(cs[n], c);
      }
      if AnyHas(Dedupe(cs[..n]), c) {
        DedupeHasNothingNew(cs[..n], c);
      }
    }
  }

  lemma {:induction false} MergeAllHasNothingNew(cs: seq<Value>, c: Condition)
    requires Has(Obj(MergeAll(cs).fields, MergeAll(cs).order), c) || AnyHas(MergeAll(cs).remaining, c)
    ensures AnyHas(cs, c)
  {
    if cs != [] {
      var n := |cs| - 1;
      var m := MergeAll(cs[..n]);
      if CanMerge(m.fields, cs[n]) {
        if !AnyHas(m.remaining, c) {
          MergedHasNothingNew(m, cs[n], c);
        }
      } else {
        AnyHasConcat(m.remaining, [cs[n]], c);
        OneHas(cs[n], c);
      }
      if Has(Obj(m.fields, m.order), c) || AnyHas(m.remaining, c) {
        MergeAllHasNothingNew(cs[..n], c);
      }
    }
  }

  lemma MergedHasNothingNew(m: Merged, clause: Value, c: Condition)
    requires clause.Obj? && Has(Obj(MergeInto(m, clause).fields, MergeInto(m, clause).order), c)
    ensures Has(Obj(m.fields, m.order), c) || Has(clause, c)
  {
    var fields := MergeInto(m, clause).fields;
    var k :| k in fields && FieldHas(k, fields[k], c);
    assert (k in clause.fields && fields[k] == clause.fields[k]) || (k in m.fields && fields[k] == m.fields[k]);
  }

  lemma FinalHasNothingNew(cs: seq<Value>, c: Condition)
    requires AnyHas(Merge(Dedupe(cs)), c)
    ensures AnyHas(cs, c)
  {
    var m := MergeAll(Dedupe(cs));
    if m.fields != map[] {
      AnyHasConcat([Obj(m.fields, m.order)], m.remaining, c);
      OneHas(Obj(m.fields, m.order), c);
    }
    MergeAllHasNothingNew(Dedupe(cs), c);
    DedupeHasNothingNew(cs, c);
  }

  /** Every condition of an intersection is one of its filters'. */
  lemma IntersectHasNothingNew(filters: seq<Value>, c: Condition)
    requires Has(Intersect(filters), c)
    ensures AnyHas(filters, c)
  {
    var flat := FlattenAll(filters);
    if flat.None? {
      NothingLeftIffAnyFalse(filters);
      AnyFalseIsNever(filters);
    } else {
      var final := Merge(Dedupe(flat.value));
      if |final| == 1 {
        assert final == [final[0]];
        OneHas(final[0], c);
      } else if |final| > 1 {
        AndHas(And(final), c);
      }
      FinalHasNothingNew(flat.value, c);
      FlattenAllHasNothingNew(filters, c);
    }
  }

  lemma {:induction false} FalseIsNever(v: Value)
    requires ContainsFalse(v)
    ensures Has(v, Never)
    decreases v, 1
  {
    if IsAndFilter(v) {
      AnyFalseIsNever(v.fields[AND].items);
      AndHas(v, Never);
    }
  }

  lemma {:induction false} AnyFalseIsNever(vs: seq<Value>)
    requires AnyContainsFalse(vs)
    ensures AnyHas(vs, Never)
    decreases vs, 0
  {
    var n := |vs| - 1;
    if AnyContainsFalse(vs[..n]) {
      AnyFalseIsNever(vs[..n]);
    } else {
      FalseIsNever(vs[n]);
    }
  }

  // ---------------------------------------------------------------- where the order of keys is one

  /** Two different conditions that the code takes for one. */
  predicate AreConfused(key: string, a: Value, b: Value) {
    a != b && Same(a, b) && IsCompared(key, a)
  }

  /** No two conditions of these filters are taken for one: what differs, differs in more than the order of keys. */
  ghost predicate OneOrder(filters: seq<Value>) {
    forall key, a, b :: AnyHas(filters, Condition(key, a)) && AnyHas(filters, Condition(key, b)) ==>
                          !AreConfused(key, a, b)
  }

  /** A document that tells no two conditions of these filters apart that the code takes for one. */
  ghost predicate IgnoresOrderAmong(filters: seq<Value>, doc: Document) {
    forall key, a, b :: AnyHas(filters, Condition(key, a)) && AnyHas(filters, Condition(key, b)) ==>
                          (AreConfused(key, a, b) ==> doc(key, a) == doc(key, b))
  }

  /** Whether a document meets all conditions of these filters that are the same but for the order of keys. */
  ghost predicate MeetsSame(filters: seq<Value>, doc: Document, key: string, v: Value) {
    forall a :: AnyHas(filters, Condition(key, a)) && Same(a, v) ==> doc(key, a)
  }

  /** A document that agrees on the conditions of these filters, and takes the same values for one. */
  ghost function Forgetful(filters: seq<Value>, doc: Document): Document {
    (key, v) => if IsCompared(key, v) then MeetsSame(filters, doc, key, v) else doc(key, v)
  }

  lemma SameAreCompared(key: string, a: Value, b: Value)
    requires Same(a, b)
    ensures IsCompared(key, a) == IsCompared(key, b)
  {
    SameHaveOneKey(a, b);
    SameKind(a, b);
  }

  lemma ForgetfulForgets(filters: seq<Value>, doc: Document)
    ensures ForgetsOrder(Forgetful(filters, doc))
  {
    var forgetful := Forgetful(filters, doc);
    forall key, a, b | Same(a, b) && IsCompared(key, a)
      ensures forgetful(key, a) == forgetful(key, b)
    {
      SameAreCompared(key, a, b);
      assert MeetsSame(filters, doc, key, a) == MeetsSame(filters, doc, key, b);
    }
  }

  lemma ForgetfulAgrees(filters: seq<Value>, doc: Document, c: Condition)
    requires IgnoresOrderAmong(filters, doc) && AnyHas(filters, c)
    ensures IsMet(c, Forgetful(filters, doc)) == IsMet(c, doc)
  {
    if c.Condition? && IsCompared(c.key, c.value) {
      forall a | AnyHas(filters, Condition(c.key, a)) && Same(a, c.value)
        ensures doc(c.key, a) == doc(c.key, c.value)
      {
        if a != c.value {
          assert AreConfused(c.key, c.value, a);
        }
      }
      assert AnyHas(filters, Condition(c.key, c.value)) && Same(c.value, c.value);
      assert MeetsSame(filters, doc, c.key, c.value) == doc(c.key, c.value);
    }
  }

  /** The intersection matches every document that ignores the order of keys among the filters' own conditions. */
  lemma IntersectionMatchesAll(filters: seq<Value>, doc: Document)
    requires IgnoresOrderAmong(filters, doc)
    ensures Matches(Intersect(filters), doc) <==> AllMatch(filters, doc)
  {
    var forgetful := Forgetful(filters, doc);
    ForgetfulForgets(filters, doc);
    OptimizeKeepsMeaning(filters, forgetful);
    forall c | AnyHas(filters, c)
      ensures IsMet(c, forgetful) == IsMet(c, doc)
    {
      ForgetfulAgrees(filters, doc, c);
    }
    AllIffMet(filters, doc);
    AllIffMet(filters, forgetful);
    forall c | Has(Intersect(filters), c)
      ensures AnyHas(filters, c)
    {
      IntersectHasNothingNew(filters, c);
    }
    MatchesIffMet(Intersect(filters), doc);
    MatchesIffMet(Intersect(filters), forgetful);
  }

  /** Filters whose conditions have one order are intersected as they should be, for every document. */
  lemma OneOrderIsIgnored(filters: seq<Value>, doc: Document)
    requires OneOrder(filters)
    ensures IgnoresOrderAmong(filters, doc)
    ensures Matches(Intersect(filters), doc) <==> AllMatch(filters, doc)
  {
    IntersectionMatchesAll(filters, doc);
  }

  lemma NormalizeKeepsMeaning(filter: Value, doc: Document)
    requires OneOrder([filter]) || IgnoresOrderAmong([filter], doc)
    ensures Matches(Normalize(filter), doc) <==> Matches(filter, doc)
  {
    if IsAndFilter(filter) {
      forall c
        ensures AnyHas([filter], c) <==> AnyHas(Clauses(filter), c)
      {
        OneHas(filter, c);
        AndHas(filter, c);
      }
      AndMatches(filter, doc);
      IntersectionMatchesAll(Clauses(filter), doc);
    }
  }

  // ---------------------------------------------------------------- exactly when nothing is lost

  /** Every condition of the filters is still one of their intersection. */
  ghost predicate NothingIsLost(filters: seq<Value>) {
    forall c :: AnyHas(filters, c) ==> Has(Intersect(filters), c)
  }

  /**
   An intersection matches as it should, for every document, exactly when it matches
   nothing at all or no condition is lost.
   */
  lemma IntersectionIsExactIffNothingIsLost(filters: seq<Value>)
    ensures (forall doc: Document :: Matches(Intersect(filters), doc) <==> AllMatch(filters, doc))
       <==> Has(Intersect(filters), Never) || NothingIsLost(filters)
  {
    forall c | Has(Intersect(filters), c)
      ensures AnyHas(filters, c)
    {
      IntersectHasNothingNew(filters, c);
    }
    if Has(Intersect(filters), Never) || NothingIsLost(filters) {
      forall doc: Document
        ensures Matches(Intersect(filters), doc) <==> AllMatch(filters, doc)
      {
        MatchesIffMet(Intersect(filters), doc);
        AllIffMet(filters, doc);
        assert !IsMet(Never, doc);
      }
    } else {
      var c :| AnyHas(filters, c) && !Has(Intersect(filters), c);
      var doc := LosingShows(filters, c);
      assert Matches(Intersect(filters), doc) && !AllMatch(filters, doc);
    }
  }

  /** A document that fails the lost condition, and meets every other. */
  lemma LosingShows(filters: seq<Value>, lost: Condition) returns (doc: Document)
    requires AnyHas(filters, lost) && !Has(Intersect(filters), lost) && !Has(Intersect(filters), Never)
    ensures Matches(Intersect(filters), doc) && !AllMatch(filters, doc)
  {
    doc := (key, v) => lost != Condition(key, v);
    forall c | Has(Intersect(filters), c)
      ensures IsMet(c, doc)
    {
      assert c == Condition(c.key, c.value);
    }
    MatchesIffMet(Intersect(filters), doc);
    AllIffMet(filters, doc);
    assert !IsMet(lost, doc);
  }

  // ---------------------------------------------------------------- where the order of keys matters

  /** A filter with one condition. */
  function Single(key: string, value: Value): Value {
    Obj(map[key := value], [key])
  }

  lemma SingleMatches(key: string, value: Value, doc: Document)
    requires !(key == AND && value.Arr?)
    ensures Matches(Single(key, value), doc) == doc(key, value)
    ensures Flatten(Single(key, value)) == Some([Single(key, value)])
  {
    var v := Single(key, value);
    assert key in v.fields;
    assert Matches(v, doc) == Meets(key, value, doc);
  }

  lemma PairIsFlat(a: Value, b: Value)
    requires Flatten(a) == Some([a]) && Flatten(b) == Some([b])
    ensures FlattenAll([a, b]) == Some([a, b])
  {
    var pair := [a, b];
    var one := pair[..1];
    assert one == [a] && one[..0] == [] && FlattenAll(one[..0]) == Some([]);
    assert [] + [a] == [a] && FlattenAll(one) == Some([a]);
    assert [a] + [b] == pair;
  }

  /** Of two clauses with one key the first remains. */
  lemma FirstRemains(a: Value, b: Value, doc: Document)
    requires DedupeKey(a).Some? && DedupeKey(a) == DedupeKey(b)
    requires Flatten(a) == Some([a]) && Flatten(b) == Some([b]) && a.Obj?
    ensures Matches(Intersect([a, b]), doc) == Matches(a, doc)
  {
    PairIsFlat(a, b);
    SecondIsDropped(a, b);
    AloneRemains(a);
    assert Optimize([a, b]) == Conjoin(Some(Merge([a])));
  }

  lemma SecondIsDropped(a: Value, b: Value)
    requires DedupeKey(a).Some? && DedupeKey(a) == DedupeKey(b)
    ensures Dedupe([a, b]) == [a]
  {
    assert DedupeKey([a][0]) == DedupeKey(b);
    LastIsDropped([a], b);
    OneIsKept(a);
    assert [a] + [b] == [a, b];
  }

  lemma LastIsDropped(cs: seq<Value>, c: Value)
    requires IsRepeated(cs, c)
    ensures Dedupe(cs + [c]) == Dedupe(cs)
  {
    assert (cs + [c])[..|cs|] == cs;
  }

  lemma OneIsKept(a: Value)
    ensures Dedupe([a]) == [a]
  {
    var one := [a];
    assert one[..0] == [] && Dedupe(one[..0]) == [];
    assert [] + [a] == one;
  }

  lemma AloneRemains(a: Value)
    requires a.Obj?
    ensures Merge([a]) == [a] || (a.fields == map[] && Merge([a]) == [])
  {
    if IsMergeable(a) {
      MergeAlone(a);
    } else {
      var one := [a];
      assert one[..0] == [] && MergeAll(one[..0]) == Merged(map[], [], []);
      assert [] + [a] == [a];
    }
  }

  lemma SingleHasNoKey(key: string, value: Value)
    requires DedupeKey(value).None?
    ensures DedupeKey(Single(key, value)).None?
  {
    assert key in Single(key, value).fields;
  }

  lemma SinglesMerge(key: string, a: Value, b: Value)
    requires (key == [] || key[0] != '$') && Same(a, b)
    ensures Merge([Single(key, a), Single(key, b)]) == [Single(key, b)]
  {
    var x, y := Single(key, a), Single(key, b);
    var pair := [x, y];
    assert pair[..1] == [x];
    MergeAlone(x);
    assert CanMerge(x.fields, y);
    assert x.fields + y.fields == map[key := b];
    assert NewKeys([key], x.fields.Keys) == [] by {
      assert key in x.fields.Keys && [key][1..] == [];
    }
    assert [key] + [] == [key];
    assert MergeAll(pair) == Merged(map[key := b], [key], []);
    assert key in y.fields;
  }

  /** Of two conditions on one field that merge, the second remains. */
  lemma SecondRemains(key: string, a: Value, b: Value, doc: Document)
    requires (key == [] || key[0] != '$') && Same(a, b) && DedupeKey(a).None?
    ensures Matches(Intersect([Single(key, a), Single(key, b)]), doc) == doc(key, b)
  {
    var x, y := Single(key, a), Single(key, b);
    SameHaveOneKey(a, b);
    SingleHasNoKey(key, a);
    SingleHasNoKey(key, b);
    SingleMatches(key, a, doc);
    SingleMatches(key, b, doc);
    PairIsFlat(x, y);
    DistinctStays([x, y]);
    SinglesMerge(key, a, b);
  }

  /** A document for which the order of keys does not matter where the code ignores it. */
  ghost predicate IgnoresOrder(doc: Document) {
    forall key, a, b :: IsOrdered(a) && IsOrdered(b) && Same(a, b) && IsCompared(key, a) ==> doc(key, a) == doc(key, b)
  }

  predicate AreOrdered(vs: seq<Value>) {
    forall i :: 0 <= i < |vs| ==> IsOrdered(vs[i])
  }

  lemma {:induction false} ConditionIsOrdered(v: Value, c: Condition)
    requires IsOrdered(v) && Has(v, c) && c.Condition?
    ensures IsOrdered(c.value)
    decreases v
  {
    var k :| k in v.fields && FieldHas(k, v.fields[k], c);
    if k == AND && v.fields[k].Arr? {
      AnyHasMeansSome(v.fields[k].items, c);
      var i :| 0 <= i < |v.fields[k].items| && Has(v.fields[k].items[i], c);
      ConditionIsOrdered(v.fields[k].items[i], c);
    }
  }

  lemma IgnoredAmongAll(filters: seq<Value>, doc: Document)
    requires AreOrdered(filters) && IgnoresOrder(doc)
    ensures IgnoresOrderAmong(filters, doc)
  {
    forall c | AnyHas(filters, c) && c.Condition?
      ensures IsOrdered(c.value)
    {
      AnyHasMeansSome(filters, c);
      var i :| 0 <= i < |filters| && Has(filters[i], c);
      ConditionIsOrdered(filters[i], c);
    }
  }

  /** For every document that does not ignore the order of keys there are filters whose intersection is wrong. */
  lemma OrderMatters(doc: Document) returns (filters: seq<Value>)
    requires !IgnoresOrder(doc)
    ensures AreOrdered(filters) && Matches(Intersect(filters), doc) && !AllMatch(filters, doc)
  {
    var key, a, b :|
      IsOrdered(a) && IsOrdered(b) && Same(a, b) && IsCompared(key, a) && doc(key, a) != doc(key, b);
    var yes, no := if doc(key, a) then a else b, if doc(key, a) then b else a;
    SameAreCompared(key, a, b);
    filters := SinglesDiffer(key, yes, no, doc);
  }

  lemma SinglesAreOrdered(key: string, a: Value, b: Value)
    requires IsOrdered(a) && IsOrdered(b)
    ensures AreOrdered([Single(key, a), Single(key, b)]) && AreOrdered([Single(key, b), Single(key, a)])
  {
  }

  lemma SinglesDiffer(key: string, yes: Value, no: Value, doc: Document) returns (filters: seq<Value>)
    requires IsOrdered(yes) && IsOrdered(no) && Same(yes, no) && IsCompared(key, yes)
    requires doc(key, yes) && !doc(key, no)
    ensures AreOrdered(filters) && Matches(Intersect(filters), doc) && !AllMatch(filters, doc)
  {
    if DedupeKey(yes).Some? {
      filters := [Single(key, yes), Single(key, no)];
      FirstOfTwoRemains(key, yes, no, doc);
      OneFails(filters, 1, doc);
    } else {
      filters := [Single(key, no), Single(key, yes)];
      SecondOfTwoRemains(key, no, yes, doc);
      OneFails(filters, 0, doc);
    }
    SinglesAreOrdered(key, yes, no);
  }

  lemma SecondOfTwoRemains(key: string, a: Value, b: Value, doc: Document)
    requires (key == [] || key[0] != '$') && Same(a, b) && DedupeKey(b).None?
    ensures Matches(Intersect([Single(key, a), Single(key, b)]), doc) == doc(key, b)
    ensures Matches(Single(key, a), doc) == doc(key, a)
  {
    SameHaveOneKey(a, b);
    SingleMatches(key, a, doc);
    SecondRemains(key, a, b, doc);
  }

  lemma FirstOfTwoRemains(key: string, a: Value, b: Value, doc: Document)
    requires Same(a, b) && DedupeKey(a).Some? && !(key == AND && a.Arr?)
    ensures Matches(Intersect([Single(key, a), Single(key, b)]), doc) == doc(key, a)
    ensures Matches(Single(key, b), doc) == doc(key, b)
  {
    SameKind(a, b);
    SingleMatches(key, a, doc);
    SingleMatches(key, b, doc);
    SingleKeysAgree(key, a, b);
    FirstRemains(Single(key, a), Single(key, b), doc);
  }

  lemma OneFails(vs: seq<Value>, i: nat, doc: Document)
    requires i < |vs| && !Matches(vs[i], doc)
    ensures !AllMatch(vs, doc)
  {
    AllMatchMeansEach(vs, doc);
  }

  lemma SingleKeysAgree(key: string, a: Value, b: Value)
    requires Same(a, b) && DedupeKey(a).Some?
    ensures DedupeKey(Single(key, a)).Some? && DedupeKey(Single(key, a)) == DedupeKey(Single(key, b))
  {
    var x, y := Single(key, a), Single(key, b);
    assert forall k :: k in x.fields ==> x.fields[k] == a && y.fields[k] == b;
    SameFields(x, y);
    SameHaveOneKey(x, y);
  }

  /** Intersections of all filters match a document as they should exactly when it ignores the order of keys. */
  lemma IntersectionIsExactIffOrderIsIgnored(doc: Document)
    ensures (forall filters :: AreOrdered(filters) ==> (Matches(Intersect(filters), doc) <==> AllMatch(filters, doc)))
       <==> IgnoresOrder(doc)
  {
    if IgnoresOrder(doc) {
      forall filters | AreOrdered(filters)
        ensures Matches(Intersect(filters), doc) <==> AllMatch(filters, doc)
      {
        IgnoredAmongAll(filters, doc);
        IntersectionMatchesAll(filters, doc);
      }
    } else {
      var filters := OrderMatters(doc);
      assert AreOrdered(filters) && Matches(Intersect(filters), doc) && !AllMatch(filters, doc);
    }
  }

  /** A sub-document with two numbers, in one order or the other. */
  function Point(order: seq<string>): Value {
    Obj(map["x" := Number("1"), "y" := Number("2")], order)
  }

  /**
   Two filters on one field, for sub-documents in different orders: a document that has the
   first, as a database sees it that compares in order, meets the intersection and fails
   the second filter.
   */
  lemma SubDocumentsInTwoOrders() returns (filters: seq<Value>, doc: Document)
    ensures filters == [Single("a", Point(["x", "y"])), Single("a", Point(["y", "x"]))] && AreOrdered(filters)
    ensures forall value :: doc("a", value) <==> value == Point(["x", "y"])
    ensures Matches(Intersect(filters), doc) && !Matches(filters[1], doc)
  {
    var a, b := TwoPoints();
    filters, doc := TwoOrders("a", a, b);
  }

  lemma TwoPoints() returns (a: Value, b: Value)
    ensures a == Point(["x", "y"]) && b == Point(["y", "x"])
    ensures IsOrdered(a) && IsOrdered(b) && Same(a, b) && a != b && DedupeKey(a).Some?
  {
    var x, y := "x", "y";
    assert x[0] != y[0];
    var fields := map[x := Number("1"), y := Number("2")];
    a, b := InTwoOrders(fields, x, y);
  }

  lemma InTwoOrders(fields: map<string, Value>, x: string, y: string) returns (a: Value, b: Value)
    requires x != y && fields.Keys == {x, y} && forall k :: k in fields ==> fields[k].Number?
    ensures a == Obj(fields, [x, y]) && b == Obj(fields, [y, x])
    ensures IsOrdered(a) && IsOrdered(b) && Same(a, b) && a != b && DedupeKey(a).Some?
  {
    a, b := Obj(fields, [x, y]), Obj(fields, [y, x]);
    assert a.order[0] == x && b.order[0] == y && a.order[1] == y && b.order[1] == x;
    SameFields(a, b);
    NumbersHaveKeys(a);
  }

  lemma NumbersHaveKeys(v: Value)
    requires v.Obj? && forall k :: k in v.fields ==> v.fields[k].Number?
    ensures DedupeKey(v).Some?
  {
    assert forall k :: k in v.fields ==> DedupeKey(v.fields[k]).Some?;
  }

  lemma TwoOrders(field: string, a: Value, b: Value) returns (filters: seq<Value>, doc: Document)
    requires IsOrdered(a) && IsOrdered(b) && Same(a, b) && a != b && DedupeKey(a).Some? && field != AND
    ensures filters == [Single(field, a), Single(field, b)] && AreOrdered(filters)
    ensures forall value :: doc(field, value) <==> value == a
    ensures Matches(Intersect(filters), doc) && !Matches(filters[1], doc)
  {
    doc := (key, value) => key != field || value == a;
    filters := [Single(field, a), Single(field, b)];
    SinglesAreOrdered(field, a, b);
    FirstOfTwoRemains(field, a, b, doc);
  }
}
