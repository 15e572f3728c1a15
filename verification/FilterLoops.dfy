/**
 The loops that build a conjunction. They compute the specified filter, and so match the
 documents that all given filters match, unless two of their conditions differ in nothing
 but the order of keys.
 */
module FilterLoops {
  import opened Options
  import opened FilterKeys
  import opened FilterConjunction
  import opened FilterOrder
  import opened Sequences

  /** A normalized filter, taken apart again, is the filter's clauses. */
  lemma NormalizedIsFlat(v: Value)
    ensures Normalize(v) == FALSE <==> Flatten(v).None?
    ensures Normalize(v) != FALSE ==>
              Flatten(v).value == if Normalize(v) == Null then []
                                  else if IsAndFilter(Normalize(v)) then Clauses(Normalize(v))
                                  else [Normalize(v)]
  {
    FlattenGivesClauses(v);
  }

  lemma {:induction false} FalseIsFinal(vs: seq<Value>, i: nat)
    requires i <= |vs| && FlattenAll(vs[..i]).None?
    ensures FlattenAll(vs).None?
  {
    if i < |vs| {
      var n := |vs| - 1;
      assert vs[..n][..i] == vs[..i];
      FalseIsFinal(vs[..n], i);
    } else {
      assert vs[..i] == vs;
    }
  }

  method NormalizeFilter(filter: Value) returns (r: Value)
    ensures r == Normalize(filter)
    decreases filter, 1
  {
    if filter == FALSE {
      return FALSE;
    }
    if IsEmptyFilter(filter) {
      return Null;
    }
    if !IsAndFilter(filter) {
      return filter;
    }
    r := OptimizeAndFilter(filter.fields[AND].items);
  }

  method OptimizeAndFilter(inputs: seq<Value>) returns (r: Value)
    ensures r == Optimize(inputs)
    decreases inputs, 0
  {
    var clauses := [];
    for x := 0 to |inputs|
      invariant FlattenAll(inputs[..x]) == Some(clauses)
    {
      var clause := NormalizeFilter(inputs[x]);
      Prefix(inputs, x);
      NormalizedIsFlat(inputs[x]);
      if clause == FALSE {
        FalseIsFinal(inputs, x + 1);
        return FALSE;
      }
      if clause == Null {
        assert clauses + [] == clauses;
      } else {
        clauses := clauses + if IsAndFilter(clause) then Clauses(clause) else [clause];
      }
    }
    assert inputs[..|inputs|] == inputs;
    var deduped := DropRepeated(clauses);
    var fields, order, remaining := MergeClauses(deduped);
    var final := if fields == map[] then remaining else [Obj(fields, order)] + remaining;
    if |final| == 0 {
      return Null;
    }
    if |final| == 1 {
      return final[0];
    }
    return And(final);
  }

  function Keys(cs: seq<Value>): (r: seq<Option<string>>)
    ensures |r| == |cs|
    ensures forall i :: 0 <= i < |cs| ==> r[i] == DedupeKey(cs[i])
  {
    seq(|cs|, i requires 0 <= i < |cs| => DedupeKey(cs[i]))
  }

  function Seen(keys: seq<Option<string>>): set<string> {
    if keys == [] then {}
    else
      var n := |keys| - 1;
      if keys[n].Some? then Seen(keys[..n]) + {keys[n].value} else Seen(keys[..n])
  }

  lemma {:induction false} SeenAreKeys(keys: seq<Option<string>>, key: string)
    ensures key in Seen(keys) <==> exists j :: 0 <= j < |keys| && keys[j] == Some(key)
  {
    if keys != [] {
      var n := |keys| - 1;
      SeenAreKeys(keys[..n], key);
      if j :| 0 <= j < n && keys[j] == Some(key) {
        assert keys[..n][j] == keys[j];
      }
    }
  }

  lemma RepeatedIfSeen(before: seq<Value>, c: Value, key: Option<string>)
    requires key == DedupeKey(c)
    ensures IsRepeated(before, c) <==> key.Some? && key.value in Seen(Keys(before))
  {
    if key.Some? {
      SeenAreKeys(Keys(before), key.value);
      if j :| 0 <= j < |before| && DedupeKey(before[j]) == key {
        assert Keys(before)[j] == key;
      }
    }
  }

  lemma SeenStep(cs: seq<Value>, i: nat)
    requires i < |cs|
    ensures Seen(Keys(cs[..i + 1]))
         == if DedupeKey(cs[i]).Some? then Seen(Keys(cs[..i])) + {DedupeKey(cs[i]).value} else Seen(Keys(cs[..i]))
  {
    Prefix(cs, i);
    assert Keys(cs[..i + 1])[..i] == Keys(cs[..i]);
  }

  method DropRepeated(clauses: seq<Value>) returns (deduped: seq<Value>)
    ensures deduped == Dedupe(clauses)
  {
    deduped := [];
    var seen: set<string> := {};
    for x := 0 to |clauses|
      invariant deduped == Dedupe(clauses[..x]) && seen == Seen(Keys(clauses[..x]))
    {
      var key := DedupeKey(clauses[x]);
      Prefix(clauses, x);
      RepeatedIfSeen(clauses[..x], clauses[x], key);
      SeenStep(clauses, x);
      if key.Some? {
        if key.value in seen {
          continue;
        }
        seen := seen + {key.value};
      }
      deduped := deduped + [clauses[x]];
    }
    assert clauses[..|clauses|] == clauses;
  }

  method MergeClauses(clauses: seq<Value>)
    returns (merged: map<string, Value>, order: seq<string>, remaining: seq<Value>)
    ensures Merged(merged, order, remaining) == MergeAll(clauses)
  {
    merged, order, remaining := map[], [], [];
    for x := 0 to |clauses|
      invariant Merged(merged, order, remaining) == MergeAll(clauses[..x])
    {
      var clause := clauses[x];
      Prefix(clauses, x);
      var canMerge := false;
      if IsMergeable(clause) {
        canMerge := Agrees(merged, clause.fields);
      }
      if canMerge {
        order := order + NewKeys(clause.order, merged.Keys);
        merged := merged + clause.fields;
      } else {
        remaining := remaining + [clause];
      }
    }
    assert clauses[..|clauses|] == clauses;
  }

  /** Compares entry by entry, up to the first that disagrees. */
  method Agrees(merged: map<string, Value>, fields: map<string, Value>) returns (agrees: bool)
    ensures agrees <==> forall k :: k in fields && k in merged ==> Same(merged[k], fields[k])
  {
    var todo := fields.Keys;
    while todo != {}
      invariant todo <= fields.Keys
      invariant forall k :: k in fields && k in merged && k !in todo ==> Same(merged[k], fields[k])
      decreases |todo|
    {
      var key :| key in todo;
      if key in merged && !Same(merged[key], fields[key]) {
        return false;
      }
      todo := todo - {key};
    }
    return true;
  }

  method IntersectFilters(filters: seq<Value>) returns (r: Value)
    ensures r == Intersect(filters)
    ensures OneOrder(filters) ==> forall doc: Document :: Matches(r, doc) <==> AllMatch(filters, doc)
    ensures forall doc: Document :: IgnoresOrderAmong(filters, doc) ==> (Matches(r, doc) <==> AllMatch(filters, doc))
  {
    var optimized := OptimizeAndFilter(filters);
    r := if optimized == Null then Obj(map[], []) else optimized;
    forall doc: Document | IgnoresOrderAmong(filters, doc)
      ensures Matches(r, doc) <==> AllMatch(filters, doc)
    {
      IntersectionMatchesAll(filters, doc);
    }
    if OneOrder(filters) {
      forall doc: Document
        ensures Matches(r, doc) <==> AllMatch(filters, doc)
      {
        OneOrderIsIgnored(filters, doc);
      }
    }
  }
}
