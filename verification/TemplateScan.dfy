/**
 What the validator reports about a template and which references it contains, next to
 what the resolver does with it: the three walks agree.
 */
module TemplateScan {
  import opened TemplateModel
  import opened TemplateResolve

  datatype Step = Name(key: Key) | Index(i: nat)

  datatype Problem =
    | BadEscape | BadPath | Malformed | ParentAsField
    | ReferenceInPayload | ReferenceInOperator
    | DirectElemMatch | DirectClause
    | NotAnObject | FilterIsReference

  datatype Issue = Issue(problem: Problem, path: seq<Step>)

  // ---------------------------------------------------------------- the validator

  function StepOf(key: Key, i: nat): Step {
    if key.Item? then Index(i) else Name(key)
  }

  function Scan(v: Value, spot: Spot, path: seq<Step>): seq<Issue>
    decreases v, 2
  {
    if spot.Clause? then
      if IsReference(v) then [Issue(DirectClause, path)]
      else if IsObject(v) then ScanEntries(v.entries, Operand, path)
      else []
    else if IsEscape(v) then (if IsValidEscape(v) then [] else [Issue(BadEscape, path)])
    else if IsMarker(v) then (if IsValidMarker(v) then [] else [Issue(BadPath, path)])
    else if !v.Group? then []
    else if v.kind.Object? && HasMarkerKey(v.entries) then [Issue(Malformed, path)]
    else ScanEntries(v.entries, Operand, path)
  }

  function ScanEntries(es: seq<Entry>, items: Spot, path: seq<Step>): seq<Issue>
    decreases es, 0
  {
    if es == [] then []
    else
      var n := |es| - 1;
      ScanEntries(es[..n], items, path) + ScanEntry(es[n], items, path + [StepOf(es[n].key, n)])
  }

  function ScanEntry(e: Entry, items: Spot, path: seq<Step>): seq<Issue>
    decreases e, 0
  {
    match e.key
    case Item => Scan(e.value, items, path)
    case Parent => [Issue(ParentAsField, path)]
    case Payload(_) => if ContainsMarkerShape(e.value) then [Issue(ReferenceInPayload, path)] else []
    case Forbidden(_) => if ContainsMarkerShape(e.value) then [Issue(ReferenceInOperator, path)] else []
    case ElemMatch =>
      if IsReference(e.value) then [Issue(DirectElemMatch, path)] else Scan(e.value, Operand, path)
    case Field(_) => Scan(e.value, Bare, path)
    case _ =>
      if IsLogical(e.key) && IsArray(e.value)
      then ScanEntries(e.value.entries, Clause, path)
      else Scan(e.value, Operand, path)
  }

  function Validate(filter: Value): seq<Issue> {
    if !IsObject(filter) then [Issue(NotAnObject, [])]
    else if IsReference(filter) then [Issue(FilterIsReference, [])]
    else ScanEntries(filter.entries, Operand, [])
  }

  // ---------------------------------------------------------------- validator and resolver agree

  lemma {:induction false} ScanAgrees(v: Value, parent: Lookup, spot: Spot, path: seq<Step>)
    ensures Scan(v, spot, path) == [] ==> !Resolve(v, parent, spot).Invalid?
    ensures Scan(v, spot, path) != [] ==> !Resolve(v, parent, spot).Resolved?
    decreases v, 2
  {
    if v.Group? && !IsReference(v) {
      EntriesAgree(v.entries, parent, Operand, path);
    }
  }

  lemma {:induction false} EntriesAgree(es: seq<Entry>, parent: Lookup, items: Spot, path: seq<Step>)
    ensures ScanEntries(es, items, path) == [] ==> !ResolveEntries(es, parent, items).Invalid?
    ensures ScanEntries(es, items, path) != [] ==> !ResolveEntries(es, parent, items).Resolved?
    decreases es, 0
  {
    if es != [] {
      var n := |es| - 1;
      EntriesAgree(es[..n], parent, items, path);
      EntryAgrees(es[n], parent, items, path + [StepOf(es[n].key, n)]);
    }
  }

  lemma {:induction false} EntryAgrees(e: Entry, parent: Lookup, items: Spot, path: seq<Step>)
    ensures ScanEntry(e, items, path) == [] ==> !ResolveEntry(e, parent, items).Invalid?
    ensures ScanEntry(e, items, path) != [] ==> !ResolveEntry(e, parent, items).Resolved?
    decreases e, 0
  {
    if IsLogical(e.key) && IsArray(e.value) {
      EntriesAgree(e.value.entries, parent, Clause, path);
    } else {
      ScanAgrees(e.value, parent, if e.key.Item? then items else if e.key.Field? then Bare else Operand, path);
    }
  }

  /** Without issues no parent makes the resolver fail; with one, no parent makes it resolve. */
  lemma ValidatorAndResolverAgree(filter: Value, parent: Value)
    ensures Validate(filter) == [] ==> !ResolveFilter(filter, parent).Invalid?
    ensures Validate(filter) != [] ==> !ResolveFilter(filter, parent).Resolved?
  {
    if IsObject(filter) && !IsReference(filter) {
      EntriesAgree(filter.entries, In(parent), Operand, []);
    }
  }

  // ---------------------------------------------------------------- the references that are resolved

  /** The paths of the markers the resolver visits, in its order. */
  function Visited(v: Value, spot: Spot): seq<string>
    decreases v, 2
  {
    if IsReference(v) then
      if spot.Clause? || !IsMarker(v) || !PathOf(v).Text? then [] else [PathOf(v).s]
    else if !v.Group? || (spot.Clause? && !IsObject(v)) then []
    else VisitedEntries(v.entries, Operand)
  }

  function VisitedEntries(es: seq<Entry>, items: Spot): seq<string>
    decreases es, 0
  {
    if es == [] then []
    else var n := |es| - 1; VisitedEntries(es[..n], items) + VisitedEntry(es[n], items)
  }

  function VisitedEntry(e: Entry, items: Spot): seq<string>
    decreases e, 0
  {
    match e.key
    case Item => Visited(e.value, items)
    case Parent => []
    case Payload(_) => []
    case Forbidden(_) => []
    case Field(_) => Visited(e.value, Bare)
    case _ =>
      if IsLogical(e.key) && IsArray(e.value)
      then VisitedEntries(e.value.entries, Clause)
      else Visited(e.value, Operand)
  }

  ghost predicate AnyMissing(paths: seq<string>, parent: Lookup) {
    exists i :: 0 <= i < |paths| && IsMissing(parent(paths[i]))
  }

  lemma AnyMissingConcat(a: seq<string>, b: seq<string>, parent: Lookup)
    ensures AnyMissing(a + b, parent) <==> AnyMissing(a, parent) || AnyMissing(b, parent)
  {
    if AnyMissing(a, parent) {
      var i :| 0 <= i < |a| && IsMissing(parent(a[i]));
      assert (a + b)[i] == a[i];
    }
    if AnyMissing(b, parent) {
      var i :| 0 <= i < |b| && IsMissing(parent(b[i]));
      assert (a + b)[|a| + i] == b[i];
    }
  }

  lemma ReferenceUnresolvableWhenMissing(v: Value, parent: Lookup, spot: Spot, path: seq<Step>)
    requires IsReference(v) && Scan(v, spot, path) == []
    ensures Resolve(v, parent, spot).Unresolvable? <==> AnyMissing(Visited(v, spot), parent)
  {
    if IsMarker(v) {
      assert Visited(v, spot)[0] == PathOf(v).s;
    }
  }

  lemma {:induction false} UnresolvableWhenMissing(v: Value, parent: Lookup, spot: Spot, path: seq<Step>)
    requires Scan(v, spot, path) == []
    ensures Resolve(v, parent, spot).Unresolvable? <==> AnyMissing(Visited(v, spot), parent)
    decreases v, 2
  {
    if IsReference(v) {
      ReferenceUnresolvableWhenMissing(v, parent, spot, path);
    } else if v.Group? && !(spot.Clause? && !IsObject(v)) {
      EntriesUnresolvableWhenMissing(v.entries, parent, Operand, path);
    }
  }

  lemma {:induction false} EntriesUnresolvableWhenMissing(es: seq<Entry>, parent: Lookup, items: Spot, path: seq<Step>)
    requires ScanEntries(es, items, path) == []
    ensures ResolveEntries(es, parent, items).Unresolvable? <==> AnyMissing(VisitedEntries(es, items), parent)
    decreases es, 0
  {
    if es != [] {
      var n := |es| - 1;
      EntriesUnresolvableWhenMissing(es[..n], parent, items, path);
      EntriesAgree(es[..n], parent, items, path);
      EntryUnresolvableWhenMissing(es[n], parent, items, path + [StepOf(es[n].key, n)]);
      EntryAgrees(es[n], parent, items, path + [StepOf(es[n].key, n)]);
      AnyMissingConcat(VisitedEntries(es[..n], items), VisitedEntry(es[n], items), parent);
    }
  }

  lemma {:induction false} EntryUnresolvableWhenMissing(e: Entry, parent: Lookup, items: Spot, path: seq<Step>)
    requires ScanEntry(e, items, path) == []
    ensures ResolveEntry(e, parent, items).Unresolvable? <==> AnyMissing(VisitedEntry(e, items), parent)
    decreases e, 0
  {
    if !e.key.Payload? && !e.key.Forbidden? {
      if IsLogical(e.key) && IsArray(e.value) {
        EntriesUnresolvableWhenMissing(e.value.entries, parent, Clause, path);
      } else {
        UnresolvableWhenMissing(
          e.value, parent, if e.key.Item? then items else if e.key.Field? then Bare else Operand, path);
      }
    }
  }

  /** A valid template is unresolvable exactly when some reference it resolves has no value. */
  lemma UnresolvableIffAReferenceIsMissing(filter: Value, parent: Value)
    requires Validate(filter) == []
    ensures ResolveFilter(filter, parent).Unresolvable?
       <==> AnyMissing(VisitedEntries(filter.entries, Operand), In(parent))
  {
    EntriesUnresolvableWhenMissing(filter.entries, In(parent), Operand, []);
  }

  // ---------------------------------------------------------------- the reference collector

  function Collect(v: Value): seq<string>
    decreases v, 2
  {
    if IsMarker(v) then (if PathOf(v).Text? then [PathOf(v).s] else [])
    else if IsEscape(v) || !v.Group? then []
    else CollectEntries(v.entries)
  }

  function CollectEntries(es: seq<Entry>): seq<string>
    decreases es, 0
  {
    if es == [] then [] else var n := |es| - 1; CollectEntries(es[..n]) + CollectEntry(es[n])
  }

  function CollectEntry(e: Entry): seq<string>
    decreases e, 0
  {
    if e.key.Payload? || e.key.Forbidden? then [] else Collect(e.value)
  }

  ghost predicate AgreeOn(paths: seq<string>, a: Lookup, b: Lookup) {
    forall i :: 0 <= i < |paths| ==> a(paths[i]) == b(paths[i])
  }

  lemma AgreeOnBoth(x: seq<string>, y: seq<string>, a: Lookup, b: Lookup)
    requires AgreeOn(x + y, a, b)
    ensures AgreeOn(x, a, b) && AgreeOn(y, a, b)
  {
    assert forall i :: 0 <= i < |x| ==> x[i] == (x + y)[i];
    assert forall i :: 0 <= i < |y| ==> y[i] == (x + y)[|x| + i];
  }

  lemma ReferencesResolveAlike(v: Value, a: Lookup, b: Lookup)
    requires IsReference(v) && AgreeOn(Collect(v), a, b)
    ensures ResolveReference(v, a) == ResolveReference(v, b)
  {
    if IsMarker(v) && PathOf(v).Text? {
      assert Collect(v)[0] == PathOf(v).s;
    }
  }

  lemma {:induction false} ResolvesAlike(v: Value, a: Lookup, b: Lookup, spot: Spot)
    requires AgreeOn(Collect(v), a, b)
    ensures Resolve(v, a, spot) == Resolve(v, b, spot)
    decreases v, 2
  {
    if IsReference(v) {
      ReferencesResolveAlike(v, a, b);
    } else if v.Group? {
      EntriesResolveAlike(v.entries, a, b, Operand);
    }
  }

  lemma {:induction false} EntriesResolveAlike(es: seq<Entry>, a: Lookup, b: Lookup, items: Spot)
    requires AgreeOn(CollectEntries(es), a, b)
    ensures ResolveEntries(es, a, items) == ResolveEntries(es, b, items)
    decreases es, 0
  {
    if es != [] {
      var n := |es| - 1;
      AgreeOnBoth(CollectEntries(es[..n]), CollectEntry(es[n]), a, b);
      EntriesResolveAlike(es[..n], a, b, items);
      EntryResolvesAlike(es[n], a, b, items);
    }
  }

  lemma {:induction false} EntryResolvesAlike(e: Entry, a: Lookup, b: Lookup, items: Spot)
    requires AgreeOn(CollectEntry(e), a, b)
    ensures ResolveEntry(e, a, items) == ResolveEntry(e, b, items)
    decreases e, 0
  {
    if !e.key.Payload? && !e.key.Forbidden? {
      if IsLogical(e.key) && IsArray(e.value) {
        assert Collect(e.value) == CollectEntries(e.value.entries);
        EntriesResolveAlike(e.value.entries, a, b, Clause);
      } else {
        ResolvesAlike(e.value, a, b, if e.key.Item? then items else if e.key.Field? then Bare else Operand);
      }
    }
  }

  /** Two parents that agree on every collected path resolve a filter to the same result. */
  lemma CollectedPathsSuffice(filter: Value, a: Value, b: Value)
    requires AgreeOn(Collect(filter), In(a), In(b))
    ensures ResolveFilter(filter, a) == ResolveFilter(filter, b)
  {
    if IsObject(filter) && !IsReference(filter) {
      EntriesResolveAlike(filter.entries, In(a), In(b), Operand);
    }
  }

  // ---------------------------------------------------------------- what is collected needlessly

  /** Clauses of logical operators that are not objects hold no references. */
  predicate ClausesAreFilters(v: Value, spot: Spot)
    decreases v, 2
  {
    if spot.Clause? && !IsObject(v) then Collect(v) == []
    else IsReference(v) || !v.Group? || EntriesAreFilters(v.entries, Operand)
  }

  predicate EntriesAreFilters(es: seq<Entry>, items: Spot)
    decreases es, 0
  {
    es == [] || (EntriesAreFilters(es[..|es| - 1], items) && EntryIsFilter(es[|es| - 1], items))
  }

  predicate EntryIsFilter(e: Entry, items: Spot)
    decreases e, 0
  {
    match e.key
    case Item => ClausesAreFilters(e.value, items)
    case Parent => true
    case Payload(_) => true
    case Forbidden(_) => true
    case Field(_) => ClausesAreFilters(e.value, Bare)
    case _ =>
      if IsLogical(e.key) && IsArray(e.value)
      then EntriesAreFilters(e.value.entries, Clause)
      else ClausesAreFilters(e.value, Operand)
  }

  lemma SplitEqual<T>(a: seq<T>, b: seq<T>, c: seq<T>, d: seq<T>)
    requires |a| <= |c| && |b| <= |d|
    ensures a + b == c + d <==> a == c && b == d
  {
    if a + b == c + d {
      assert |a + b| == |c + d|;
      assert a == (a + b)[..|a|] && c == (c + d)[..|c|];
      assert b == (a + b)[|a|..] && d == (c + d)[|c|..];
    }
  }

  lemma {:induction false} VisitedIsCollected(v: Value, spot: Spot, path: seq<Step>)
    requires Scan(v, spot, path) == []
    ensures |Visited(v, spot)| <= |Collect(v)|
    ensures Visited(v, spot) == Collect(v) <==> ClausesAreFilters(v, spot)
    decreases v, 2
  {
    if v.Group? && !IsReference(v) && !(spot.Clause? && !IsObject(v)) {
      VisitedEntriesAreCollected(v.entries, Operand, path);
    }
  }

  lemma {:induction false} VisitedEntriesAreCollected(es: seq<Entry>, items: Spot, path: seq<Step>)
    requires ScanEntries(es, items, path) == []
    ensures |VisitedEntries(es, items)| <= |CollectEntries(es)|
    ensures VisitedEntries(es, items) == CollectEntries(es) <==> EntriesAreFilters(es, items)
    decreases es, 0
  {
    if es != [] {
      var n := |es| - 1;
      VisitedEntriesAreCollected(es[..n], items, path);
      VisitedEntryIsCollected(es[n], items, path + [StepOf(es[n].key, n)]);
      SplitEqual(
        VisitedEntries(es[..n], items), VisitedEntry(es[n], items), CollectEntries(es[..n]), CollectEntry(es[n]));
    }
  }

  lemma {:induction false} VisitedEntryIsCollected(e: Entry, items: Spot, path: seq<Step>)
    requires ScanEntry(e, items, path) == []
    ensures |VisitedEntry(e, items)| <= |CollectEntry(e)|
    ensures VisitedEntry(e, items) == CollectEntry(e) <==> EntryIsFilter(e, items)
    decreases e, 0
  {
    if !e.key.Payload? && !e.key.Forbidden? {
      if IsLogical(e.key) && IsArray(e.value) {
        VisitedEntriesAreCollected(e.value.entries, Clause, path);
      } else {
        VisitedIsCollected(e.value, if e.key.Item? then items else if e.key.Field? then Bare else Operand, path);
      }
    }
  }

  /**
   From a valid template the collector takes exactly the references that are resolved,
   unless a clause of a logical operator is not an object and holds references: those it
   takes, though nothing resolves them.
   */
  lemma CollectsExactlyWhatIsResolved(filter: Value)
    requires Validate(filter) == []
    ensures Collect(filter) == VisitedEntries(filter.entries, Operand) <==> EntriesAreFilters(filter.entries, Operand)
  {
    VisitedEntriesAreCollected(filter.entries, Operand, []);
  }

  lemma OneEntry(e: Entry, items: Spot, path: seq<Step>)
    ensures ScanEntries([e], items, path) == ScanEntry(e, items, path + [StepOf(e.key, 0)])
    ensures VisitedEntries([e], items) == VisitedEntry(e, items)
    ensures CollectEntries([e]) == CollectEntry(e)
  {
    assert [e][..0] == [];
  }

  /** A reference inside an array that stands for a clause is collected, and never resolved. */
  lemma NeedlessReference(path: string) returns (filter: Value)
    ensures Validate(filter) == []
    ensures Collect(filter) == [path] && VisitedEntries(filter.entries, Operand) == []
  {
    var item := Entry(Item, Marker(path));
    var clause := Entry(Item, Group(Array, [item]));
    var clauses := Entry(And, Group(Array, [clause]));
    filter := Group(Object, [clauses]);
    OneEntry(item, Operand, []);
    OneEntry(clause, Clause, [Name(And)]);
    OneEntry(clauses, Operand, []);
    assert [] + [StepOf(And, 0)] == [Name(And)];
  }
}
