/**
 The three walks over a template as they run: the validator and the collector push into
 a list as they go, the resolver fills its output entry by entry and stops at the first
 failure. Each does what its specification says.
 */
module TemplateWalks {
  import opened TemplateModel
  import opened TemplateResolve
  import opened TemplateScan
  import opened Sequences

  /** Array items, and only they, stand under the item key. */
  predicate IsWellKeyed(v: Value)
    decreases v, 1
  {
    v.Group? ==> forall e :: e in v.entries ==> (v.kind.Array? ==> e.key.Item?) && IsWellKeyedEntry(e)
  }

  predicate IsWellKeyedEntry(e: Entry)
    decreases e, 0
  {
    IsWellKeyed(e.value)
  }

  class TemplateScanner {
    var issues: seq<Issue>

    constructor ()
      ensures issues == []
    {
      issues := [];
    }

    method Push(problem: Problem, path: seq<Step>)
      modifies this
      ensures issues == old(issues) + [Issue(problem, path)]
    {
      issues := issues + [Issue(problem, path)];
    }

    method ScanTemplateValueNode(v: Value, path: seq<Step>)
      requires IsWellKeyed(v)
      modifies this
      ensures issues == old(issues) + Scan(v, Operand, path)
      decreases v, 2
    {
      if IsEscape(v) {
        if !IsValidEscape(v) {
          Push(BadEscape, path);
        }
      } else if IsMarker(v) {
        if !IsValidMarker(v) {
          Push(BadPath, path);
        }
      } else if IsObject(v) {
        if HasMarkerKey(v.entries) {
          Push(Malformed, path);
        } else {
          ScanTemplateObjectEntries(v.entries, path);
        }
      } else if IsArray(v) {
        ScanItems(v.entries, Operand, path);
      }
    }

    method ScanTemplateObjectEntries(es: seq<Entry>, basePath: seq<Step>)
      requires forall e :: e in es ==> IsWellKeyedEntry(e)
      modifies this
      ensures issues == old(issues) + ScanEntries(es, Operand, basePath)
      decreases es, 0
    {
      for i := 0 to |es|
        invariant issues == old(issues) + ScanEntries(es[..i], Operand, basePath)
      {
        Prefix(es, i);
        ScanTemplateEntry(es[i], basePath + [StepOf(es[i].key, i)]);
      }
      assert es[..|es|] == es;
    }

    method ScanTemplateEntry(e: Entry, path: seq<Step>)
      requires IsWellKeyedEntry(e)
      modifies this
      ensures issues == old(issues) + ScanEntry(e, Operand, path)
      decreases e, 0
    {
      if e.key.Parent? {
        Push(ParentAsField, path);
      } else if e.key.Payload? {
        if ContainsMarkerShape(e.value) {
          Push(ReferenceInPayload, path);
        }
      } else if e.key.Forbidden? {
        if ContainsMarkerShape(e.value) {
          Push(ReferenceInOperator, path);
        }
      } else if e.key.ElemMatch? && IsReference(e.value) {
        Push(DirectElemMatch, path);
      } else if IsLogical(e.key) && IsArray(e.value) {
        ScanItems(e.value.entries, Clause, path);
      } else {
        ScanTemplateValueNode(e.value, path);
      }
    }

    /** The items of an array, or the clauses of a logical operator. */
    method ScanItems(es: seq<Entry>, spot: Spot, path: seq<Step>)
      requires !spot.Bare? && forall e :: e in es ==> e.key.Item? && IsWellKeyedEntry(e)
      modifies this
      ensures issues == old(issues) + ScanEntries(es, spot, path)
      decreases es, 0
    {
      for i := 0 to |es|
        invariant issues == old(issues) + ScanEntries(es[..i], spot, path)
      {
        Prefix(es, i);
        ScanItem(es[i], spot, path + [Index(i)]);
      }
      assert es[..|es|] == es;
    }

    method ScanItem(e: Entry, spot: Spot, path: seq<Step>)
      requires !spot.Bare? && e.key.Item? && IsWellKeyedEntry(e)
      modifies this
      ensures issues == old(issues) + Scan(e.value, spot, path)
      decreases e, 0
    {
      if spot.Clause? {
        if IsReference(e.value) {
          Push(DirectClause, path);
        } else if IsObject(e.value) {
          ScanTemplateObjectEntries(e.value.entries, path);
        }
      } else {
        ScanTemplateValueNode(e.value, path);
      }
    }
  }

  method ValidateCorrelatedFilterTemplate(filter: Value) returns (issues: seq<Issue>)
    requires IsWellKeyed(filter)
    ensures issues == Validate(filter)
  {
    if !IsObject(filter) {
      return [Issue(NotAnObject, [])];
    }
    if IsReference(filter) {
      return [Issue(FilterIsReference, [])];
    }
    var scanner := new TemplateScanner();
    scanner.ScanTemplateObjectEntries(filter.entries, []);
    issues := scanner.issues;
  }

  class ReferenceCollector {
    var paths: seq<string>

    constructor ()
      ensures paths == []
    {
      paths := [];
    }

    method VisitValue(v: Value)
      requires IsWellKeyed(v)
      modifies this
      ensures paths == old(paths) + Collect(v)
      decreases v, 2
    {
      if IsMarker(v) {
        if PathOf(v).Text? {
          paths := paths + [PathOf(v).s];
        }
      } else if !IsEscape(v) && v.Group? {
        VisitEntries(v.entries);
      }
    }

    method VisitEntries(es: seq<Entry>)
      requires forall e :: e in es ==> IsWellKeyedEntry(e)
      modifies this
      ensures paths == old(paths) + CollectEntries(es)
      decreases es, 0
    {
      for i := 0 to |es|
        invariant paths == old(paths) + CollectEntries(es[..i])
      {
        Prefix(es, i);
        VisitEntry(es[i]);
      }
      assert es[..|es|] == es;
    }

    method VisitEntry(e: Entry)
      requires IsWellKeyedEntry(e)
      modifies this
      ensures paths == old(paths) + CollectEntry(e)
      decreases e, 0
    {
      if !e.key.Payload? && !e.key.Forbidden? {
        VisitValue(e.value);
      }
    }
  }

  // ---------------------------------------------------------------- the resolver

  lemma {:induction false} FailureIsFinal(es: seq<Entry>, i: nat, parent: Lookup, items: Spot)
    requires i <= |es| && !ResolveEntries(es[..i], parent, items).Resolved?
    ensures ResolveEntries(es, parent, items) == ResolveEntries(es[..i], parent, items)
  {
    if i < |es| {
      var n := |es| - 1;
      assert es[..n][..i] == es[..i];
      FailureIsFinal(es[..n], i, parent, items);
    } else {
      assert es[..i] == es;
    }
  }

  method ResolveValueNode(template: Value, parent: Value, bare: bool) returns (r: Resolution<Value>)
    requires IsWellKeyed(template)
    ensures r == Resolve(template, In(parent), if bare then Bare else Operand)
    decreases template, 2
  {
    if IsEscape(template) {
      if !IsValidEscape(template) {
        return Invalid;
      }
      var inner := template.entries[0].value;
      return Resolved(if bare then Group(Object, [Entry(Eq, inner)]) else inner);
    }
    if IsMarker(template) {
      if !IsValidMarker(template) {
        return Invalid;
      }
      var value := ParentValue(parent, PathOf(template).s);
      if IsMissing(value) {
        return Unresolvable;
      }
      return Resolved(if bare && IsObject(value) then Group(Object, [Entry(Eq, value)]) else value);
    }
    if IsObject(template) {
      if HasMarkerKey(template.entries) {
        return Invalid;
      }
      var out := ResolveObjectEntries(template.entries, parent, Operand);
      return Regroup(Object, out);
    }
    if IsArray(template) {
      var out := ResolveObjectEntries(template.entries, parent, Operand);
      return Regroup(Array, out);
    }
    return Resolved(template);
  }

  /** The entries of an object, or the items of an array standing at `items`. */
  method ResolveObjectEntries(es: seq<Entry>, parent: Value, items: Spot) returns (r: Resolution<seq<Entry>>)
    requires !items.Bare? && forall e :: e in es ==> IsWellKeyedEntry(e)
    ensures r == ResolveEntries(es, In(parent), items)
    decreases es, 0
  {
    var out := [];
    for i := 0 to |es|
      invariant ResolveEntries(es[..i], In(parent), items) == Resolved(out)
    {
      Prefix(es, i);
      var child := ResolveObjectEntry(es[i], parent, items);
      if !child.Resolved? {
        FailureIsFinal(es, i + 1, In(parent), items);
        return if child.Invalid? then Invalid else Unresolvable;
      }
      out := out + [Entry(es[i].key, child.value)];
    }
    assert es[..|es|] == es;
    return Resolved(out);
  }

  method ResolveObjectEntry(e: Entry, parent: Value, items: Spot) returns (r: Resolution<Value>)
    requires !items.Bare? && IsWellKeyedEntry(e)
    ensures r == ResolveEntry(e, In(parent), items)
    decreases e, 0
  {
    if e.key.Parent? {
      return Invalid;
    }
    if e.key.Payload? || e.key.Forbidden? {
      return if ContainsMarkerShape(e.value) then Invalid else Resolved(e.value);
    }
    if e.key.ElemMatch? && IsReference(e.value) {
      return Invalid;
    }
    if IsLogical(e.key) && IsArray(e.value) {
      var clauses := ResolveObjectEntries(e.value.entries, parent, Clause);
      return Regroup(Array, clauses);
    }
    if e.key.Item? && items.Clause? {
      if IsReference(e.value) {
        return Invalid;
      }
      if !IsObject(e.value) {
        return Resolved(e.value);
      }
      var out := ResolveObjectEntries(e.value.entries, parent, Operand);
      return Regroup(Object, out);
    }
    r := ResolveValueNode(e.value, parent, e.key.Field?);
  }

  method ResolveCorrelatedFilterTemplate(filter: Value, parent: Value) returns (r: Resolution<Value>)
    requires IsWellKeyed(filter)
    ensures r == ResolveFilter(filter, parent)
  {
    if !IsObject(filter) || IsReference(filter) {
      return Invalid;
    }
    var out := ResolveObjectEntries(filter.entries, parent, Operand);
    return Regroup(Object, out);
  }
}
