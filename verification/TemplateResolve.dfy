/**
 Substituting a parent document into a template, in one pass. The result says
 whether every reference had a value, and whether the template was well formed.
 */
module TemplateResolve {
  import opened TemplateModel

  /** The parent document as the resolver reads it, one path at a time. */
  type Lookup = string -> Value

  function In(parent: Value): Lookup {
    path => ParentValue(parent, path)
  }

  datatype Resolution<+T> = Resolved(value: T) | Unresolvable | Invalid

  /**
   Where a value stands: as the condition of a field, as an operand or array item, or as
   one clause of a logical operator.
   */
  datatype Spot = Bare | Operand | Clause

  function ResolveReference(v: Value, parent: Lookup): Resolution<Value>
    requires IsReference(v)
  {
    if IsEscape(v) then
      if IsValidEscape(v) then Resolved(v.entries[0].value) else Invalid
    else if !IsValidMarker(v) then Invalid
    else
      var value := parent(PathOf(v).s);
      if IsMissing(value) then Unresolvable else Resolved(value)
  }

  function Wrap(spot: Spot, v: Value): Value {
    if spot.Bare? && IsObject(v) then Group(Object, [Entry(Eq, v)]) else v
  }

  /** The value that stands for a template at some spot. */
  function Resolve(v: Value, parent: Lookup, spot: Spot): (r: Resolution<Value>)
    decreases v, 2
  {
    if spot.Clause? then
      if IsReference(v) then Invalid
      else if !IsObject(v) then Resolved(v)
      else Regroup(v.kind, ResolveEntries(v.entries, parent, Operand))
    else if IsReference(v) then
      match ResolveReference(v, parent)
      case Resolved(value) => Resolved(Wrap(spot, value))
      case failed => failed
    else if !v.Group? then Resolved(v)
    else if v.kind.Object? && HasMarkerKey(v.entries) then Invalid
    else Regroup(v.kind, ResolveEntries(v.entries, parent, Operand))
  }

  function Regroup(kind: Kind, r: Resolution<seq<Entry>>): Resolution<Value> {
    match r
    case Resolved(es) => Resolved(Group(kind, es))
    case Unresolvable => Unresolvable
    case Invalid => Invalid
  }

  /** The entries in order, up to the first that fails; `items` is where array items stand. */
  function ResolveEntries(es: seq<Entry>, parent: Lookup, items: Spot): (r: Resolution<seq<Entry>>)
    ensures r.Resolved? ==> |r.value| == |es| && forall i :: 0 <= i < |es| ==> r.value[i].key == es[i].key
    decreases es, 0
  {
    if es == [] then Resolved([])
    else
      var n := |es| - 1;
      match ResolveEntries(es[..n], parent, items)
      case Unresolvable => Unresolvable
      case Invalid => Invalid
      case Resolved(rs) =>
        match ResolveEntry(es[n], parent, items)
        case Unresolvable => Unresolvable
        case Invalid => Invalid
        case Resolved(r) => Resolved(rs + [Entry(es[n].key, r)])
  }

  function ResolveEntry(e: Entry, parent: Lookup, items: Spot): Resolution<Value>
    decreases e, 0
  {
    match e.key
    case Item => Resolve(e.value, parent, items)
    case Parent => Invalid
    case Payload(_) => if ContainsMarkerShape(e.value) then Invalid else Resolved(e.value)
    case Forbidden(_) => if ContainsMarkerShape(e.value) then Invalid else Resolved(e.value)
    case ElemMatch => if IsReference(e.value) then Invalid else Resolve(e.value, parent, Operand)
    case Field(_) => Resolve(e.value, parent, Bare)
    case _ =>
      if IsLogical(e.key) && IsArray(e.value)
      then Regroup(Array, ResolveEntries(e.value.entries, parent, Clause))
      else Resolve(e.value, parent, Operand)
  }

  /** The whole filter: an object that is not a reference itself. */
  function ResolveFilter(filter: Value, parent: Value): Resolution<Value> {
    if !IsObject(filter) || IsReference(filter) then Invalid
    else Regroup(Object, ResolveEntries(filter.entries, In(parent), Operand))
  }
}
