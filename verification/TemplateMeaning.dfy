/**
 What a filter means, and what a template is meant to mean: the reference in a field
 condition is equality with the parent's value, and every other reference is that
 value as data.

 Resolving keeps the meaning exactly when the template is clean: no object is wrapped
 in an equality inside literal data, no field is compared with a regular expression of
 the parent's, and no value of the parent's that reads as operators is negated.
 */
module TemplateMeaning {
  import opened TemplateModel
  import opened TemplateResolve
  import opened Sequences

  /** How a value is read: as a filter, as the condition of a field, or as the operand of `$elemMatch`. */
  datatype Role = AsFilter | AsCondition | AsElem

  datatype Group = Filter | Operators | Clauses

  /**
   A filter with its data told apart from its operators: `Equals` compares with a value,
   `Matches` tests a regular expression, `Data` is the operand of an operator.
   */
  datatype Meaning =
    | Equals(value: Value)
    | Matches(pattern: Value)
    | Data(value: Value)
    | Combined(group: Group, parts: seq<Part>)

  datatype Part = Part(key: Key, meaning: Meaning)

  /** An object whose first key is an operator is read as operators. */
  predicate IsOperators(v: Value) {
    IsObject(v) && v.entries != [] && IsOperator(v.entries[0].key)
  }

  /** Equality with literal data, whether or not the filter spells the operator. */
  function Literal(v: Value): Meaning {
    Combined(Operators, [Part(Eq, Equals(v))])
  }

  // ---------------------------------------------------------------- reading a filter

  predicate ReadsAsFilter(v: Value, role: Role) {
    IsObject(v) && (role.AsFilter? || (role.AsElem? && (!IsOperators(v) || IsLogical(v.entries[0].key))))
  }

  predicate ReadsAsOperators(v: Value, role: Role) {
    IsOperators(v) && !role.AsFilter? && !ReadsAsFilter(v, role)
  }

  function Read(v: Value, role: Role): Meaning
    decreases v, 2
  {
    if ReadsAsFilter(v, role) then Combined(Filter, ReadEntries(v.entries, Filter))
    else if ReadsAsOperators(v, role) then Combined(Operators, ReadEntries(v.entries, Operators))
    else if !role.AsCondition? then Data(v)
    else if v.RegExp? then Matches(v)
    else Literal(v)
  }

  function ReadEntries(es: seq<Entry>, group: Group): seq<Part>
    decreases es, 0
  {
    if es == [] then [] else var n := |es| - 1; ReadEntries(es[..n], group) + [Part(es[n].key, ReadEntry(es[n], group))]
  }

  predicate IsJunction(e: Entry, group: Group) {
    group.Filter? && IsLogical(e.key) && IsArray(e.value)
  }

  /** The role of an entry's value, if it is not plain data. */
  predicate IsReadAs(e: Entry, group: Group, role: Role) {
    match group
    case Filter => e.key.Field? && role.AsCondition?
    case Clauses => e.key.Item? && role.AsFilter?
    case Operators => (e.key.Not? && role.AsCondition?) || (e.key.ElemMatch? && role.AsElem?)
  }

  function ReadEntry(e: Entry, group: Group): Meaning
    decreases e, 0
  {
    if IsJunction(e, group) then Combined(Clauses, ReadEntries(e.value.entries, Clauses))
    else if IsReadAs(e, group, AsFilter) then Read(e.value, AsFilter)
    else if IsReadAs(e, group, AsCondition) then Read(e.value, AsCondition)
    else if IsReadAs(e, group, AsElem) then Read(e.value, AsElem)
    else if group.Operators? && e.key.Eq? then Equals(e.value)
    else Data(e.value)
  }

  // ---------------------------------------------------------------- substituting data

  function ReferenceValue(v: Value, parent: Lookup): Value
    requires IsReference(v)
  {
    match ResolveReference(v, parent)
    case Resolved(value) => value
    case _ => Undefined
  }

  /** Literal data with every reference replaced by its value, and nothing added. */
  function Substitute(v: Value, parent: Lookup, spot: Spot): Value
    decreases v, 2
  {
    if IsReference(v) then ReferenceValue(v, parent)
    else if !v.Group? || (spot.Clause? && !IsObject(v)) then v
    else Value.Group(v.kind, SubstituteEntries(v.entries, parent, Operand))
  }

  function SubstituteEntries(es: seq<Entry>, parent: Lookup, items: Spot): seq<Entry>
    decreases es, 0
  {
    if es == [] then []
    else
      var n := |es| - 1;
      SubstituteEntries(es[..n], parent, items) + [Entry(es[n].key, SubstituteEntry(es[n], parent, items))]
  }

  function SubstituteEntry(e: Entry, parent: Lookup, items: Spot): Value
    decreases e, 0
  {
    if e.key.Payload? || e.key.Forbidden? then e.value
    else if IsLogical(e.key) && IsArray(e.value)
    then Value.Group(Array, SubstituteEntries(e.value.entries, parent, Clause))
    else Substitute(e.value, parent, SpotUnder(e.key, items))
  }

  function SpotUnder(key: Key, items: Spot): Spot {
    if key.Item? then items else if key.Field? then Bare else Operand
  }

  /** Nothing in literal data would be wrapped in an equality. */
  predicate NoWrap(v: Value, parent: Lookup, spot: Spot)
    decreases v, 2
  {
    if IsReference(v) then !(spot.Bare? && IsObject(ReferenceValue(v, parent)))
    else !v.Group? || (spot.Clause? && !IsObject(v)) || NoWrapEntries(v.entries, parent, Operand)
  }

  predicate NoWrapEntries(es: seq<Entry>, parent: Lookup, items: Spot)
    decreases es, 0
  {
    es == [] || (NoWrapEntries(es[..|es| - 1], parent, items) && NoWrapEntry(es[|es| - 1], parent, items))
  }

  predicate NoWrapEntry(e: Entry, parent: Lookup, items: Spot)
    decreases e, 0
  {
    if e.key.Payload? || e.key.Forbidden? then true
    else if IsLogical(e.key) && IsArray(e.value) then NoWrapEntries(e.value.entries, parent, Clause)
    else NoWrap(e.value, parent, SpotUnder(e.key, items))
  }

  // ---------------------------------------------------------------- what a template is meant to mean

  function Mean(v: Value, parent: Lookup, role: Role, spot: Spot): Meaning
    decreases v, 2
  {
    if IsReference(v) && role.AsCondition? then Literal(ReferenceValue(v, parent))
    else if ReadsAsFilter(v, role) then Combined(Filter, MeanEntries(v.entries, parent, Filter))
    else if ReadsAsOperators(v, role) then Combined(Operators, MeanEntries(v.entries, parent, Operators))
    else if !role.AsCondition? then Data(Substitute(v, parent, spot))
    else if v.RegExp? then Matches(v)
    else Literal(Substitute(v, parent, spot))
  }

  function MeanEntries(es: seq<Entry>, parent: Lookup, group: Group): seq<Part>
    decreases es, 0
  {
    if es == [] then []
    else var n := |es| - 1; MeanEntries(es[..n], parent, group) + [Part(es[n].key, MeanEntry(es[n], parent, group))]
  }

  function ItemSpot(group: Group): Spot {
    if group.Clauses? then Clause else Operand
  }

  function MeanEntry(e: Entry, parent: Lookup, group: Group): Meaning
    decreases e, 0
  {
    var spot := SpotUnder(e.key, ItemSpot(group));
    if IsJunction(e, group) then Combined(Clauses, MeanEntries(e.value.entries, parent, Clauses))
    else if IsReadAs(e, group, AsFilter) then Mean(e.value, parent, AsFilter, spot)
    else if IsReadAs(e, group, AsCondition) then Mean(e.value, parent, AsCondition, spot)
    else if IsReadAs(e, group, AsElem) then Mean(e.value, parent, AsElem, spot)
    else if group.Operators? && e.key.Eq? then Equals(SubstituteEntry(e, parent, ItemSpot(group)))
    else Data(SubstituteEntry(e, parent, ItemSpot(group)))
  }

  /** The condition under which resolving keeps the meaning of a template. */
  predicate Clean(v: Value, parent: Lookup, role: Role, spot: Spot)
    decreases v, 2
  {
    if IsReference(v) && role.AsCondition? then
      !ReferenceValue(v, parent).RegExp? && (spot.Bare? || !IsOperators(ReferenceValue(v, parent)))
    else if ReadsAsFilter(v, role) then CleanEntries(v.entries, parent, Filter)
    else if ReadsAsOperators(v, role) then CleanEntries(v.entries, parent, Operators)
    else NoWrap(v, parent, spot)
  }

  predicate CleanEntries(es: seq<Entry>, parent: Lookup, group: Group)
    decreases es, 0
  {
    es == [] || (CleanEntries(es[..|es| - 1], parent, group) && CleanEntry(es[|es| - 1], parent, group))
  }

  predicate CleanEntry(e: Entry, parent: Lookup, group: Group)
    decreases e, 0
  {
    var spot := SpotUnder(e.key, ItemSpot(group));
    if IsJunction(e, group) then CleanEntries(e.value.entries, parent, Clauses)
    else if IsReadAs(e, group, AsFilter) then Clean(e.value, parent, AsFilter, spot)
    else if IsReadAs(e, group, AsCondition) then Clean(e.value, parent, AsCondition, spot)
    else if IsReadAs(e, group, AsElem) then Clean(e.value, parent, AsElem, spot)
    else NoWrapEntry(e, parent, ItemSpot(group)) && !BecomesClauses(e, parent, group)
  }

  /** A logical operator whose operand is a reference to an array. */
  predicate BecomesClauses(e: Entry, parent: Lookup, group: Group) {
    group.Filter? && IsLogical(e.key) && IsReference(e.value) && IsArray(ReferenceValue(e.value, parent))
  }

  // ---------------------------------------------------------------- literal data

  lemma AppendOne<T>(a: seq<T>, x: T, b: seq<T>, y: T)
    ensures a + [x] == b + [y] <==> a == b && x == y
  {
    if a + [x] == b + [y] {
      assert |a + [x]| == |b + [y]|;
      assert a == (a + [x])[..|a|] && b == (b + [y])[..|b|];
      assert x == (a + [x])[|a|] && y == (b + [y])[|b|];
    }
  }

  /** A value is never an object that holds just itself. */
  lemma NotItsOwnEntry(key: Key, v: Value)
    ensures Value.Group(Object, [Entry(key, v)]) != v
  {
    assert [Entry(key, v)][0].value == v;
  }

  lemma {:induction false} ResolvedData(v: Value, parent: Lookup, spot: Spot)
    requires Resolve(v, parent, spot).Resolved?
    ensures Resolve(v, parent, spot).value == Substitute(v, parent, spot) <==> NoWrap(v, parent, spot)
    decreases v, 2
  {
    if IsReference(v) {
      NotItsOwnEntry(Eq, ReferenceValue(v, parent));
    } else if v.Group? && !(spot.Clause? && !IsObject(v)) {
      ResolvedDataEntries(v.entries, parent, Operand);
    }
  }

  lemma {:induction false} ResolvedDataEntries(es: seq<Entry>, parent: Lookup, items: Spot)
    requires ResolveEntries(es, parent, items).Resolved?
    ensures ResolveEntries(es, parent, items).value == SubstituteEntries(es, parent, items)
       <==> NoWrapEntries(es, parent, items)
    decreases es, 0
  {
    if es != [] {
      var n := |es| - 1;
      ResolvedDataEntries(es[..n], parent, items);
      ResolvedDataEntry(es[n], parent, items);
      var r := ResolveEntry(es[n], parent, items).value;
      AppendOne(
        ResolveEntries(es[..n], parent, items).value, Entry(es[n].key, r),
        SubstituteEntries(es[..n], parent, items), Entry(es[n].key, SubstituteEntry(es[n], parent, items)));
    }
  }

  lemma {:induction false} ResolvedDataEntry(e: Entry, parent: Lookup, items: Spot)
    requires ResolveEntry(e, parent, items).Resolved?
    ensures ResolveEntry(e, parent, items).value == SubstituteEntry(e, parent, items) <==> NoWrapEntry(e, parent, items)
    decreases e, 0
  {
    if !e.key.Payload? && !e.key.Forbidden? {
      if IsLogical(e.key) && IsArray(e.value) {
        ResolvedDataEntries(e.value.entries, parent, Clause);
      } else {
        ResolvedData(e.value, parent, SpotUnder(e.key, items));
      }
    }
  }

  // ---------------------------------------------------------------- resolving keeps the meaning

  lemma ResolvedShape(v: Value, parent: Lookup, spot: Spot)
    requires !IsReference(v) && Resolve(v, parent, spot).Resolved?
    ensures
      var r := Resolve(v, parent, spot).value;
      && (!v.Group? ==> r == v)
      && (v.Group? ==> r.Group? && r.kind == v.kind && |r.entries| == |v.entries|)
      && IsOperators(r) == IsOperators(v)
      && forall role :: ReadsAsFilter(r, role) == ReadsAsFilter(v, role)
                        && ReadsAsOperators(r, role) == ReadsAsOperators(v, role)
  {
    var r := Resolve(v, parent, spot).value;
    if v.Group? && v.entries != [] && r != v {
      assert r.entries[0].key == v.entries[0].key;
    }
  }

  lemma OneEntry(es: seq<Entry>, group: Group, part: Part)
    requires ReadEntries(es, group) == [part]
    ensures |es| == 1 && Part(es[0].key, ReadEntry(es[0], group)) == part
  {
    if es != [] {
      var n := |es| - 1;
      AppendOne(ReadEntries(es[..n], group), Part(es[n].key, ReadEntry(es[n], group)), [], part);
    }
  }

  /** Operators never read as equality with themselves. */
  lemma OperatorsAreNoLiteral(v: Value)
    requires IsOperators(v)
    ensures Combined(Operators, ReadEntries(v.entries, Operators)) != Literal(v)
  {
    if ReadEntries(v.entries, Operators) == [Part(Eq, Equals(v))] {
      OneEntry(v.entries, Operators, Part(Eq, Equals(v)));
      NotItsOwnEntry(Eq, v);
    }
  }

  lemma ReferenceMeaning(v: Value, parent: Lookup, spot: Spot)
    requires IsReference(v) && !spot.Clause? && Resolve(v, parent, spot).Resolved?
    ensures Read(Resolve(v, parent, spot).value, AsCondition) == Mean(v, parent, AsCondition, spot)
       <==> Clean(v, parent, AsCondition, spot)
  {
    var x := ReferenceValue(v, parent);
    if spot.Bare? && IsObject(x) {
      var wrapped := [Entry(Eq, x)];
      assert wrapped[..0] == [];
      assert ReadEntries(wrapped, Operators) == [Part(Eq, Equals(x))];
    } else if IsOperators(x) {
      OperatorsAreNoLiteral(x);
    }
  }

  /** Where each role occurs: filters are clauses, and no reference stands for a filter. */
  predicate Fits(v: Value, role: Role, spot: Spot) {
    && (role.AsFilter? <==> spot.Clause?)
    && (IsReference(v) ==> role.AsCondition?)
  }

  lemma {:induction false} ResolvedMeaning(v: Value, parent: Lookup, role: Role, spot: Spot)
    requires Fits(v, role, spot) && Resolve(v, parent, spot).Resolved?
    ensures Read(Resolve(v, parent, spot).value, role) == Mean(v, parent, role, spot)
       <==> Clean(v, parent, role, spot)
    decreases v, 2
  {
    if IsReference(v) {
      ReferenceMeaning(v, parent, spot);
    } else {
      ResolvedShape(v, parent, spot);
      if ReadsAsFilter(v, role) {
        ResolvedMeaningEntries(v.entries, parent, Filter);
      } else if ReadsAsOperators(v, role) {
        ResolvedMeaningEntries(v.entries, parent, Operators);
      } else {
        ResolvedData(v, parent, spot);
      }
    }
  }

  lemma {:induction false} ResolvedMeaningEntries(es: seq<Entry>, parent: Lookup, group: Group)
    requires ResolveEntries(es, parent, ItemSpot(group)).Resolved?
    ensures ReadEntries(ResolveEntries(es, parent, ItemSpot(group)).value, group) == MeanEntries(es, parent, group)
       <==> CleanEntries(es, parent, group)
    decreases es, 0
  {
    if es != [] {
      var n := |es| - 1;
      var items := ItemSpot(group);
      ResolvedMeaningEntries(es[..n], parent, group);
      ResolvedMeaningEntry(es[n], parent, group);
      var before := ResolveEntries(es[..n], parent, items).value;
      var e := Entry(es[n].key, ResolveEntry(es[n], parent, items).value);
      AppendKeepsPrefix(before, e);
      AppendOne(
        ReadEntries(before, group), Part(e.key, ReadEntry(e, group)),
        MeanEntries(es[..n], parent, group), Part(e.key, MeanEntry(es[n], parent, group)));
    }
  }

  lemma {:induction false} ResolvedMeaningEntry(e: Entry, parent: Lookup, group: Group)
    requires ResolveEntry(e, parent, ItemSpot(group)).Resolved?
    ensures ReadEntry(Entry(e.key, ResolveEntry(e, parent, ItemSpot(group)).value), group)
         == MeanEntry(e, parent, group)
       <==> CleanEntry(e, parent, group)
    decreases e, 0
  {
    var spot := SpotUnder(e.key, ItemSpot(group));
    if IsJunction(e, group) {
      ResolvedMeaningEntries(e.value.entries, parent, Clauses);
    } else if IsReadAs(e, group, AsFilter) {
      ResolvedMeaning(e.value, parent, AsFilter, spot);
    } else if IsReadAs(e, group, AsCondition) {
      ResolvedMeaning(e.value, parent, AsCondition, spot);
    } else if IsReadAs(e, group, AsElem) {
      ResolvedMeaning(e.value, parent, AsElem, spot);
    } else {
      ResolvedDataEntry(e, parent, ItemSpot(group));
      ResolvedOperand(e, parent, group);
    }
  }

  /** An operand is still an operand once it is resolved, unless it becomes a list of clauses. */
  lemma ResolvedOperand(e: Entry, parent: Lookup, group: Group)
    requires ResolveEntry(e, parent, ItemSpot(group)).Resolved? && !IsJunction(e, group)
    ensures IsJunction(Entry(e.key, ResolveEntry(e, parent, ItemSpot(group)).value), group)
       <==> BecomesClauses(e, parent, group)
  {
    if group.Filter? && IsLogical(e.key) && !IsReference(e.value) {
      ResolvedShape(e.value, parent, Operand);
    }
  }

  // ---------------------------------------------------------------- whole filters

  function MeanFilter(filter: Value, parent: Value): Meaning
    requires IsObject(filter)
  {
    Combined(Filter, MeanEntries(filter.entries, In(parent), Filter))
  }

  predicate CleanFilter(filter: Value, parent: Value)
    requires IsObject(filter)
  {
    CleanEntries(filter.entries, In(parent), Filter)
  }

  /** A resolved filter reads as its template is meant exactly when the template is clean for this parent. */
  lemma ResolvedFilterMeansTheTemplate(filter: Value, parent: Value)
    requires ResolveFilter(filter, parent).Resolved?
    ensures Read(ResolveFilter(filter, parent).value, AsFilter) == MeanFilter(filter, parent)
       <==> CleanFilter(filter, parent)
  {
    ResolvedMeaningEntries(filter.entries, In(parent), Filter);
  }

  // ---------------------------------------------------------------- matching documents

  /**
   What a database makes of a filter: how to read a field and the elements of an array, and
   what equality, patterns and the operators other than these mean.
   */
  datatype Semantics<!D> = Semantics(
    get: (D, string) -> D,
    elements: D -> seq<D>,
    equals: (D, Value) -> bool,
    matches: (D, Value) -> bool,
    operator: (D, Key, Value) -> bool)

  ghost predicate Holds<D(!new)>(sem: Semantics<D>, m: Meaning, d: D)
    decreases m, 2
  {
    match m
    case Equals(v) => sem.equals(d, v)
    case Matches(p) => sem.matches(d, p)
    case Data(v) => sem.equals(d, v)
    case Combined(group, parts) => forall i :: 0 <= i < |parts| ==> PartHolds(sem, parts[i], group, d)
  }

  ghost predicate PartHolds<D(!new)>(sem: Semantics<D>, p: Part, group: Group, d: D)
    decreases p, 1
  {
    if p.meaning.Data? && !group.Clauses? then sem.operator(d, p.key, p.meaning.value)
    else
      match p.key
      case Field(name) => Holds(sem, p.meaning, sem.get(d, name))
      case Or => AnyHolds(sem, p.meaning, d)
      case Nor => !AnyHolds(sem, p.meaning, d)
      case Not => !Holds(sem, p.meaning, d)
      case ElemMatch => exists i :: 0 <= i < |sem.elements(d)| && Holds(sem, p.meaning, sem.elements(d)[i])
      case _ => Holds(sem, p.meaning, d)
  }

  ghost predicate AnyHolds<D(!new)>(sem: Semantics<D>, m: Meaning, d: D)
    decreases m, 3
  {
    m.Combined? && exists i :: 0 <= i < |m.parts| && PartHolds(sem, m.parts[i], m.group, d)
  }

  /** Whatever the operators mean, a clean template's filter matches the documents the template does. */
  lemma ResolvedFilterMatchesAlike<D(!new)>(sem: Semantics<D>, filter: Value, parent: Value, doc: D)
    requires ResolveFilter(filter, parent).Resolved? && CleanFilter(filter, parent)
    ensures Holds(sem, Read(ResolveFilter(filter, parent).value, AsFilter), doc)
       <==> Holds(sem, MeanFilter(filter, parent), doc)
  {
    ResolvedFilterMeansTheTemplate(filter, parent);
  }

  /** A template with a reference for a field means equality with the parent's value, whatever that is. */
  lemma ReferenceMeansEquality<D(!new)>(sem: Semantics<D>, field: string, path: string, parent: Value, doc: D)
    requires IsValidPath(path) && !IsMissing(ParentValue(parent, path))
    ensures Holds(sem, MeanFilter(Value.Group(Object, [Entry(Field(field), Marker(path))]), parent), doc)
       <==> sem.equals(sem.get(doc, field), ParentValue(parent, path))
  {
    var e := Entry(Field(field), Marker(path));
    var v := ParentValue(parent, path);
    assert ReferenceValue(e.value, In(parent)) == v;
    OneMeaning(e, In(parent), Filter);
    LiteralHolds(sem, v, sem.get(doc, field));
    var p := Part(e.key, Literal(v));
    assert PartHolds(sem, p, Filter, doc) <==> Holds(sem, Literal(v), sem.get(doc, field));
    OnePart(sem, p, Filter, doc);
  }

  /** An escaped reference for a field means equality with the literal object inside, whatever the parent is. */
  lemma EscapeMeansTheObject<D(!new)>(sem: Semantics<D>, field: string, path: string, parent: Value, doc: D)
    requires path != []
    ensures Holds(sem, MeanFilter(Value.Group(Object, [Entry(Field(field), Escaped(path))]), parent), doc)
       <==> sem.equals(sem.get(doc, field), Marker(path))
  {
    var e := Entry(Field(field), Escaped(path));
    var v := Marker(path);
    assert ReferenceValue(e.value, In(parent)) == v;
    OneMeaning(e, In(parent), Filter);
    LiteralHolds(sem, v, sem.get(doc, field));
    var p := Part(e.key, Literal(v));
    assert PartHolds(sem, p, Filter, doc) <==> Holds(sem, Literal(v), sem.get(doc, field));
    OnePart(sem, p, Filter, doc);
  }

  lemma OneMeaning(e: Entry, parent: Lookup, group: Group)
    ensures MeanEntries([e], parent, group) == [Part(e.key, MeanEntry(e, parent, group))]
    ensures CleanEntries([e], parent, group) == CleanEntry(e, parent, group)
    ensures NoWrapEntries([e], parent, Operand) == NoWrapEntry(e, parent, Operand)
    ensures ResolveEntry(e, parent, Operand).Resolved? ==> ResolveEntries([e], parent, Operand).Resolved?
  {
    assert [e][..0] == [];
  }

  lemma OneRead(e: Entry, group: Group)
    ensures ReadEntries([e], group) == [Part(e.key, ReadEntry(e, group))]
  {
    assert [e][..0] == [];
  }

  lemma OnePart<D(!new)>(sem: Semantics<D>, p: Part, group: Group, d: D)
    ensures Holds(sem, Combined(group, [p]), d) <==> PartHolds(sem, p, group, d)
  {
    assert [p][0] == p;
  }

  lemma LiteralHolds<D(!new)>(sem: Semantics<D>, v: Value, d: D)
    ensures Holds(sem, Literal(v), d) <==> sem.equals(d, v)
  {
    OnePart(sem, Part(Eq, Equals(v)), Operators, d);
  }

  // ---------------------------------------------------------------- telling meanings apart

  /** Whether a meaning compares with, or applies an operator to, exactly this value. */
  predicate Mentions(m: Meaning, x: Value)
    decreases m, 1
  {
    match m
    case Equals(v) => v == x
    case Matches(_) => false
    case Data(v) => v == x
    case Combined(_, parts) => exists i :: 0 <= i < |parts| && PartMentions(parts[i], x)
  }

  predicate PartMentions(p: Part, x: Value)
    decreases p, 0
  {
    Mentions(p.meaning, x)
  }

  /** The same database, except for what it makes of one value. */
  function Deciding<D>(sem: Semantics<D>, x: Value, holds: bool): Semantics<D> {
    Semantics(
      sem.get, sem.elements,
      (d, v) => if v == x then holds else sem.equals(d, v),
      sem.matches,
      (d, k, v) => if v == x then holds else sem.operator(d, k, v))
  }

  lemma {:induction false} UnmentionedIsIgnored<D(!new)>(sem: Semantics<D>, x: Value, holds: bool, m: Meaning, d: D)
    requires !Mentions(m, x)
    ensures Holds(Deciding(sem, x, holds), m, d) == Holds(sem, m, d)
    ensures AnyHolds(Deciding(sem, x, holds), m, d) == AnyHolds(sem, m, d)
    decreases m, 1
  {
    if m.Combined? {
      forall i | 0 <= i < |m.parts|
        ensures PartHolds(Deciding(sem, x, holds), m.parts[i], m.group, d) == PartHolds(sem, m.parts[i], m.group, d)
      {
        assert !PartMentions(m.parts[i], x);
        UnmentionedPartIsIgnored(sem, x, holds, m.parts[i], m.group, d);
      }
    }
  }

  lemma {:induction false} UnmentionedPartIsIgnored<D(!new)>(
    sem: Semantics<D>, x: Value, holds: bool, p: Part, group: Group, d: D)
    requires !PartMentions(p, x)
    ensures PartHolds(Deciding(sem, x, holds), p, group, d) == PartHolds(sem, p, group, d)
    decreases p, 0
  {
    if p.key.ElemMatch? {
      UnmentionedByElements(sem, x, holds, p.meaning, sem.elements(d));
    } else if p.key.Field? {
      UnmentionedIsIgnored(sem, x, holds, p.meaning, sem.get(d, p.key.name));
    } else {
      UnmentionedIsIgnored(sem, x, holds, p.meaning, d);
    }
  }

  lemma {:induction false} UnmentionedByElements<D(!new)>(
    sem: Semantics<D>, x: Value, holds: bool, m: Meaning, ds: seq<D>)
    requires !Mentions(m, x)
    ensures forall i :: 0 <= i < |ds| ==> Holds(Deciding(sem, x, holds), m, ds[i]) == Holds(sem, m, ds[i])
    decreases m, 2
  {
    forall i | 0 <= i < |ds|
      ensures Holds(Deciding(sem, x, holds), m, ds[i]) == Holds(sem, m, ds[i])
    {
      UnmentionedIsIgnored(sem, x, holds, m, ds[i]);
    }
  }

  function Size(v: Value): nat
    decreases v, 1
  {
    if v.Group? then 1 + SizeAll(v.entries) else 0
  }

  function SizeAll(es: seq<Entry>): nat
    decreases es, 0
  {
    if es == [] then 0 else SizeAll(es[..|es| - 1]) + SizeOf(es[|es| - 1])
  }

  function SizeOf(e: Entry): nat
    decreases e, 0
  {
    1 + Size(e.value)
  }

  /** What is read from a value mentions nothing larger than it. */
  lemma {:induction false} ReadMentionsParts(v: Value, role: Role, x: Value)
    requires Mentions(Read(v, role), x)
    ensures Size(x) <= Size(v)
    decreases v, 2
  {
    if ReadsAsFilter(v, role) {
      var i :| 0 <= i < |ReadEntries(v.entries, Filter)| && PartMentions(ReadEntries(v.entries, Filter)[i], x);
      EntriesMentionParts(v.entries, Filter, x, i);
    } else if ReadsAsOperators(v, role) {
      var i :| 0 <= i < |ReadEntries(v.entries, Operators)| && PartMentions(ReadEntries(v.entries, Operators)[i], x);
      EntriesMentionParts(v.entries, Operators, x, i);
    } else if role.AsCondition? && !v.RegExp? {
      LiteralMentions(v, x);
    }
  }

  lemma LiteralMentions(v: Value, x: Value)
    requires Mentions(Literal(v), x)
    ensures x == v
  {
    var parts := [Part(Eq, Equals(v))];
    var i :| 0 <= i < |parts| && PartMentions(parts[i], x);
    assert Mentions(parts[i].meaning, x);
  }

  lemma {:induction false} EntriesMentionParts(es: seq<Entry>, group: Group, x: Value, i: nat)
    requires i < |ReadEntries(es, group)| && PartMentions(ReadEntries(es, group)[i], x)
    ensures Size(x) <= SizeAll(es)
    decreases es, 0
  {
    var n := |es| - 1;
    if i < |ReadEntries(es[..n], group)| {
      EntriesMentionParts(es[..n], group, x, i);
    } else {
      EntryMentionsParts(es[n], group, x);
    }
  }

  lemma {:induction false} EntryMentionsParts(e: Entry, group: Group, x: Value)
    requires Mentions(ReadEntry(e, group), x)
    ensures Size(x) <= SizeOf(e)
    decreases e, 0
  {
    if IsJunction(e, group) {
      var parts := ReadEntries(e.value.entries, Clauses);
      var i :| 0 <= i < |parts| && PartMentions(parts[i], x);
      EntriesMentionParts(e.value.entries, Clauses, x, i);
    } else if IsReadAs(e, group, AsFilter) {
      ReadMentionsParts(e.value, AsFilter, x);
    } else if IsReadAs(e, group, AsCondition) {
      ReadMentionsParts(e.value, AsCondition, x);
    } else if IsReadAs(e, group, AsElem) {
      ReadMentionsParts(e.value, AsElem, x);
    }
  }

  /** A group that is taken apart is not mentioned by its own parts. */
  lemma GroupIsUnmentioned(x: Value, group: Group)
    requires x.Group?
    ensures !Mentions(Combined(group, ReadEntries(x.entries, group)), x)
  {
    if Mentions(Combined(group, ReadEntries(x.entries, group)), x) {
      var parts := ReadEntries(x.entries, group);
      var i :| 0 <= i < |parts| && PartMentions(parts[i], x);
      EntriesMentionParts(x.entries, group, x, i);
    }
  }

  // ---------------------------------------------------------------- templates that are not clean

  function SingleFilter(key: Key, v: Value): Value {
    Value.Group(Object, [Entry(key, v)])
  }

  /** A database in which every document is one value, compared by equality and by nothing else. */
  function Plainly(patterns: bool): Semantics<nat> {
    Semantics((d, f) => d, d => [], (d, v) => false, (d, p) => patterns, (d, k, v) => false)
  }

  /** A document on which two meanings differ, in some database. */
  ghost predicate Differ(a: Meaning, b: Meaning) {
    exists sem: Semantics<nat>, doc: nat :: Holds(sem, a, doc) != Holds(sem, b, doc)
  }

  /** The template resolves, and in some database some document is matched by just one of filter and template. */
  ghost predicate IsMisread(filter: Value, parent: Value) {
    && ResolveFilter(filter, parent).Resolved?
    && Differ(Read(ResolveFilter(filter, parent).value, AsFilter), MeanFilter(filter, parent))
  }

  /** A filter with one entry is misread when a part that differs can be told apart. */
  lemma MisreadEntry(e: Entry, parent: Value, sem: Semantics<nat>, doc: nat)
    requires !e.key.Parent? && !e.key.Escape? && ResolveEntry(e, In(parent), Operand).Resolved?
    requires
      var r := Entry(e.key, ResolveEntry(e, In(parent), Operand).value);
      PartHolds(sem, Part(e.key, ReadEntry(r, Filter)), Filter, doc)
      != PartHolds(sem, Part(e.key, MeanEntry(e, In(parent), Filter)), Filter, doc)
    ensures IsMisread(SingleFilter(e.key, e.value), parent)
  {
    var r := Entry(e.key, ResolveEntry(e, In(parent), Operand).value);
    OneMeaning(e, In(parent), Filter);
    OneResolved(e, In(parent));
    OneRead(r, Filter);
    OnePart(sem, Part(e.key, ReadEntry(r, Filter)), Filter, doc);
    OnePart(sem, Part(e.key, MeanEntry(e, In(parent), Filter)), Filter, doc);
    assert ResolveFilter(SingleFilter(e.key, e.value), parent).value == SingleFilter(r.key, r.value);
    assert MeanFilter(SingleFilter(e.key, e.value), parent)
        == Combined(Filter, [Part(e.key, MeanEntry(e, In(parent), Filter))]);
  }

  lemma MisreadCondition(field: string, v: Value, parent: Value, sem: Semantics<nat>, doc: nat)
    requires Resolve(v, In(parent), Bare).Resolved?
    requires Holds(sem, Read(Resolve(v, In(parent), Bare).value, AsCondition), sem.get(doc, field))
          != Holds(sem, Mean(v, In(parent), AsCondition, Bare), sem.get(doc, field))
    ensures IsMisread(SingleFilter(Field(field), v), parent)
  {
    var e := Entry(Field(field), v);
    var r := Resolve(v, In(parent), Bare).value;
    var read, meant := Read(r, AsCondition), Mean(v, In(parent), AsCondition, Bare);
    ConditionHolds(sem, field, read, doc);
    ConditionHolds(sem, field, meant, doc);
    assert ReadEntry(Entry(e.key, r), Filter) == read && MeanEntry(e, In(parent), Filter) == meant;
    MisreadEntry(e, parent, sem, doc);
  }

  lemma ConditionHolds(sem: Semantics<nat>, field: string, m: Meaning, doc: nat)
    requires !m.Data?
    ensures PartHolds(sem, Part(Field(field), m), Filter, doc) == Holds(sem, m, sem.get(doc, field))
  {
  }

  lemma CleanCondition(field: string, v: Value, parent: Value)
    requires Resolve(v, In(parent), Bare).Resolved? && Clean(v, In(parent), AsCondition, Bare)
    ensures !IsMisread(SingleFilter(Field(field), v), parent)
  {
    CleanIsNotMisread(Entry(Field(field), v), parent);
  }

  lemma CleanIsNotMisread(e: Entry, parent: Value)
    requires !e.key.Parent? && !e.key.Escape? && ResolveEntry(e, In(parent), Operand).Resolved?
    requires CleanEntry(e, In(parent), Filter)
    ensures !IsMisread(SingleFilter(e.key, e.value), parent)
  {
    OneMeaning(e, In(parent), Filter);
    OneResolved(e, In(parent));
    ResolvedFilterMeansTheTemplate(SingleFilter(e.key, e.value), parent);
  }

  lemma OneResolved(e: Entry, parent: Lookup)
    requires ResolveEntry(e, parent, Operand).Resolved?
    ensures ResolveEntries([e], parent, Operand) == Resolved([Entry(e.key, ResolveEntry(e, parent, Operand).value)])
  {
    var es := [e];
    assert es[..0] == [] && ResolveEntries(es[..0], parent, Operand) == Resolved([]);
    var r := ResolveEntry(e, parent, Operand).value;
    assert [] + [Entry(e.key, r)] == [Entry(e.key, r)];
  }

  lemma SingleResolves(e: Entry, parent: Lookup)
    requires !e.key.Parent? && !e.key.Escape? && ResolveEntry(e, parent, Operand).Resolved?
    ensures Resolve(SingleFilter(e.key, e.value), parent, Bare)
         == Resolved(SingleFilter(e.key, ResolveEntry(e, parent, Operand).value))
    ensures !IsReference(SingleFilter(e.key, e.value))
  {
    OneResolved(e, parent);
    assert !HasMarkerKey([e]);
  }

  /**
   Literal data under a field resolves to other data, and so matches other documents, exactly
   when something in it is wrapped.
   */
  lemma DataIsMisreadIffWrapped(field: string, v: Value, parent: Value)
    requires Resolve(v, In(parent), Bare).Resolved? && !IsReference(v) && !IsOperators(v) && !v.RegExp?
    ensures IsMisread(SingleFilter(Field(field), v), parent) <==> !NoWrap(v, In(parent), Bare)
  {
    ResolvedShape(v, In(parent), Bare);
    ResolvedData(v, In(parent), Bare);
    var y, z := Resolve(v, In(parent), Bare).value, Substitute(v, In(parent), Bare);
    if NoWrap(v, In(parent), Bare) {
      CleanCondition(field, v, parent);
    } else {
      var sem := Deciding(Plainly(false), y, true);
      LiteralHolds(sem, y, 0);
      LiteralHolds(sem, z, 0);
      MisreadCondition(field, v, parent, sem, 0);
    }
  }

  /** A reference to an object inside a literal sub-document is wrapped, so other documents match. */
  lemma WrappedInsideData(field: string, inner: string, path: string, parent: Value)
    requires IsValidPath(path) && IsObject(ParentValue(parent, path))
    ensures IsMisread(SingleFilter(Field(field), SingleFilter(Field(inner), Marker(path))), parent)
  {
    var e := Entry(Field(inner), Marker(path));
    assert ReferenceValue(e.value, In(parent)) == ParentValue(parent, path);
    OneMeaning(e, In(parent), Filter);
    SingleResolves(e, In(parent));
    DataIsMisreadIffWrapped(field, SingleFilter(e.key, e.value), parent);
  }

  /**
   A reference for a field is misread exactly when the parent's value is a regular expression:
   that tests, where it should be compared.
   */
  lemma PatternInsteadOfEquality(field: string, path: string, parent: Value)
    requires IsValidPath(path) && !IsMissing(ParentValue(parent, path))
    ensures IsMisread(SingleFilter(Field(field), Marker(path)), parent) <==> ParentValue(parent, path).RegExp?
  {
    var v, x := Marker(path), ParentValue(parent, path);
    assert ReferenceValue(v, In(parent)) == x;
    if x.RegExp? {
      LiteralHolds(Plainly(true), x, 0);
      MisreadCondition(field, v, parent, Plainly(true), 0);
    } else {
      CleanCondition(field, v, parent);
    }
  }

  /**
   A negated reference is misread exactly when the parent's value is a regular expression or
   an object of operators: either is applied, where the value should be compared.
   */
  lemma NegatedOperators(field: string, path: string, parent: Value)
    requires IsValidPath(path) && !IsMissing(ParentValue(parent, path))
    ensures IsMisread(SingleFilter(Field(field), SingleFilter(Not, Marker(path))), parent)
       <==> ParentValue(parent, path).RegExp? || IsOperators(ParentValue(parent, path))
  {
    var inner := SingleFilter(Not, Marker(path));
    var x := ParentValue(parent, path);
    NegatedReference(path, In(parent));
    if x.RegExp? || IsOperators(x) {
      var sem := NegationApart(x);
      NegationsDiffer(sem, x);
      NegationIsRead(x);
      MisreadCondition(field, inner, parent, sem, 0);
    } else {
      CleanCondition(field, inner, parent);
    }
  }

  lemma NegatedReference(path: string, parent: Lookup)
    requires IsValidPath(path) && !IsMissing(parent(path))
    ensures
      var v := SingleFilter(Not, Marker(path));
      && Resolve(v, parent, Bare) == Resolved(SingleFilter(Not, parent(path)))
      && Mean(v, parent, AsCondition, Bare) == Combined(Operators, [Part(Not, Literal(parent(path)))])
      && (Clean(v, parent, AsCondition, Bare) <==> !parent(path).RegExp? && !IsOperators(parent(path)))
  {
    var e := Entry(Not, Marker(path));
    assert ReferenceValue(e.value, parent) == parent(path);
    OneMeaning(e, parent, Operators);
    SingleResolves(e, parent);
    assert MeanEntry(e, parent, Operators) == Literal(parent(path));
  }

  /** A database that tells what is read from a value apart from equality with it. */
  lemma NegationApart(x: Value) returns (sem: Semantics<nat>)
    requires x.RegExp? || IsOperators(x)
    ensures Holds(sem, Read(x, AsCondition), 0) != Holds(sem, Literal(x), 0)
    ensures forall field :: sem.get(0, field) == 0
  {
    if x.RegExp? {
      sem := Plainly(true);
    } else {
      var m := Combined(Operators, ReadEntries(x.entries, Operators));
      var holds := !Holds(Plainly(false), m, 0);
      sem := Deciding(Plainly(false), x, holds);
      GroupIsUnmentioned(x, Operators);
      UnmentionedIsIgnored(Plainly(false), x, holds, m, 0);
    }
    LiteralHolds(sem, x, 0);
  }

  lemma NegationIsRead(x: Value)
    ensures Read(SingleFilter(Not, x), AsCondition) == Combined(Operators, [Part(Not, Read(x, AsCondition))])
  {
    OneRead(Entry(Not, x), Operators);
  }

  lemma NegationsDiffer(sem: Semantics<nat>, x: Value)
    requires Holds(sem, Read(x, AsCondition), 0) != Holds(sem, Literal(x), 0)
    ensures Holds(sem, Combined(Operators, [Part(Not, Read(x, AsCondition))]), 0)
         != Holds(sem, Combined(Operators, [Part(Not, Literal(x))]), 0)
  {
    OnePart(sem, Part(Not, Read(x, AsCondition)), Operators, 0);
    OnePart(sem, Part(Not, Literal(x)), Operators, 0);
  }

  /** A reference under a logical operator is misread exactly when it is to an array: that is read as clauses. */
  lemma ClausesFromTheParent(key: Key, path: string, parent: Value)
    requires IsLogical(key) && IsValidPath(path) && !IsMissing(ParentValue(parent, path))
    ensures IsMisread(SingleFilter(key, Marker(path)), parent) <==> IsArray(ParentValue(parent, path))
  {
    var e := Entry(key, Marker(path));
    var x := ParentValue(parent, path);
    assert ReferenceValue(e.value, In(parent)) == x;
    if IsArray(x) {
      var m := Combined(Clauses, ReadEntries(x.entries, Clauses));
      var holds := !PartHolds(Plainly(false), Part(key, m), Filter, 0);
      GroupIsUnmentioned(x, Clauses);
      UnmentionedPartIsIgnored(Plainly(false), x, holds, Part(key, m), Filter, 0);
      var sem := Deciding(Plainly(false), x, holds);
      assert !IsJunction(e, Filter);
      assert Substitute(e.value, In(parent), Operand) == x;
      assert SubstituteEntry(e, In(parent), Operand) == x;
      assert MeanEntry(e, In(parent), Filter) == Data(x);
      assert PartHolds(sem, Part(key, Data(x)), Filter, 0) == holds;
      assert ReadEntry(Entry(key, x), Filter) == m;
      MisreadEntry(e, parent, sem, 0);
    } else {
      CleanIsNotMisread(e, parent);
    }
  }

  // ---------------------------------------------------------------- an unclean part that never counts

  /** The entry `$nor: [{}]`, which no document meets. */
  function Nothing(): Entry {
    Entry(Nor, Value.Group(Array, [Entry(Item, Value.Group(Object, []))]))
  }

  function NothingMeant(): Meaning {
    Combined(Clauses, [Part(Item, Combined(Filter, []))])
  }

  lemma NothingIsItself(parent: Lookup)
    ensures ResolveEntry(Nothing(), parent, Operand) == Resolved(Nothing().value)
    ensures ReadEntry(Nothing(), Filter) == MeanEntry(Nothing(), parent, Filter) == NothingMeant()
  {
    var item := Entry(Item, Value.Group(Object, []));
    OneMeaning(item, parent, Clauses);
    OneRead(item, Clauses);
    var es := [item];
    assert es[..0] == [] && ResolveEntries(es[..0], parent, Clause) == Resolved([]);
    assert [] + [item] == [item];
  }

  lemma NothingHolds<D(!new)>(sem: Semantics<D>, parts: seq<Part>, doc: D)
    requires parts != [] && parts[0] == Part(Nor, NothingMeant())
    ensures !Holds(sem, Combined(Filter, parts), doc)
  {
    var m := NothingMeant();
    assert PartHolds(sem, m.parts[0], Clauses, doc);
    assert !PartHolds(sem, parts[0], Filter, doc);
  }

  /** A first entry is resolved, read and meant first. */
  lemma FirstOfTwo(first: Entry, e: Entry, parent: Lookup)
    requires ResolveEntry(first, parent, Operand) == Resolved(first.value)
    requires ResolveEntry(e, parent, Operand).Resolved?
    ensures ResolveEntries([first, e], parent, Operand)
         == Resolved([first, Entry(e.key, ResolveEntry(e, parent, Operand).value)])
    ensures CleanEntries([first, e], parent, Filter) ==> CleanEntry(e, parent, Filter)
    ensures MeanEntries([first, e], parent, Filter)
         == [Part(first.key, MeanEntry(first, parent, Filter)), Part(e.key, MeanEntry(e, parent, Filter))]
  {
    var r := Entry(e.key, ResolveEntry(e, parent, Operand).value);
    OneMeaning(first, parent, Filter);
    OneResolved(first, parent);
    assert [first, e][..1] == [first];
    assert [first] + [r] == [first, r];
  }

  lemma ReadOfTwo(first: Entry, e: Entry, group: Group)
    ensures ReadEntries([first, e], group)
         == [Part(first.key, ReadEntry(first, group)), Part(e.key, ReadEntry(e, group))]
  {
    OneRead(first, group);
    assert [first, e][..1] == [first];
  }

  lemma BesideNothing(e: Entry, parent: Value) returns (r: Entry)
    requires ResolveEntry(e, In(parent), Operand).Resolved?
    ensures
      var filter := Value.Group(Object, [Nothing(), e]);
      && ResolveFilter(filter, parent) == Resolved(Value.Group(Object, [Nothing(), r]))
      && (CleanFilter(filter, parent) ==> CleanEntry(e, In(parent), Filter))
    ensures ReadEntries([Nothing(), r], Filter) != []
    ensures ReadEntries([Nothing(), r], Filter)[0] == Part(Nor, NothingMeant())
    ensures MeanEntries([Nothing(), e], In(parent), Filter) != []
    ensures MeanEntries([Nothing(), e], In(parent), Filter)[0] == Part(Nor, NothingMeant())
  {
    r := Entry(e.key, ResolveEntry(e, In(parent), Operand).value);
    NothingIsItself(In(parent));
    FirstOfTwo(Nothing(), e, In(parent));
    ReadOfTwo(Nothing(), r, Filter);
  }

  /**
   A template that is not clean may still match the same documents: beside a clause that none
   meets, whatever is misread does not count.
   */
  lemma MisreadingMayNotCount<D(!new)>(sem: Semantics<D>, e: Entry, parent: Value, doc: D)
    requires ResolveEntry(e, In(parent), Operand).Resolved? && !CleanEntry(e, In(parent), Filter)
    ensures
      var filter := Value.Group(Object, [Nothing(), e]);
      && ResolveFilter(filter, parent).Resolved? && !CleanFilter(filter, parent)
      && !Holds(sem, Read(ResolveFilter(filter, parent).value, AsFilter), doc)
      && !Holds(sem, MeanFilter(filter, parent), doc)
  {
    var r := BesideNothing(e, parent);
    NothingHolds(sem, ReadEntries([Nothing(), r], Filter), doc);
    NothingHolds(sem, MeanEntries([Nothing(), e], In(parent), Filter), doc);
  }
}
