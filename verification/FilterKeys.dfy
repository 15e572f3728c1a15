/**
 Filter values, and the texts by which equal clauses of a conjunction are found. Objects
 have an order of keys, which equality of clauses ignores: two values with a text have one
 text exactly when they differ in nothing but the order of keys.
 */
module FilterKeys {
  import opened Options
  import opened JsonText
  import opened KeyOrder

  /** `Exotic` is a value outside the supported domain, compared by its own equality. */
  datatype Value =
    | Undefined
    | Null
    | Bool(b: bool)
    | Number(numeral: string)
    | BigInt(numeral: string)
    | Text(s: string)
    | RegExp(source: string, flags: string)
    | Date(instant: string)
    | Exotic(id: nat)
    | Arr(items: seq<Value>)
    | Obj(fields: map<string, Value>, order: seq<string>)

  /** A value without the order of its keys, at any depth. */
  function Forget(v: Value): Value
    decreases v
  {
    match v
    case Arr(items) => Arr(seq(|items|, i requires 0 <= i < |items| => Forget(items[i])))
    case Obj(fields, _) => Obj(map k | k in fields :: Forget(fields[k]), [])
    case _ => v
  }

  /** Equality as the code tests it: deep, whatever the order of keys. */
  predicate Same(a: Value, b: Value) {
    Forget(a) == Forget(b)
  }

  /** A value whose objects, at any depth, list each of their keys once. */
  predicate IsOrdered(v: Value)
    decreases v
  {
    match v
    case Arr(items) => forall i :: 0 <= i < |items| ==> IsOrdered(items[i])
    case Obj(fields, order) =>
      && (forall k :: k in fields ==> k in order)
      && (forall i :: 0 <= i < |order| ==> order[i] in fields)
      && (forall i, j :: 0 <= i < j < |order| ==> order[i] != order[j])
      && forall k :: k in fields ==> IsOrdered(fields[k])
    case _ => true
  }

  lemma SameItems(a: Value, b: Value)
    requires a.Arr?
    ensures Same(a, b) <==>
            b.Arr? && |a.items| == |b.items| && forall i :: 0 <= i < |a.items| ==> Same(a.items[i], b.items[i])
  {
    if Same(a, b) {
      assert b.Arr?;
      forall i | 0 <= i < |a.items|
        ensures Same(a.items[i], b.items[i])
      {
        assert Forget(a).items[i] == Forget(b).items[i];
      }
    }
  }

  lemma SameFields(a: Value, b: Value)
    requires a.Obj?
    ensures Same(a, b) <==>
            b.Obj? && a.fields.Keys == b.fields.Keys && forall k :: k in a.fields ==> Same(a.fields[k], b.fields[k])
  {
    if Same(a, b) {
      assert b.Obj?;
      assert a.fields.Keys == Forget(a).fields.Keys == Forget(b).fields.Keys == b.fields.Keys;
      forall k | k in a.fields
        ensures Same(a.fields[k], b.fields[k])
      {
        assert Forget(a).fields[k] == Forget(b).fields[k];
      }
    }
  }

  // ---------------------------------------------------------------- the keys of an object in order

  predicate IsFirst(keys: set<string>, first: string) {
    first in keys && forall k :: k in keys ==> Le(first, k)
  }

  lemma {:induction false} FirstExists(keys: set<string>)
    requires keys != {}
    ensures exists first :: IsFirst(keys, first)
  {
    var k :| k in keys;
    Total(k, k);
    if keys == {k} {
      assert IsFirst(keys, k);
    } else {
      FirstExists(keys - {k});
      var other :| IsFirst(keys - {k}, other);
      Total(k, other);
      var first := if Le(k, other) then k else other;
      forall x | x in keys
        ensures Le(first, x)
      {
        if x != k {
          Transitive(first, other, x);
        }
      }
      assert IsFirst(keys, first);
    }
  }

  lemma OneFirst(keys: set<string>, a: string, b: string)
    requires IsFirst(keys, a) && IsFirst(keys, b)
    ensures a == b
  {
    Antisymmetric(a, b);
  }

  function First(keys: set<string>): (first: string)
    requires keys != {}
    ensures IsFirst(keys, first)
  {
    FirstExists(keys);
    assert forall a, b | IsFirst(keys, a) && IsFirst(keys, b) :: a == b by {
      forall a, b | IsFirst(keys, a) && IsFirst(keys, b)
        ensures a == b
      {
        OneFirst(keys, a, b);
      }
    }
    var first :| first in keys && IsFirst(keys, first);
    first
  }

  function InOrder(keys: set<string>): (r: seq<string>)
    ensures forall k :: k in keys <==> k in r
    decreases |keys|
  {
    if keys == {} then [] else [First(keys)] + InOrder(keys - {First(keys)})
  }

  // ---------------------------------------------------------------- lists as JSON text

  function Elements(items: seq<string>): string {
    if items == [] then [']']
    else Quote(items[0]) + (if |items| == 1 then [']'] else [','] + Elements(items[1..]))
  }

  datatype Field = Field(key: string, text: string)

  /** The texts of an object's values, in the order of its keys. */
  function Listed(texts: map<string, string>): (r: seq<Field>)
    ensures |r| == |InOrder(texts.Keys)|
  {
    var keys := InOrder(texts.Keys);
    seq(|keys|, i requires 0 <= i < |keys| => Field(keys[i], texts[keys[i]]))
  }

  lemma ListedInjective(a: map<string, string>, b: map<string, string>)
    requires Listed(a) == Listed(b)
    ensures a == b
  {
    var x, y := InOrder(a.Keys), InOrder(b.Keys);
    assert |x| == |Listed(a)| == |Listed(b)| == |y|;
    forall i | 0 <= i < |x|
      ensures x[i] == y[i] && a[x[i]] == b[y[i]]
    {
      assert Listed(a)[i] == Listed(b)[i];
    }
    assert x == y;
    assert forall k :: (k in a.Keys <==> k in x) && (k in b.Keys <==> k in x);
    assert a.Keys == b.Keys;
  }

  function FieldText(f: Field): string {
    ['['] + Quote(f.key) + [','] + Quote(f.text) + [']']
  }

  function FieldElements(fs: seq<Field>): string {
    if fs == [] then [']']
    else FieldText(fs[0]) + (if |fs| == 1 then [']'] else [','] + FieldElements(fs[1..]))
  }

  lemma DropFirst(c: char, a: string, b: string, x: string)
    ensures ([c] + a + b + x)[1..] == a + b + x
  {
  }

  lemma ReadsQuoted(a: string, x: string)
    ensures Quote(a) + x != [] && ReadQuoted((Quote(a) + x)[1..]) == Some(Parsed(a, x))
  {
    var escaped := Escape(a);
    DropFirst('\"', escaped, ['\"'], x);
    ReadQuote(a, x);
  }

  /** A quoted text ends where it ends, whatever follows. */
  lemma QuoteEnds(text: string, a: string, x: string, b: string, y: string)
    requires text == Quote(a) + x && text == Quote(b) + y
    ensures a == b && x == y
  {
    ReadsQuoted(a, x);
    ReadsQuoted(b, y);
  }

  lemma SameHeadAndTail<T>(a: seq<T>, b: seq<T>)
    requires a != [] && b != [] && a[0] == b[0] && a[1..] == b[1..]
    ensures a == b
  {
    assert a == [a[0]] + a[1..] && b == [b[0]] + b[1..];
  }

  lemma {:induction false} ElementsInjective(a: seq<string>, b: seq<string>)
    requires Elements(a) == Elements(b)
    ensures a == b
  {
    if a != [] && b != [] {
      var x := if |a| == 1 then [']'] else [','] + Elements(a[1..]);
      var y := if |b| == 1 then [']'] else [','] + Elements(b[1..]);
      QuoteEnds(Elements(a), a[0], x, b[0], y);
      if |a| > 1 && |b| > 1 {
        assert x[1..] == Elements(a[1..]) && y[1..] == Elements(b[1..]);
        ElementsInjective(a[1..], b[1..]);
      } else {
        assert |a| == |b| == 1;
      }
      SameHeadAndTail(a, b);
    }
  }

  /** A field text, cut open: the bracket, the key, and the text with what follows. */
  lemma FieldTextSplits(key: string, text: string, x: string)
    ensures ['['] + key + [','] + text + [']'] + x == ['['] + (key + ([','] + (text + ([']'] + x))))
  {
  }

  lemma SameAfterFirst(c: char, x: string, y: string)
    requires [c] + x == [c] + y
    ensures x == y
  {
    assert x == ([c] + x)[1..] && y == ([c] + y)[1..];
  }

  lemma FieldEnds(f: Field, x: string, g: Field, y: string)
    requires FieldText(f) + x == FieldText(g) + y
    ensures f == g && x == y
  {
    FieldTextSplits(Quote(f.key), Quote(f.text), x);
    FieldTextSplits(Quote(g.key), Quote(g.text), y);
    var fx, gy := Quote(f.text) + ([']'] + x), Quote(g.text) + ([']'] + y);
    SameAfterFirst('[', Quote(f.key) + ([','] + fx), Quote(g.key) + ([','] + gy));
    QuoteEnds(Quote(f.key) + ([','] + fx), f.key, [','] + fx, g.key, [','] + gy);
    SameAfterFirst(',', fx, gy);
    QuoteEnds(fx, f.text, [']'] + x, g.text, [']'] + y);
    SameAfterFirst(']', x, y);
  }

  lemma {:induction false} FieldElementsInjective(a: seq<Field>, b: seq<Field>)
    requires FieldElements(a) == FieldElements(b)
    ensures a == b
  {
    if a != [] && b != [] {
      var x := if |a| == 1 then [']'] else [','] + FieldElements(a[1..]);
      var y := if |b| == 1 then [']'] else [','] + FieldElements(b[1..]);
      FieldEnds(a[0], x, b[0], y);
      if |a| > 1 && |b| > 1 {
        assert x[1..] == FieldElements(a[1..]) && y[1..] == FieldElements(b[1..]);
        FieldElementsInjective(a[1..], b[1..]);
      } else {
        assert |a| == |b| == 1;
      }
      SameHeadAndTail(a, b);
    }
  }

  // ---------------------------------------------------------------- the key of a value

  function Tag(v: Value): (r: string)
    ensures |r| >= 4
  {
    match v
    case Undefined => "undefined:"
    case Null => "null"
    case Bool(_) => "boolean:"
    case Number(_) => "number:"
    case BigInt(_) => "bigint:"
    case Text(_) => "string:"
    case RegExp(_, _) => "regexp:"
    case Date(_) => "date:"
    case Exotic(_) => "none"
    case Arr(_) => "array:"
    case Obj(_, _) => "object:"
  }

  /** The key of a value, or none if it contains anything outside the supported domain. */
  function DedupeKey(v: Value): Option<string>
    decreases v, 2
  {
    match Body(v)
    case None => None
    case Some(body) => Some(Tag(v) + body)
  }

  function Body(v: Value): Option<string>
    decreases v, 1
  {
    match v
    case Undefined => Some("undefined")
    case Null => Some([])
    case Bool(b) => Some(if b then "true" else "false")
    case Number(n) => Some(n)
    case BigInt(n) => Some(n)
    case Text(s) => Some(Quote(s))
    case RegExp(source, flags) => Some(['['] + Elements([source, flags]))
    case Date(instant) => Some(instant)
    case Exotic(_) => None
    case Arr(items) =>
      if exists i :: 0 <= i < |items| && DedupeKey(items[i]).None? then None
      else Some(['['] + Elements(seq(|items|, i requires 0 <= i < |items| => DedupeKey(items[i]).value)))
    case Obj(fields, _) =>
      if exists k :: k in fields && DedupeKey(fields[k]).None? then None
      else
        var keys := InOrder(fields.Keys);
        Some(['['] + FieldElements(
          seq(|keys|, i requires 0 <= i < |keys| => Field(keys[i], DedupeKey(fields[keys[i]]).value))))
  }

  // ---------------------------------------------------------------- one key, one value

  lemma TagStarts(v: Value, body: string)
    ensures (Tag(v) + body)[0] == Tag(v)[0] && (Tag(v) + body)[2] == Tag(v)[2]
  {
  }

  /** The tags differ in their first or their third character. */
  lemma TagsDiffer(a: Value, b: Value)
    requires Tag(a)[0] == Tag(b)[0] && Tag(a)[2] == Tag(b)[2]
    requires !a.Exotic? && !b.Exotic?
    ensures Tag(a) == Tag(b)
    ensures a.Undefined? == b.Undefined? && a.Null? == b.Null? && a.Bool? == b.Bool? && a.Number? == b.Number?
    ensures a.BigInt? == b.BigInt? && a.Text? == b.Text? && a.RegExp? == b.RegExp? && a.Date? == b.Date?
    ensures a.Arr? == b.Arr? && a.Obj? == b.Obj?
  {
  }

  lemma SameRest(tag: string, a: string, b: string)
    requires tag + a == tag + b
    ensures a == b
  {
    assert a == (tag + a)[|tag|..] && b == (tag + b)[|tag|..];
  }

  lemma ListInjective(a: seq<string>, b: seq<string>)
    requires ['['] + Elements(a) == ['['] + Elements(b)
    ensures a == b
  {
    SameAfterFirst('[', Elements(a), Elements(b));
    ElementsInjective(a, b);
  }

  /** Values with one key are the same but for the order of keys. */
  lemma {:induction false} DedupeKeyIsInjective(a: Value, b: Value)
    requires DedupeKey(a).Some? && DedupeKey(a) == DedupeKey(b)
    ensures Same(a, b)
    decreases a, 1
  {
    TagStarts(a, Body(a).value);
    TagStarts(b, Body(b).value);
    TagsDiffer(a, b);
    SameRest(Tag(a), Body(a).value, Body(b).value);
    match a
    case Text(s) =>
      QuoteEnds(Quote(s) + [], s, [], b.s, []);
    case RegExp(source, flags) =>
      ListInjective([source, flags], [b.source, b.flags]);
      assert [source, flags][0] == [b.source, b.flags][0] && [source, flags][1] == [b.source, b.flags][1];
    case Arr(items) => SameArrays(a, b);
    case Obj(_, _) => SameObjects(a, b);
    case _ =>
  }

  function KeysOf(items: seq<Value>): (r: seq<string>)
    requires forall i :: 0 <= i < |items| ==> DedupeKey(items[i]).Some?
    ensures |r| == |items|
  {
    seq(|items|, i requires 0 <= i < |items| => DedupeKey(items[i]).value)
  }

  lemma {:induction false} SameArrays(a: Value, b: Value)
    requires a.Arr? && b.Arr? && Body(a).Some? && Body(a) == Body(b)
    ensures Same(a, b)
    decreases a, 0
  {
    var x, y := KeysOf(a.items), KeysOf(b.items);
    ListInjective(x, y);
    forall i | 0 <= i < |a.items|
      ensures Same(a.items[i], b.items[i])
    {
      assert x[i] == y[i];
      DedupeKeyIsInjective(a.items[i], b.items[i]);
    }
    SameItems(a, b);
  }

  function FieldsOf(fields: map<string, Value>): (r: seq<Field>)
    requires forall k :: k in fields ==> DedupeKey(fields[k]).Some?
    ensures |r| == |InOrder(fields.Keys)|
  {
    var keys := InOrder(fields.Keys);
    seq(|keys|, i requires 0 <= i < |keys| => Field(keys[i], DedupeKey(fields[keys[i]]).value))
  }

  function TextsOf(fields: map<string, Value>): map<string, string>
    requires forall k :: k in fields ==> DedupeKey(fields[k]).Some?
  {
    map k | k in fields :: DedupeKey(fields[k]).value
  }

  lemma FieldsAreListed(fields: map<string, Value>)
    requires forall k :: k in fields ==> DedupeKey(fields[k]).Some?
    ensures FieldsOf(fields) == Listed(TextsOf(fields))
  {
    assert TextsOf(fields).Keys == fields.Keys;
  }

  lemma {:induction false} SameObjects(a: Value, b: Value)
    requires a.Obj? && b.Obj? && Body(a).Some? && Body(a) == Body(b)
    ensures Same(a, b)
    decreases a, 0
  {
    var x, y := TextsOf(a.fields), TextsOf(b.fields);
    SameAfterFirst('[', FieldElements(FieldsOf(a.fields)), FieldElements(FieldsOf(b.fields)));
    FieldElementsInjective(FieldsOf(a.fields), FieldsOf(b.fields));
    FieldsAreListed(a.fields);
    FieldsAreListed(b.fields);
    ListedInjective(x, y);
    assert a.fields.Keys == x.Keys == y.Keys == b.fields.Keys;
    forall k | k in a.fields
      ensures Same(a.fields[k], b.fields[k])
    {
      assert x[k] == y[k];
      DedupeKeyIsInjective(a.fields[k], b.fields[k]);
    }
    SameFields(a, b);
  }

  lemma ArraysHaveOneKey(a: Value, b: Value)
    requires a.Arr? && b.Arr? && |a.items| == |b.items|
    requires forall i :: 0 <= i < |a.items| ==> DedupeKey(a.items[i]) == DedupeKey(b.items[i])
    ensures DedupeKey(a) == DedupeKey(b)
  {
    if Body(a).Some? {
      assert KeysOf(a.items) == KeysOf(b.items);
    }
  }

  lemma ObjectsHaveOneKey(a: Value, b: Value)
    requires a.Obj? && b.Obj? && a.fields.Keys == b.fields.Keys
    requires forall k :: k in a.fields ==> DedupeKey(a.fields[k]) == DedupeKey(b.fields[k])
    ensures DedupeKey(a) == DedupeKey(b)
  {
    if Body(a).Some? {
      assert FieldsOf(a.fields) == FieldsOf(b.fields);
    }
  }

  /** The order of keys does not show in a key. */
  lemma {:induction false} SameHaveOneKey(a: Value, b: Value)
    requires Same(a, b)
    ensures DedupeKey(a) == DedupeKey(b)
    decreases a
  {
    if a.Arr? {
      SameItems(a, b);
      forall i | 0 <= i < |a.items|
        ensures DedupeKey(a.items[i]) == DedupeKey(b.items[i])
      {
        SameHaveOneKey(a.items[i], b.items[i]);
      }
      ArraysHaveOneKey(a, b);
    } else if a.Obj? {
      SameFields(a, b);
      forall k | k in a.fields
        ensures DedupeKey(a.fields[k]) == DedupeKey(b.fields[k])
      {
        SameHaveOneKey(a.fields[k], b.fields[k]);
      }
      ObjectsHaveOneKey(a, b);
    }
  }

  /** Values with a key have one key exactly when only the order of keys differs. */
  lemma OneKeyIffSame(a: Value, b: Value)
    requires DedupeKey(a).Some?
    ensures DedupeKey(a) == DedupeKey(b) <==> Same(a, b)
  {
    if Same(a, b) {
      SameHaveOneKey(a, b);
    } else if DedupeKey(a) == DedupeKey(b) {
      DedupeKeyIsInjective(a, b);
    }
  }
}
