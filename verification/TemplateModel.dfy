/**
 Correlated include filters are templates: JSON-like values in which the object
 `{ $parent: "a.b" }` stands for a value of the parent document, and
 `{ $escape: { $parent: "a" } }` for the literal object inside.
 */
module TemplateModel {

  /** The names a filter gives a meaning to; `Item` is the position of an array item. */
  datatype Key =
    | Parent                  // $parent
    | Escape                  // $escape
    | Payload(name: string)   // $$sq, $$date
    | Forbidden(name: string) // $text, $where, $comment
    | ElemMatch | And | Or | Nor | Eq | Not
    | Operator(name: string)  // every other name that starts with a dollar
    | Field(name: string)
    | Item

  predicate IsOperator(key: Key) {
    !key.Field? && !key.Item?
  }

  predicate IsLogical(key: Key) {
    key.And? || key.Or? || key.Nor?
  }

  datatype Kind = Array | Object

  datatype Entry = Entry(key: Key, value: Value)

  /** `Other` is every object that is neither an array, a plain object nor a regular expression. */
  datatype Value =
    | Undefined
    | Null
    | Text(s: string)
    | Number(n: int)
    | Bool(b: bool)
    | RegExp(id: nat)
    | Other(id: nat)
    | Group(kind: Kind, entries: seq<Entry>)

  predicate IsObject(v: Value) {
    v.Group? && v.kind.Object?
  }

  predicate IsArray(v: Value) {
    v.Group? && v.kind.Array?
  }

  predicate IsMissing(v: Value) {
    v.Undefined? || v.Null?
  }

  // ---------------------------------------------------------------- markers

  predicate IsMarker(v: Value) {
    IsObject(v) && |v.entries| == 1 && v.entries[0].key.Parent?
  }

  predicate IsEscape(v: Value) {
    IsObject(v) && |v.entries| == 1 && v.entries[0].key.Escape?
  }

  predicate IsReference(v: Value) {
    IsMarker(v) || IsEscape(v)
  }

  predicate HasMarkerKey(es: seq<Entry>) {
    exists i :: 0 <= i < |es| && (es[i].key.Parent? || es[i].key.Escape?)
  }

  function Marker(path: string): (v: Value)
    ensures IsMarker(v) && PathOf(v) == Text(path)
  {
    Group(Object, [Entry(Parent, Text(path))])
  }

  function Escaped(path: string): (v: Value)
    ensures IsEscape(v)
  {
    Group(Object, [Entry(Escape, Marker(path))])
  }

  function PathOf(v: Value): Value
    requires IsMarker(v)
  {
    v.entries[0].value
  }

  /** An escape holds a marker whose path is any non-empty text. */
  predicate IsValidEscape(v: Value)
    requires IsEscape(v)
  {
    var inner := v.entries[0].value;
    IsMarker(inner) && PathOf(inner).Text? && PathOf(inner).s != []
  }

  predicate IsValidMarker(v: Value)
    requires IsMarker(v)
  {
    PathOf(v).Text? && IsValidPath(PathOf(v).s)
  }

  /** Whether anything that looks like a reference, well formed or not, occurs in a value. */
  predicate ContainsMarkerShape(v: Value)
    decreases v, 1
  {
    v.Group? && ((v.kind.Object? && HasMarkerKey(v.entries)) || AnyContainsMarkerShape(v.entries))
  }

  predicate AnyContainsMarkerShape(es: seq<Entry>)
    decreases es, 0
  {
    exists i :: 0 <= i < |es| && EntryContainsMarkerShape(es[i])
  }

  predicate EntryContainsMarkerShape(e: Entry)
    decreases e, 0
  {
    ContainsMarkerShape(e.value)
  }

  // ---------------------------------------------------------------- reference paths

  /** The parts of a path between its dots. */
  function Split(path: string): (r: seq<string>)
    ensures r != []
  {
    if path == [] then [[]]
    else
      var rest := Split(path[1..]);
      if path[0] == '.' then [[]] + rest else [[path[0]] + rest[0]] + rest[1..]
  }

  predicate IsDigit(c: char) {
    '0' <= c <= '9'
  }

  predicate IsNameStart(c: char) {
    'a' <= c <= 'z' || 'A' <= c <= 'Z' || c == '_'
  }

  predicate IsFieldSegment(s: string) {
    s != [] && IsNameStart(s[0]) && forall i :: 0 <= i < |s| ==> IsNameStart(s[i]) || IsDigit(s[i]) || s[i] == '$'
  }

  predicate IsIndexSegment(s: string) {
    s != [] && (s[0] == '0' ==> |s| == 1) && forall i :: 0 <= i < |s| ==> IsDigit(s[i])
  }

  predicate IsDangerous(s: string) {
    s == "__proto__" || s == "prototype" || s == "constructor"
  }

  predicate IsValidSegment(s: string) {
    (IsFieldSegment(s) || IsIndexSegment(s)) && !IsDangerous(s)
  }

  predicate IsValidPath(path: string) {
    path != [] && forall i :: 0 <= i < |Split(path)| ==> IsValidSegment(Split(path)[i])
  }

  function DigitValue(c: char): nat
    requires IsDigit(c)
  {
    (c as int) - ('0' as int)
  }

  function ReadIndex(s: string): nat
    requires forall i :: 0 <= i < |s| ==> IsDigit(s[i])
  {
    if s == [] then 0 else ReadIndex(s[..|s| - 1]) * 10 + DigitValue(s[|s| - 1])
  }

  function ValueOfKey(es: seq<Entry>, key: Key): Value {
    if es == [] then Undefined else if es[0].key == key then es[0].value else ValueOfKey(es[1..], key)
  }

  /** The value of an own property; anything but an array or a plain object has none. */
  function Own(v: Value, segment: string): Value {
    if IsObject(v) then ValueOfKey(v.entries, Field(segment))
    else if !IsArray(v) then Undefined
    else if IsIndexSegment(segment) then
      if ReadIndex(segment) < |v.entries| then v.entries[ReadIndex(segment)].value else Undefined
    else if segment == "length" then Number(|v.entries|)
    else Undefined
  }

  /** What a valid path leads to in the parent document. */
  function Follow(v: Value, segments: seq<string>): Value
    decreases |segments|
  {
    if segments == [] then v else Follow(Own(v, segments[0]), segments[1..])
  }

  function ParentValue(parent: Value, path: string): Value {
    Follow(parent, Split(path))
  }
}
