/**
 Request keys of plain values. A value is a tree; its key is a text; objects are
 keyed with their entries sorted, except in sort specifications, where the order
 of the entries counts.

 The key determines the tree: `Decode` reads it back.
 */
module RequestTree {
  import opened Options
  import opened JsonText
  import opened KeyOrder

  /** The characters a number or an instant is written with, `NaN` and `-0` included. */
  predicate IsNumeralChar(c: char) {
    '0' <= c <= '9' || 'a' <= c <= 'z' || 'A' <= c <= 'Z' || c == '+' || c == '-' || c == '.'
  }

  predicate IsNumeral(s: string) {
    s != [] && forall i :: 0 <= i < |s| ==> IsNumeralChar(s[i])
  }

  type Numeral = s: string | IsNumeral(s) witness ['0']

  datatype Leaf =
    | Null
    | Undefined
    | Bool(b: bool)
    | Number(n: Numeral)
    | Str(s: string)
    | Date(instant: Numeral)

  datatype Kind = Array | Object

  /** Items of an array carry the empty key. */
  type Entry = Keyed<Tree>

  datatype Tree = Atom(leaf: Leaf) | Group(kind: Kind, entries: seq<Entry>)

  // ---------------------------------------------------------------- the text of a tree

  function Tag(l: Leaf): char {
    match l
    case Null => 'n'
    case Undefined => 'u'
    case Bool(_) => 'b'
    case Number(_) => 'n'
    case Str(_) => 's'
    case Date(_) => 'd'
  }

  function LeafBody(l: Leaf): string {
    match l
    case Null => []
    case Undefined => []
    case Bool(b) => if b then ['t', 'r', 'u', 'e'] else ['f', 'a', 'l', 's', 'e']
    case Number(n) => n
    case Str(s) => Quote(s)
    case Date(n) => n
  }

  function LeafText(l: Leaf): (r: string)
    ensures |r| >= 2
    ensures l.Str? ==> |r| >= |l.s| + 4
  {
    [Tag(l), ':'] + LeafBody(l)
  }

  function Open(kind: Kind): char {
    if kind.Array? then '[' else '{'
  }

  function Close(kind: Kind): char {
    if kind.Array? then ']' else '}'
  }

  function Label(kind: Kind, key: string): (r: string)
    ensures kind.Object? ==> |r| >= |key| + 3
  {
    if kind.Array? then [] else Quote(key) + [':']
  }

  function Text(t: Tree): (r: string)
    ensures |r| >= 2
    decreases t, 1
  {
    match t
    case Atom(l) => LeafText(l)
    case Group(kind, entries) => [Open(kind)] + Join(Parts(kind, entries)) + [Close(kind)]
  }

  function Part(kind: Kind, e: Entry): (r: string)
    ensures |r| >= 2
    ensures kind.Object? ==> |r| >= |e.key| + 5
    decreases e, 0
  {
    Label(kind, e.key) + Text(e.value)
  }

  function Parts(kind: Kind, es: seq<Entry>): (r: seq<string>)
    ensures |r| == |es|
    ensures forall i :: 0 <= i < |es| ==> r[i] == Part(kind, es[i])
    decreases es, 0
  {
    if es == [] then []
    else
      var n := |es| - 1;
      Parts(kind, es[..n]) + [Part(kind, es[n])]
  }

  /** The texts in order, separated by commas. */
  function Join(parts: seq<string>): string {
    if parts == [] then []
    else
      var n := |parts| - 1;
      Join(parts[..n]) + (if n > 0 then [','] else []) + parts[n]
  }

  lemma JoinOneMore(parts: seq<string>, part: string)
    ensures Join(parts + [part]) == Join(parts) + (if parts != [] then [','] else []) + part
  {
    assert (parts + [part])[..|parts|] == parts;
  }

  lemma {:induction false} JoinBehind(first: string, rest: seq<string>)
    ensures Join([first] + rest) == first + if rest == [] then [] else [','] + Join(rest)
  {
    if rest == [] {
      JoinOneMore([], first);
      assert [first] + rest == [] + [first];
    } else {
      var m := |rest| - 1;
      var front, last := rest[..m], rest[m];
      assert rest == front + [last] && [first] + rest == ([first] + front) + [last];
      JoinBehind(first, front);
      JoinOneMore([first] + front, last);
      JoinOneMore(front, last);
      CommaApart(first, Join(front), last);
    }
  }

  /** The same text, cut after the first part. */
  lemma JoinFromTheLeft(parts: seq<string>)
    requires parts != []
    ensures Join(parts) == parts[0] + (if |parts| > 1 then [','] + Join(parts[1..]) else [])
  {
    JoinBehind(parts[0], parts[1..]);
    assert [parts[0]] + parts[1..] == parts;
  }

  lemma CommaApart(a: string, b: string, c: string)
    ensures a + ([','] + b) + [','] + c == a + ([','] + (b + [','] + c))
  {
  }

  // ---------------------------------------------------------------- reading a text back

  /** What may follow a complete value. */
  predicate Delimited(rest: string) {
    rest == [] || rest[0] == ',' || rest[0] == ']' || rest[0] == '}'
  }

  function NumeralLength(s: string): (n: nat)
    ensures n <= |s|
    ensures forall i :: 0 <= i < n ==> IsNumeralChar(s[i])
  {
    if s == [] || !IsNumeralChar(s[0]) then 0 else 1 + NumeralLength(s[1..])
  }

  lemma {:induction false} NumeralEnds(n: string, rest: string)
    requires forall i :: 0 <= i < |n| ==> IsNumeralChar(n[i])
    requires Delimited(rest)
    ensures NumeralLength(n + rest) == |n|
  {
    if n != [] {
      assert (n + rest)[1..] == n[1..] + rest;
      NumeralEnds(n[1..], rest);
    } else {
      assert n + rest == rest;
    }
  }

  function Parse(s: string): (r: Option<Parsed<Tree>>)
    ensures r.Some? ==> |r.value.rest| < |s|
    decreases |s|, 0
  {
    if s == [] then None
    else if s[0] == '[' then ParseGroup(Array, s[1..])
    else if s[0] == '{' then ParseGroup(Object, s[1..])
    else if |s| < 2 || s[1] != ':' then None
    else
      match ParseLeaf(s[0], s[2..])
      case None => None
      case Some(Parsed(l, rest)) => Some(Parsed(Atom(l), rest))
  }

  function ParseLeaf(tag: char, s: string): (r: Option<Parsed<Leaf>>)
    ensures r.Some? ==> |r.value.rest| <= |s|
  {
    var n := NumeralLength(s);
    if tag == 'u' then Some(Parsed(Undefined, s))
    else if tag == 'n' then Some(Parsed(if n == 0 then Null else Number(s[..n]), s[n..]))
    else if tag == 'd' && n > 0 then Some(Parsed(Date(s[..n]), s[n..]))
    else if tag == 'b' && n > 0 then Some(Parsed(Bool(s[0] == 't'), s[n..]))
    else if tag == 's' && s != [] && s[0] == '\"' then
      match ReadQuoted(s[1..])
      case None => None
      case Some(Parsed(str, rest)) => Some(Parsed(Str(str), rest))
    else None
  }

  function ParseGroup(kind: Kind, s: string): (r: Option<Parsed<Tree>>)
    ensures r.Some? ==> |r.value.rest| < |s|
    decreases |s|, 2
  {
    if s == [] then None
    else if s[0] == Close(kind) then Some(Parsed(Group(kind, []), s[1..]))
    else
      match ParseEntries(kind, s)
      case None => None
      case Some(Parsed(es, rest)) => Some(Parsed(Group(kind, es), rest))
  }

  /** One or more entries and the closing bracket. */
  function ParseEntries(kind: Kind, s: string): (r: Option<Parsed<seq<Entry>>>)
    ensures r.Some? ==> |r.value.rest| < |s|
    decreases |s|, 1
  {
    match ParseLabel(kind, s)
    case None => None
    case Some(Parsed(key, afterKey)) =>
      match Parse(afterKey)
      case None => None
      case Some(Parsed(t, rest)) =>
        if rest == [] then None
        else if rest[0] == Close(kind) then Some(Parsed([Keyed(key, t)], rest[1..]))
        else if rest[0] != ',' then None
        else
          match ParseEntries(kind, rest[1..])
          case None => None
          case Some(Parsed(es, end)) => Some(Parsed([Keyed(key, t)] + es, end))
  }

  function ParseLabel(kind: Kind, s: string): (r: Option<Parsed<string>>)
    ensures r.Some? ==> |r.value.rest| <= |s|
  {
    if kind.Array? then Some(Parsed([], s))
    else if s == [] || s[0] != '\"' then None
    else
      match ReadQuoted(s[1..])
      case None => None
      case Some(Parsed(key, rest)) => if rest != [] && rest[0] == ':' then Some(Parsed(key, rest[1..])) else None
  }

  /** Items of an array have no name. */
  predicate WellKeyed(t: Tree)
    decreases t, 1
  {
    match t
    case Atom(_) => true
    case Group(kind, entries) => AllWellKeyed(kind, entries)
  }

  predicate AllWellKeyed(kind: Kind, es: seq<Entry>)
    decreases es, 0
  {
    forall e :: e in es ==> (kind.Array? ==> e.key == []) && WellKeyed(e.value)
  }

  lemma ParsePlainLeaf(l: Leaf, body: string, rest: string)
    requires Delimited(rest) && body == LeafBody(l) && !l.Str?
    ensures ParseLeaf(Tag(l), body + rest) == Some(Parsed(l, rest))
  {
    NumeralEnds(body, rest);
    assert (body + rest)[..|body|] == body;
    assert (body + rest)[|body|..] == rest;
    match l
    case Bool(b) =>
      assert body == if b then ['t', 'r', 'u', 'e'] else ['f', 'a', 'l', 's', 'e'];
    case _ =>
  }

  lemma ParseString(str: string, body: string, rest: string)
    requires body == Quote(str)
    ensures ParseLeaf('s', body + rest) == Some(Parsed(Str(str), rest))
  {
    AfterFirstQuote(Escape(str), rest);
    ReadQuote(str, rest);
  }

  lemma AfterFirstQuote(escaped: string, rest: string)
    ensures (['\"'] + escaped + ['\"'] + rest)[0] == '\"'
    ensures (['\"'] + escaped + ['\"'] + rest)[1..] == escaped + ['\"'] + rest
  {
  }

  lemma ParseTagged(tag: char, body: string, rest: string)
    requires tag != '[' && tag != '{'
    ensures Parse([tag, ':'] + body + rest)
         == match ParseLeaf(tag, body + rest)
            case None => None
            case Some(p) => Some(Parsed(Atom(p.value), p.rest))
  {
    assert ([tag, ':'] + body + rest)[2..] == body + rest;
  }

  lemma ParseLeafText(l: Leaf, rest: string)
    requires Delimited(rest)
    ensures Parse(LeafText(l) + rest) == Some(Parsed(Atom(l), rest))
  {
    ParseTagged(Tag(l), LeafBody(l), rest);
    if l.Str? {
      ParseString(l.s, LeafBody(l), rest);
    } else {
      ParsePlainLeaf(l, LeafBody(l), rest);
    }
  }

  lemma ParseLabelText(kind: Kind, key: string, rest: string)
    requires kind.Array? ==> key == []
    ensures ParseLabel(kind, Label(kind, key) + rest) == Some(Parsed(key, rest))
  {
    if kind.Array? {
      assert Label(kind, key) + rest == rest;
    } else {
      var colon := [':'] + rest;
      var quoted := Quote(key);
      assert Label(kind, key) + rest == quoted + colon;
      assert (quoted + colon)[1..] == Escape(key) + ['\"'] + colon;
      ReadQuote(key, colon);
      assert colon[1..] == rest;
    }
  }

  lemma ParseOpen(kind: Kind, s: string)
    ensures Parse([Open(kind)] + s) == ParseGroup(kind, s)
  {
    assert ([Open(kind)] + s)[1..] == s;
  }

  /** The text of a group in front of `rest`, without its opening bracket. */
  lemma GroupTextSplits(kind: Kind, es: seq<Entry>, end: string, rest: string)
    requires end == [Close(kind)] + rest
    ensures Text(Group(kind, es)) + rest == [Open(kind)] + (Join(Parts(kind, es)) + end)
    ensures es == [] ==> Join(Parts(kind, es)) + end == end
    ensures es != [] ==> (Join(Parts(kind, es)) + end)[0] == Part(kind, es[0])[0]
  {
    var joined := Join(Parts(kind, es));
    assert [Open(kind)] + joined + [Close(kind)] + rest == [Open(kind)] + (joined + end);
    if es != [] {
      JoinFromTheLeft(Parts(kind, es));
    }
  }

  lemma {:induction false} ParseText(t: Tree, rest: string)
    requires WellKeyed(t) && Delimited(rest)
    ensures Parse(Text(t) + rest) == Some(Parsed(t, rest))
    decreases t, 1
  {
    match t
    case Atom(l) => ParseLeafText(l, rest);
    case Group(kind, es) =>
      var end := [Close(kind)] + rest;
      assert end[1..] == rest;
      GroupTextSplits(kind, es, end, rest);
      ParseOpen(kind, Join(Parts(kind, es)) + end);
      if es != [] {
        PartStart(kind, es[0]);
        ParseParts(kind, es, Parts(kind, es), end);
      }
  }

  lemma TextStart(t: Tree)
    ensures Text(t)[0] != ']' && Text(t)[0] != '}'
  {
  }

  lemma PartStart(kind: Kind, e: Entry)
    ensures Part(kind, e)[0] != Close(kind)
  {
    TextStart(e.value);
  }

  /** One entry of a group, read from the text in front of `more`. */
  lemma ParseOne(kind: Kind, s: string, afterKey: string, key: string, t: Tree, more: string)
    requires ParseLabel(kind, s) == Some(Parsed(key, afterKey))
    requires Parse(afterKey) == Some(Parsed(t, more)) && more != []
    ensures more[0] == Close(kind) ==> ParseEntries(kind, s) == Some(Parsed([Keyed(key, t)], more[1..]))
    ensures more[0] == ',' ==>
              match ParseEntries(kind, more[1..])
              case None => true
              case Some(p) => ParseEntries(kind, s) == Some(Parsed([Keyed(key, t)] + p.value, p.rest))
  {
  }

  lemma Regroup(joined: string, name: string, text: string, tail: string, end: string)
    requires joined == name + text + tail
    ensures joined + end == name + (text + (tail + end))
  {
  }

  lemma DropComma(joined: string, end: string)
    ensures ([','] + joined + end)[1..] == joined + end
  {
  }

  lemma ParseFirst(kind: Kind, e: Entry, joined: string, tail: string, end: string)
    requires joined == Part(kind, e) + tail && tail + end != []
    requires kind.Array? ==> e.key == []
    requires Parse(Text(e.value) + (tail + end)) == Some(Parsed(e.value, tail + end))
    ensures (tail + end)[0] == Close(kind) ==>
              ParseEntries(kind, joined + end) == Some(Parsed([e], (tail + end)[1..]))
    ensures (tail + end)[0] == ',' ==>
              match ParseEntries(kind, (tail + end)[1..])
              case None => true
              case Some(p) => ParseEntries(kind, joined + end) == Some(Parsed([e] + p.value, p.rest))
  {
    Regroup(joined, Label(kind, e.key), Text(e.value), tail, end);
    ParseLabelText(kind, e.key, Text(e.value) + (tail + end));
    ParseOne(kind, joined + end, Text(e.value) + (tail + end), e.key, e.value, tail + end);
  }

  lemma HeadAndTail<T>(s: seq<T>)
    requires s != []
    ensures s == [s[0]] + s[1..]
    ensures |s| == 1 ==> s == [s[0]]
  {
  }

  lemma PartsTail(kind: Kind, es: seq<Entry>)
    requires es != []
    ensures Parts(kind, es)[1..] == Parts(kind, es[1..])
  {
  }

  lemma TailIsWellKeyed(kind: Kind, es: seq<Entry>)
    requires es != [] && AllWellKeyed(kind, es)
    ensures AllWellKeyed(kind, es[1..])
    ensures kind.Array? ==> es[0].key == []
    ensures WellKeyed(es[0].value)
  {
    assert es[0] in es;
    assert forall e :: e in es[1..] ==> e in es;
  }

  lemma {:induction false} ParseParts(kind: Kind, es: seq<Entry>, parts: seq<string>, end: string)
    requires es != [] && AllWellKeyed(kind, es) && parts == Parts(kind, es)
    requires end != [] && end[0] == Close(kind)
    ensures ParseEntries(kind, Join(parts) + end) == Some(Parsed(es, end[1..]))
    decreases es, 0
  {
    var e := es[0];
    TailIsWellKeyed(kind, es);
    PartsTail(kind, es);
    HeadAndTail(es);
    JoinFromTheLeft(parts);
    if |es| == 1 {
      assert [] + end == end;
      ParseText(e.value, end);
      ParseFirst(kind, e, Join(parts), [], end);
    } else {
      var more := parts[1..];
      ParseParts(kind, es[1..], more, end);
      var tail := [','] + Join(more);
      DropComma(Join(more), end);
      ParseText(e.value, tail + end);
      ParseFirst(kind, e, Join(parts), tail, end);
    }
  }

  function Decode(key: string): Option<Tree> {
    match Parse(key)
    case None => None
    case Some(Parsed(t, rest)) => if rest == [] then Some(t) else None
  }

  /** The text of a value can be read back, so it belongs to that value alone. */
  lemma TextDecodes(t: Tree)
    requires WellKeyed(t)
    ensures Decode(Text(t)) == Some(t)
  {
    ParseText(t, []);
    assert Text(t) + [] == Text(t);
  }
}
