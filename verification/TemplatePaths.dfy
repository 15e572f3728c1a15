/**
 Reference paths and what they lead to: a path of names and positions, spelled with dots,
 leads to the value that stands there, whatever stands beside it on the way.
 */
module TemplatePaths {
  import opened TemplateModel

  // ---------------------------------------------------------------- dots

  function Dotted(segments: seq<string>): string {
    if segments == [] then []
    else if |segments| == 1 then segments[0]
    else segments[0] + ['.'] + Dotted(segments[1..])
  }

  predicate HasNoDot(s: string) {
    forall i :: 0 <= i < |s| ==> s[i] != '.'
  }

  lemma SplitOneMore(c: char, path: string)
    requires c != '.'
    ensures Split([c] + path)[0] == [c] + Split(path)[0] && Split([c] + path)[1..] == Split(path)[1..]
  {
    assert ([c] + path)[1..] == path;
  }

  lemma {:induction false} SplitBehind(s: string, path: string)
    requires HasNoDot(s)
    ensures Split(s + path)[0] == s + Split(path)[0] && Split(s + path)[1..] == Split(path)[1..]
  {
    if s == [] {
      assert s + path == path;
    } else {
      var rest := s[1..];
      SplitBehind(rest, path);
      SplitOneMore(s[0], rest + path);
      assert s + path == [s[0]] + (rest + path);
      assert s + Split(path)[0] == [s[0]] + (rest + Split(path)[0]);
    }
  }

  /** Splitting a dotted path gives its segments back. */
  lemma {:induction false} SplitUndoesDotted(segments: seq<string>)
    requires segments != [] && forall i :: 0 <= i < |segments| ==> HasNoDot(segments[i])
    ensures Split(Dotted(segments)) == segments
  {
    var s := segments[0];
    assert s + [] == s;
    if |segments| == 1 {
      SplitBehind(s, []);
    } else {
      var rest := Dotted(segments[1..]);
      SplitUndoesDotted(segments[1..]);
      SplitBehind(s, ['.'] + rest);
      assert s + ['.'] + rest == s + (['.'] + rest);
      assert (['.'] + rest)[1..] == rest;
    }
    assert Split(Dotted(segments))[0] == segments[0] && Split(Dotted(segments))[1..] == segments[1..];
  }

  /** Dotting what a path splits into gives the path back. */
  lemma {:induction false} DottedUndoesSplit(path: string)
    ensures Dotted(Split(path)) == path
    ensures forall i :: 0 <= i < |Split(path)| ==> HasNoDot(Split(path)[i])
  {
    if path != [] {
      var rest := Split(path[1..]);
      DottedUndoesSplit(path[1..]);
      if path[0] == '.' {
        assert ([[]] + rest)[1..] == rest;
      } else if |rest| > 1 {
        assert ([[path[0]] + rest[0]] + rest[1..])[1..] == rest[1..];
      }
    }
  }

  /** The valid paths are the dotted lists of valid segments. */
  lemma ValidPathIsDotted(path: string)
    requires path != []
    ensures IsValidPath(path) <==> exists segments :: AreValid(segments) && path == Dotted(segments)
  {
    DottedUndoesSplit(path);
    if IsValidPath(path) {
      assert AreValid(Split(path));
    }
    forall segments | AreValid(segments) && path == Dotted(segments)
      ensures IsValidPath(path)
    {
      SplitUndoesDotted(segments);
    }
  }

  ghost predicate AreValid(segments: seq<string>) {
    segments != [] && forall i :: 0 <= i < |segments| ==> IsValidSegment(segments[i])
  }

  /** No path through a prototype is valid, wherever that segment stands. */
  lemma DangerousPathIsInvalid(segments: seq<string>, i: nat)
    requires i < |segments| && forall k :: 0 <= k < |segments| ==> HasNoDot(segments[k])
    requires segments[i] == "__proto__" || segments[i] == "prototype" || segments[i] == "constructor"
    ensures !IsValidPath(Dotted(segments))
  {
    SplitUndoesDotted(segments);
  }

  // ---------------------------------------------------------------- positions

  function Decimal(n: nat): (s: string)
    ensures s != [] && forall i :: 0 <= i < |s| ==> IsDigit(s[i])
  {
    var last := [('0' as int + n % 10) as char];
    if n < 10 then last else Decimal(n / 10) + last
  }

  /** The decimal text of a position is an index segment, and reads as that position. */
  lemma {:induction false} DecimalReads(n: nat)
    ensures IsIndexSegment(Decimal(n)) && ReadIndex(Decimal(n)) == n
    ensures n > 0 ==> Decimal(n)[0] != '0'
  {
    if n >= 10 {
      DecimalReads(n / 10);
      var s := Decimal(n);
      assert s[..|s| - 1] == Decimal(n / 10);
    } else {
      assert Decimal(n)[..0] == [];
    }
  }

  lemma {:induction false} IndexIsPositive(s: string)
    requires IsIndexSegment(s) && s[0] != '0'
    ensures ReadIndex(s) > 0
  {
    var n := |s| - 1;
    if n > 0 {
      IndexIsPositive(s[..n]);
    }
  }

  /** Every index segment is the decimal text of the position it reads as. */
  lemma {:induction false} IndexIsDecimal(s: string)
    requires IsIndexSegment(s)
    ensures Decimal(ReadIndex(s)) == s
  {
    var n := |s| - 1;
    if n == 0 {
      assert s[..0] == [] && s == [s[0]];
    } else {
      IndexIsDecimal(s[..n]);
      IndexIsPositive(s[..n]);
      OneMoreDigit(ReadIndex(s[..n]), s[n]);
      assert s == s[..n] + [s[n]];
    }
  }

  lemma OneMoreDigit(front: nat, c: char)
    requires front > 0 && IsDigit(c)
    ensures Decimal(front * 10 + DigitValue(c)) == Decimal(front) + [c]
  {
  }

  // ---------------------------------------------------------------- places

  /** A place in a container: under a name of an object, or among the items of an array. */
  datatype Place =
    | InObject(name: string, before: seq<Entry>, after: seq<Entry>)
    | InArray(before: seq<Entry>, after: seq<Entry>)

  function Segment(p: Place): string {
    match p
    case InObject(name, _, _) => name
    case InArray(before, _) => Decimal(|before|)
  }

  function Segments(places: seq<Place>): seq<string> {
    seq(|places|, i requires 0 <= i < |places| => Segment(places[i]))
  }

  /** An object has a name once. */
  predicate IsPlace(p: Place) {
    p.InObject? ==> forall i :: 0 <= i < |p.before| ==> p.before[i].key != Field(p.name)
  }

  predicate ArePlaces(places: seq<Place>) {
    forall i :: 0 <= i < |places| ==> IsPlace(places[i])
  }

  /** A container that holds `x` at a place, among other entries. */
  function Holding(p: Place, x: Value): Value {
    match p
    case InObject(name, before, after) => Group(Object, before + [Entry(Field(name), x)] + after)
    case InArray(before, after) => Group(Array, before + [Entry(Item, x)] + after)
  }

  /** A value that holds `x` at a place of a place of a place. */
  function Nest(places: seq<Place>, x: Value): Value {
    if places == [] then x else Holding(places[0], Nest(places[1..], x))
  }

  lemma {:induction false} KeyIsFound(before: seq<Entry>, e: Entry, after: seq<Entry>)
    requires forall i :: 0 <= i < |before| ==> before[i].key != e.key
    ensures ValueOfKey(before + [e] + after, e.key) == e.value
  {
    if before != [] {
      KeyIsFound(before[1..], e, after);
      assert (before + [e] + after)[1..] == before[1..] + [e] + after;
    }
  }

  lemma {:induction false} KeyIsNotFound(es: seq<Entry>, key: Key)
    requires forall i :: 0 <= i < |es| ==> es[i].key != key
    ensures ValueOfKey(es, key).Undefined?
  {
    if es != [] {
      KeyIsNotFound(es[1..], key);
    }
  }

  lemma OwnIsHeld(p: Place, x: Value)
    requires IsPlace(p)
    ensures Own(Holding(p, x), Segment(p)) == x
  {
    match p
    case InObject(name, before, after) => KeyIsFound(before, Entry(Field(name), x), after);
    case InArray(before, after) => DecimalReads(|before|);
  }

  lemma {:induction false} FollowGoesThrough(places: seq<Place>, x: Value, further: seq<string>)
    requires ArePlaces(places)
    ensures Follow(Nest(places, x), Segments(places) + further) == Follow(x, further)
  {
    if places == [] {
      assert Segments(places) + further == further;
    } else {
      var all := Segments(places) + further;
      assert all[0] == Segment(places[0]) && all[1..] == Segments(places[1..]) + further;
      OwnIsHeld(places[0], Nest(places[1..], x));
      FollowGoesThrough(places[1..], x, further);
      assert Follow(Nest(places, x), all) == Follow(Nest(places[1..], x), all[1..]);
    }
  }

  lemma ValidSegmentHasNoDot(s: string)
    requires IsValidSegment(s)
    ensures HasNoDot(s)
  {
  }

  lemma SplitsAgain(segments: seq<string>)
    requires AreValid(segments)
    ensures Split(Dotted(segments)) == segments
  {
    forall i | 0 <= i < |segments|
      ensures HasNoDot(segments[i])
    {
      ValidSegmentHasNoDot(segments[i]);
    }
    SplitUndoesDotted(segments);
  }

  /** A path leads to the value at its place, whatever that is and whatever stands beside it. */
  lemma PathLeads(places: seq<Place>, x: Value)
    requires ArePlaces(places) && AreValid(Segments(places))
    ensures ParentValue(Nest(places, x), Dotted(Segments(places))) == x
  {
    SplitsAgain(Segments(places));
    FollowGoesThrough(places, x, []);
    assert Segments(places) + [] == Segments(places);
  }

  /** There is nothing under `segment`: no such name, no such position, or no container at all. */
  predicate Lacks(v: Value, segment: string) {
    if IsObject(v) then forall i :: 0 <= i < |v.entries| ==> v.entries[i].key != Field(segment)
    else if IsArray(v) then forall n: nat :: n < |v.entries| ==> segment != Decimal(n)
    else true
  }

  lemma OwnIsMissing(v: Value, segment: string)
    requires Lacks(v, segment) && (IsArray(v) ==> segment != "length")
    ensures Own(v, segment).Undefined?
  {
    if IsObject(v) {
      KeyIsNotFound(v.entries, Field(segment));
    } else if IsArray(v) && IsIndexSegment(segment) {
      IndexIsDecimal(segment);
    }
  }

  lemma {:induction false} NothingBelowNothing(segments: seq<string>)
    ensures Follow(Undefined, segments).Undefined?
  {
    if segments != [] {
      NothingBelowNothing(segments[1..]);
    }
  }

  /** A path with a segment that is not there has no value, however it goes on. */
  lemma MissingSegmentHasNoValue(places: seq<Place>, v: Value, segment: string, further: seq<string>)
    requires ArePlaces(places) && AreValid(Segments(places) + [segment] + further)
    requires Lacks(v, segment) && (IsArray(v) ==> segment != "length")
    ensures ParentValue(Nest(places, v), Dotted(Segments(places) + [segment] + further)).Undefined?
  {
    var rest := [segment] + further;
    assert Segments(places) + [segment] + further == Segments(places) + rest;
    SplitsAgain(Segments(places) + rest);
    FollowGoesThrough(places, v, rest);
    OwnIsMissing(v, segment);
    NothingBelowNothing(further);
    assert rest[1..] == further;
  }

  /** The length of an array is its own, too. */
  lemma LengthIsOwn(places: seq<Place>, items: seq<Entry>)
    requires ArePlaces(places) && AreValid(Segments(places) + ["length"])
    ensures ParentValue(Nest(places, Group(Array, items)), Dotted(Segments(places) + ["length"])) == Number(|items|)
  {
    SplitsAgain(Segments(places) + ["length"]);
    FollowGoesThrough(places, Group(Array, items), ["length"]);
    assert ["length"][1..] == [];
  }
}
