/**
 Text encodings shared by the canonical keys: JSON string literals, as
 `JSON.stringify` writes them, and the reader that undoes them.
 */
module JsonText {

  import opened Options

  /** A value together with the text left after it. */
  datatype Parsed<+T> = Parsed(value: T, rest: string)

  function HexDigit(n: nat): char
    requires n < 16
  {
    "0123456789abcdef"[n]
  }

  function HexValue(c: char): Option<nat> {
    if '0' <= c <= '9' then Some((c as int) - ('0' as int))
    else if 'a' <= c <= 'f' then Some((c as int) - ('a' as int) + 10)
    else None
  }

  /** The letter of a two-character escape, for the characters that have one. */
  function ShortEscape(c: char): Option<char> {
    if c == '\"' then Some('\"')
    else if c == '\\' then Some('\\')
    else if c == '\U{8}' then Some('b')
    else if c == '\t' then Some('t')
    else if c == '\n' then Some('n')
    else if c == '\U{C}' then Some('f')
    else if c == '\r' then Some('r')
    else None
  }

  function ShortUnescape(e: char): Option<char> {
    if e == '\"' then Some('\"')
    else if e == '\\' then Some('\\')
    else if e == 'b' then Some('\U{8}')
    else if e == 't' then Some('\t')
    else if e == 'n' then Some('\n')
    else if e == 'f' then Some('\U{C}')
    else if e == 'r' then Some('\r')
    else None
  }

  function EscapeChar(c: char): (r: string)
    ensures |r| >= 1
  {
    if ShortEscape(c).Some? then ['\\', ShortEscape(c).value]
    else if (c as int) < 32 then ['\\', 'u', '0', '0', HexDigit((c as int) / 16), HexDigit((c as int) % 16)]
    else [c]
  }

  function Escape(s: string): (r: string)
    ensures |r| >= |s|
  {
    if s == [] then [] else EscapeChar(s[0]) + Escape(s[1..])
  }

  function Quote(s: string): (r: string)
    ensures |r| >= |s| + 2
  {
    ['\"'] + Escape(s) + ['\"']
  }

  /** Reads one possibly escaped character. */
  function ReadChar(s: string): (r: Option<Parsed<char>>)
    ensures r.Some? ==> |r.value.rest| < |s|
  {
    if s == [] || s[0] == '\"' then None
    else if s[0] != '\\' then Some(Parsed(s[0], s[1..]))
    else if |s| >= 2 && ShortUnescape(s[1]).Some? then Some(Parsed(ShortUnescape(s[1]).value, s[2..]))
    else if |s| >= 6 && s[1] == 'u' && HexValue(s[4]).Some? && HexValue(s[5]).Some? then
      Some(Parsed((HexValue(s[4]).value * 16 + HexValue(s[5]).value) as char, s[6..]))
    else None
  }

  /** Reads up to and past the closing quote. */
  function ReadQuoted(s: string): (r: Option<Parsed<string>>)
    ensures r.Some? ==> |r.value.rest| < |s|
    decreases |s|
  {
    if s != [] && s[0] == '\"' then Some(Parsed([], s[1..]))
    else
      match ReadChar(s)
      case None => None
      case Some(Parsed(c, rest)) =>
        match ReadQuoted(rest)
        case None => None
        case Some(Parsed(cs, rest')) => Some(Parsed([c] + cs, rest'))
  }

  lemma ReadEscapedChar(c: char, rest: string)
    ensures ReadChar(EscapeChar(c) + rest) == Some(Parsed(c, rest))
    ensures EscapeChar(c)[0] != '\"'
  {
    var s := EscapeChar(c) + rest;
    assert s[|EscapeChar(c)|..] == rest;
    if ShortEscape(c).None? && (c as int) < 32 {
      var hi, lo := (c as int) / 16, (c as int) % 16;
      assert s[4] == HexDigit(hi) && s[5] == HexDigit(lo);
      HexRoundTrip(hi);
      HexRoundTrip(lo);
    }
  }

  lemma HexRoundTrip(n: nat)
    requires n < 16
    ensures HexValue(HexDigit(n)) == Some(n)
  {
  }

  /** A quoted string is read back exactly, whatever follows it. */
  lemma {:induction false} ReadQuote(s: string, rest: string)
    ensures ReadQuoted(Escape(s) + ['\"'] + rest) == Some(Parsed(s, rest))
  {
    if s == [] {
      assert (Escape(s) + ['\"'] + rest)[1..] == rest;
    } else {
      var tail := Escape(s[1..]) + ['\"'] + rest;
      assert Escape(s) + ['\"'] + rest == EscapeChar(s[0]) + tail;
      ReadEscapedChar(s[0], tail);
      ReadQuote(s[1..], rest);
      assert [s[0]] + s[1..] == s;
    }
  }
}
