/** Facts about sequences and sets that loops and recursions over them share. */
module Sequences {

  /** One step of a loop over `s`: the next prefix and its last element. */
  lemma Prefix<T>(s: seq<T>, i: nat)
    requires i < |s|
    ensures s[..i + 1] != [] && |s[..i + 1]| - 1 == i && s[..i + 1][..i] == s[..i] && s[..i + 1][i] == s[i]
  {
  }

  lemma AppendKeepsPrefix<T>(s: seq<T>, x: T)
    ensures (s + [x])[..|s|] == s && |s + [x]| == |s| + 1 && (s + [x])[|s|] == x
  {
  }

  lemma Associate<T>(a: seq<T>, b: seq<T>, c: seq<T>)
    ensures a + b + c == a + (b + c)
  {
  }

  lemma {:induction false} Fewer<T>(a: set<T>, b: set<T>)
    requires a <= b
    ensures |a| <= |b|
    ensures a != b ==> |a| < |b|
  {
    if a != {} {
      var x :| x in a;
      Fewer(a - {x}, b - {x});
      assert a == (a - {x}) + {x} && b == (b - {x}) + {x};
    }
  }
}
