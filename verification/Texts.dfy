/** Strings split at a character. */
module Texts {
  /** What comes before the first `c`. */
  function UpTo(s: string, c: char): (r: string)
    ensures c !in r && r <= s && (|r| < |s| ==> s[|r|] == c)
    decreases |s|
  {
    if s == "" || s[0] == c then "" else [s[0]] + UpTo(s[1..], c)
  }

  /** The parts between the occurrences of `c`, empty ones included. */
  function Split(s: string, c: char): (parts: seq<string>)
    ensures parts != []
    decreases |s|
  {
    var first := UpTo(s, c);
    if |first| == |s| then [s] else [first] + Split(s[|first| + 1..], c)
  }

  lemma {:induction false} UpToOf(a: string, c: char, rest: string)
    requires c !in a
    ensures UpTo(a + [c] + rest, c) == a && UpTo(a, c) == a
    decreases |a|
  {
    var s := a + [c] + rest;
    if a == "" {
      assert s[0] == c;
    } else {
      assert s[1..] == a[1..] + [c] + rest;
      UpToOf(a[1..], c, rest);
      assert a == [a[0]] + a[1..];
    }
  }

  /** A first part without `c` is split off whole. */
  lemma SplitOf(a: string, c: char, rest: string)
    requires c !in a
    ensures Split(a + [c] + rest, c) == [a] + Split(rest, c) && Split(a, c) == [a]
  {
    hide UpTo;
    var s := a + [c] + rest;
    UpToOf(a, c, rest);
    assert s[|a| + 1..] == rest;
  }

  /** A head without `c` is determined by the joined string. */
  lemma HeadOf(a: string, x: string, b: string, y: string, c: char)
    requires c !in a && c !in b && a + [c] + x == b + [c] + y
    ensures a == b && x == y
  {
    hide UpTo;
    var s := a + [c] + x;
    UpToOf(a, c, x);
    UpToOf(b, c, y);
    assert x == s[|a| + 1..] && y == s[|b| + 1..];
  }

  function Repeat(c: char, n: nat): (r: string)
    ensures |r| == n && forall i :: 0 <= i < n ==> r[i] == c
  {
    seq(n, _ => c)
  }
}
