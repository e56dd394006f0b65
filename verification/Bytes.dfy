/** Octets and the helpers the codecs of the project share. */
module Bytes {
  type byte = x: int | 0 <= x < 256

  lemma NextMultiple(d: nat, a: int, b: int)
    requires a < b
    ensures d * a + d <= d * b
  {
    var k := b - a - 1;
    assert d * b == d * a + d + d * k;
    assert d * k >= 0;
  }

  /** Quotient and remainder are determined by what they add up to. */
  lemma QuotientIs(v: int, d: int, q: int, r: int)
    requires d > 0 && v == d * q + r && 0 <= r < d
    ensures v / d == q && v % d == r
  {
    var p := v / d;
    assert v == d * p + v % d;
    if p < q {
      NextMultiple(d, p, q);
    } else if p > q {
      NextMultiple(d, q, p);
    }
  }

  /** Concatenation of a list of byte strings, in order. */
  function Concat(parts: seq<seq<byte>>): (r: seq<byte>)
  {
    if parts == [] then [] else parts[0] + Concat(parts[1..])
  }

  lemma {:induction false} ConcatAppend(xs: seq<seq<byte>>, ys: seq<seq<byte>>)
    ensures Concat(xs + ys) == Concat(xs) + Concat(ys)
  {
    if xs == [] {
      assert xs + ys == ys;
    } else {
      assert (xs + ys)[1..] == xs[1..] + ys;
      ConcatAppend(xs[1..], ys);
    }
  }

  function Zeros(n: nat): (r: seq<byte>)
    ensures |r| == n && forall i :: 0 <= i < n ==> r[i] == 0
  {
    seq(n, _ => 0)
  }

  /** `field` stands in `s` at offset `i`. */
  predicate HasAt(s: seq<byte>, i: nat, field: seq<byte>)
  {
    i + |field| <= |s| && s[i..i + |field|] == field
  }

  /** A field of a part is found in whatever holds the part. */
  lemma HasWithin(s: seq<byte>, at: nat, part: seq<byte>, i: nat, field: seq<byte>)
    requires HasAt(s, at, part) && HasAt(part, i, field)
    ensures HasAt(s, at + i, field)
  {
    var n := |field|;
    forall k | 0 <= k < n
      ensures s[at + i..at + i + n][k] == field[k]
    {
      assert part[i..i + n][k] == part[i + k];
      assert s[at..at + |part|][i + k] == s[at + i + k];
    }
  }

  lemma HasInMiddle(pre: seq<byte>, part: seq<byte>, post: seq<byte>)
    ensures HasAt(pre + part + post, |pre|, part)
  {}

  /** Every part stands in the concatenation behind all the parts before it. */
  lemma ConcatHas(parts: seq<seq<byte>>, k: nat)
    requires k < |parts|
    ensures HasAt(Concat(parts), |Concat(parts[..k])|, parts[k])
  {
    var pre, post := parts[..k], parts[k + 1..];
    assert parts == pre + ([parts[k]] + post);
    ConcatAppend(pre, [parts[k]] + post);
    assert ([parts[k]] + post)[1..] == post;
    HasInMiddle(Concat(pre), parts[k], Concat(post));
    assert Concat(parts) == Concat(pre) + parts[k] + Concat(post);
  }

  lemma ConcatPrefix(parts: seq<seq<byte>>, k: nat)
    requires k < |parts|
    ensures Concat(parts[..k + 1]) == Concat(parts[..k]) + parts[k]
  {
    assert parts[..k + 1] == parts[..k] + [parts[k]];
    ConcatAppend(parts[..k], [parts[k]]);
    assert Concat([parts[k]]) == parts[k] + Concat([]);
  }

  predicate IsAscii(s: seq<byte>) {
    forall i :: 0 <= i < |s| ==> s[i] <= 0x7f
  }
}
