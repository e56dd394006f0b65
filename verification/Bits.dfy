/**
 * Unsigned numbers as their bits, least significant first, and the operators
 * the CRC code applies to unsigned 32-bit words.
 */
module Bits {
  import opened Bytes

  function Pow2(k: nat): (p: nat)
    ensures p >= 1
  {
    if k == 0 then 1 else 2 * Pow2(k - 1)
  }

  function Bit(b: bool): (r: nat)
  {
    if b then 1 else 0
  }

  /** The `k` low bits of `x`. */
  function BitsOf(x: nat, k: nat): (s: seq<bool>)
    ensures |s| == k
    decreases k
  {
    if k == 0 then [] else [x % 2 == 1] + BitsOf(x / 2, k - 1)
  }

  /** The number whose bits are `s`. */
  function ValueOf(s: seq<bool>): (x: nat)
    ensures x < Pow2(|s|)
  {
    if s == [] then 0 else Bit(s[0]) + 2 * ValueOf(s[1..])
  }

  lemma {:induction false} ValueOfBitsOf(x: nat, k: nat)
    requires x < Pow2(k)
    ensures ValueOf(BitsOf(x, k)) == x
    decreases k
  {
    if k > 0 {
      ValueOfBitsOf(x / 2, k - 1);
      assert BitsOf(x, k)[1..] == BitsOf(x / 2, k - 1);
    }
  }

  lemma {:induction false} BitsOfValueOf(s: seq<bool>)
    ensures BitsOf(ValueOf(s), |s|) == s
  {
    if s == [] {
    } else {
      BitsOfValueOf(s[1..]);
      var x := ValueOf(s[1..]);
      QuotientIs(ValueOf(s), 2, x, Bit(s[0]));
      assert s == [s[0]] + s[1..];
    }
  }

  function OctetBits(b: byte): (s: seq<bool>)
    ensures |s| == 8
  {
    BitsOf(b, 8)
  }

  function OctetValue(s: seq<bool>): (b: byte)
    requires |s| == 8
  {
    assert Pow2(8) == 256;
    ValueOf(s)
  }

  lemma OctetRoundTrip(b: byte, s: seq<bool>)
    requires |s| == 8
    ensures OctetValue(OctetBits(b)) == b
    ensures OctetBits(OctetValue(s)) == s
  {
    assert Pow2(8) == 256;
    ValueOfBitsOf(b, 8);
    BitsOfValueOf(s);
  }

  // ---------------------------------------------------------- strings of bits

  /** The images of the elements of `m`, joined in order. */
  function FlatMap<S, T>(f: S -> seq<T>, m: seq<S>): (r: seq<T>)
  {
    if m == [] then [] else f(m[0]) + FlatMap(f, m[1..])
  }

  lemma {:induction false} FlatMapAppend<S, T>(f: S -> seq<T>, m: seq<S>, n: seq<S>)
    ensures FlatMap(f, m + n) == FlatMap(f, m) + FlatMap(f, n)
  {
    if m == [] {
      assert m + n == n;
    } else {
      assert (m + n)[1..] == m[1..] + n;
      FlatMapAppend(f, m[1..], n);
    }
  }

  lemma FlatMapOne<S, T>(f: S -> seq<T>, x: S)
    ensures FlatMap(f, [x]) == f(x)
  {
    assert FlatMap(f, [x]) == f(x) + FlatMap(f, []);
  }

  lemma FlatMapFour<S, T>(f: S -> seq<T>, a: S, b: S, c: S, d: S)
    ensures FlatMap(f, [a, b, c, d]) == f(a) + f(b) + f(c) + f(d)
  {
    assert [a, b, c, d] == [a] + ([b] + ([c] + [d]));
    FlatMapAppend(f, [a], [b] + ([c] + [d]));
    FlatMapAppend(f, [b], [c] + [d]);
    FlatMapAppend(f, [c], [d]);
    FlatMapOne(f, a);
    FlatMapOne(f, b);
    FlatMapOne(f, c);
    FlatMapOne(f, d);
  }

  lemma {:induction false} FlatMapLength<S(!new), T>(f: S -> seq<T>, m: seq<S>, k: nat)
    requires forall x :: |f(x)| == k
    ensures |FlatMap(f, m)| == k * |m|
  {
    if m != [] {
      FlatMapLength(f, m[1..], k);
      assert k * |m| == k + k * |m[1..]|;
    }
  }

  lemma {:induction false} FlatMapInjective<S(!new), T>(f: S -> seq<T>, m: seq<S>, n: seq<S>, k: nat)
    requires k > 0 && forall x :: |f(x)| == k
    requires forall x, y :: f(x) == f(y) ==> x == y
    requires FlatMap(f, m) == FlatMap(f, n)
    ensures m == n
  {
    FlatMapLength(f, m, k);
    FlatMapLength(f, n, k);
    if m == [] || n == [] {
      assert k * |m| == k * |n|;
    } else {
      var x, y := FlatMap(f, m), FlatMap(f, n);
      assert f(m[0]) == x[..k] && f(n[0]) == y[..k];
      assert FlatMap(f, m[1..]) == x[k..] && FlatMap(f, n[1..]) == y[k..];
      FlatMapInjective(f, m[1..], n[1..], k);
    }
  }

  /** All bits of a byte string, octet after octet, each least significant bit first. */
  function AllBits(m: seq<byte>): (s: seq<bool>)
    ensures |s| == 8 * |m|
  {
    FlatMapLength(OctetBits, m, 8);
    FlatMap(OctetBits, m)
  }

  lemma AllBitsInjective(m: seq<byte>, n: seq<byte>)
    requires AllBits(m) == AllBits(n)
    ensures m == n
  {
    forall x: byte, y: byte | OctetBits(x) == OctetBits(y)
      ensures x == y
    {
      OctetRoundTrip(x, OctetBits(x));
      OctetRoundTrip(y, OctetBits(y));
    }
    FlatMapInjective(OctetBits, m, n, 8);
  }

  // ------------------------------------------------------------- 32-bit words

  type Word = w: seq<bool> | |w| == 32 witness seq(32, _ => false)

  /** The word whose bit `i` is set when `p(i)` holds. */
  function WordOf(p: int -> bool): (w: Word)
  {
    seq(32, i requires 0 <= i < 32 => p(i))
  }

  /** Up to 32 bits widened to a word. */
  function Pad(s: seq<bool>): (w: Word)
    requires |s| <= 32
  {
    seq(32, i requires 0 <= i < 32 => i < |s| && s[i])
  }

  /** Exclusive or. */
  function Xor(a: Word, b: Word): (w: Word)
  {
    seq(32, i requires 0 <= i < 32 => a[i] != b[i])
  }

  /** Logical shift right. */
  function Shr(a: Word, n: nat): (w: Word)
  {
    seq(32, i requires 0 <= i < 32 => i + n < 32 && a[i + n])
  }

  /** The octets of a word in little-endian order, as DataView.setUint32 stores them. */
  function LittleEndian(w: Word): (r: seq<byte>)
    ensures |r| == 4
  {
    [OctetValue(w[..8]), OctetValue(w[8..16]), OctetValue(w[16..24]), OctetValue(w[24..])]
  }

  lemma LittleEndianBits(w: Word)
    ensures AllBits(LittleEndian(w)) == w
  {
    var q0, q1, q2, q3 := w[..8], w[8..16], w[16..24], w[24..];
    var v0, v1, v2, v3 := OctetValue(q0), OctetValue(q1), OctetValue(q2), OctetValue(q3);
    OctetRoundTrip(v0, q0);
    OctetRoundTrip(v1, q1);
    OctetRoundTrip(v2, q2);
    OctetRoundTrip(v3, q3);
    FlatMapFour(OctetBits, v0, v1, v2, v3);
    JoinQuarters(w);
  }

  lemma JoinQuarters(w: Word)
    ensures w == w[..8] + w[8..16] + w[16..24] + w[24..]
  {}

  lemma XorLaws(a: Word, b: Word, c: Word)
    ensures Xor(a, b) == Xor(b, a)
    ensures Xor(Xor(a, b), c) == Xor(a, Xor(b, c))
    ensures Xor(Xor(a, b), b) == a
  {}

  lemma XorCancels(a: Word, b: Word, c: Word)
    requires Xor(c, a) == Xor(c, b)
    ensures a == b
  {
    forall i | 0 <= i < 32
      ensures a[i] == b[i]
    {
      assert Xor(c, a)[i] == Xor(c, b)[i];
    }
  }
}
