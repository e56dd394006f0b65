/**
 * The CRC-32 of docs/lib/agentBundle.ts: a 256-entry table built once and a
 * table-driven loop over the message.  The reference it is measured against is
 * the bit-serial shift register, which takes the message one bit at a time.
 */
module Crc {
  import opened Bytes
  import opened Bits

  /** The set bits of 0xEDB88320. */
  predicate PolynomialBit(i: int)
  {
    i == 5 || 8 <= i <= 9 || i == 15 || 19 <= i <= 21 || 23 <= i <= 24 || 26 <= i <= 27 || 29 <= i <= 31
  }

  const POLYNOMIAL: Word := WordOf(PolynomialBit)
  const ONES: Word := AllSet()

  /** 0xFFFFFFFF */
  function AllSet(): (w: Word)
    ensures forall i :: 0 <= i < 32 ==> w[i]
  {
    seq(32, i requires 0 <= i < 32 => true)
  }

  // ------------------------------------------------------------------ reference

  /** One clock of the reflected shift register with input bit `bit`. */
  function Clock(crc: Word, bit: bool): (r: Word)
  {
    if crc[0] != bit then Xor(POLYNOMIAL, Shr(crc, 1)) else Shr(crc, 1)
  }

  /** Takes in a string of bits. */
  function ClockAll(crc: Word, bits: seq<bool>): (r: Word)
    decreases |bits|
  {
    if bits == [] then crc else ClockAll(Clock(crc, bits[0]), bits[1..])
  }

  /** CRC-32 by definition: preset to ones, clock the message through, invert. */
  function Crc32(message: seq<byte>): (r: Word)
  {
    Xor(ClockAll(ONES, AllBits(message)), ONES)
  }

  lemma {:induction false} ClockAllAppend(crc: Word, x: seq<bool>, y: seq<bool>)
    ensures ClockAll(crc, x + y) == ClockAll(ClockAll(crc, x), y)
    decreases |x|
  {
    if x == [] {
      assert x + y == y;
    } else {
      assert (x + y)[1..] == x[1..] + y;
      ClockAllAppend(Clock(crc, x[0]), x[1..], y);
    }
  }

  // --------------------------------------------------------- iteration in general

  function Iterate<T>(f: T -> T, v: T, n: nat): (r: T)
    decreases n
  {
    if n == 0 then v else Iterate(f, f(v), n - 1)
  }

  lemma {:induction false} IterateLinear<T(!new)>(f: T -> T, plus: (T, T) -> T, a: T, b: T, n: nat)
    requires forall x, y :: f(plus(x, y)) == plus(f(x), f(y))
    ensures Iterate(f, plus(a, b), n) == plus(Iterate(f, a, n), Iterate(f, b, n))
    decreases n
  {
    if n > 0 { IterateLinear(f, plus, f(a), f(b), n - 1); }
  }

  lemma {:induction false} IterateInjective<T(!new)>(f: T -> T, a: T, b: T, n: nat)
    requires forall x, y :: f(x) == f(y) ==> x == y
    requires Iterate(f, a, n) == Iterate(f, b, n)
    ensures a == b
    decreases n
  {
    if n > 0 { IterateInjective(f, f(a), f(b), n - 1); }
  }

  // ------------------------------------------------------------ the table's step

  /** The innermost statement of the table builder. */
  function Step(value: Word): (r: Word)
  {
    if value[0] then Xor(POLYNOMIAL, Shr(value, 1)) else Shr(value, 1)
  }

  /** Stepping is linear over exclusive or. */
  lemma StepLinear(a: Word, b: Word)
    ensures Step(Xor(a, b)) == Xor(Step(a), Step(b))
  {}

  lemma StepsLinear(a: Word, b: Word, n: nat)
    ensures Iterate(Step, Xor(a, b), n) == Xor(Iterate(Step, a, n), Iterate(Step, b, n))
  {
    forall x: Word, y: Word
      ensures Step(Xor(x, y)) == Xor(Step(x), Step(y))
    {
      StepLinear(x, y);
    }
    IterateLinear(Step, Xor, a, b, n);
  }

  /** The top bit tells which branch was taken, so a step loses nothing. */
  lemma StepInjective(a: Word, b: Word)
    requires Step(a) == Step(b)
    ensures a == b
  {
    assert PolynomialBit(31) && POLYNOMIAL[31];
    assert Step(a)[31] == a[0] && Step(b)[31] == b[0];
    forall i | 0 <= i < 32
      ensures a[i] == b[i]
    {
      if i > 0 {
        var k := i - 1;
        assert Step(a)[k] == ((a[0] && POLYNOMIAL[k]) != Shr(a, 1)[k]);
        assert Step(b)[k] == ((b[0] && POLYNOMIAL[k]) != Shr(b, 1)[k]);
      }
    }
  }

  lemma StepsInjective(a: Word, b: Word, n: nat)
    requires Iterate(Step, a, n) == Iterate(Step, b, n)
    ensures a == b
  {
    forall x: Word, y: Word | Step(x) == Step(y)
      ensures x == y
    {
      StepInjective(x, y);
    }
    IterateInjective(Step, a, b, n);
  }

  /** Steps only shift while the low bits are clear. */
  lemma {:induction false} StepsShift(v: Word, n: nat)
    requires n <= 32
    requires forall i :: 0 <= i < n ==> !v[i]
    ensures Iterate(Step, v, n) == Shr(v, n)
    decreases n
  {
    if n == 0 {
      assert Shr(v, 0) == v;
    } else {
      var h := Step(v);
      assert h == Shr(v, 1);
      StepsShift(h, n - 1);
      assert Shr(h, n - 1) == Shr(v, n);
    }
  }

  /** The identity behind the table: `n` steps are one lookup by the low bits and one shift. */
  lemma StepsTable(v: Word, n: nat)
    requires n <= 32
    ensures Iterate(Step, v, n) == Xor(Iterate(Step, Pad(v[..n]), n), Shr(v, n))
  {
    var low := Pad(v[..n]);
    var high := Xor(v, low);
    assert v == Xor(low, high);
    StepsLinear(low, high, n);
    StepsShift(high, n);
    assert Shr(high, n) == Shr(v, n);
  }

  /** One clock with input is one step of the register with all pending bits mixed in. */
  lemma ClockIsStep(crc: Word, bits: seq<bool>)
    requires 0 < |bits| <= 32
    ensures Step(Xor(crc, Pad(bits))) == Xor(Clock(crc, bits[0]), Pad(bits[1..]))
  {
    var l, r := Step(Xor(crc, Pad(bits))), Xor(Clock(crc, bits[0]), Pad(bits[1..]));
    forall i | 0 <= i < 32
      ensures l[i] == r[i]
    {
      assert Shr(Xor(crc, Pad(bits)), 1)[i] == (Shr(crc, 1)[i] != Pad(bits[1..])[i]);
    }
  }

  /** Up to four octets can be mixed in at once and stepped through together. */
  lemma {:induction false} ClockAllIsSteps(crc: Word, bits: seq<bool>)
    requires |bits| <= 32
    ensures ClockAll(crc, bits) == Iterate(Step, Xor(crc, Pad(bits)), |bits|)
    decreases |bits|
  {
    if bits == [] {
      assert Xor(crc, Pad(bits)) == crc;
    } else {
      ClockIsStep(crc, bits);
      ClockAllIsSteps(Clock(crc, bits[0]), bits[1..]);
    }
  }

  // ---------------------------------------------------------- the code that runs

  /** The entry the table builder stores at index `b`. */
  function TableEntry(b: byte): (r: Word)
  {
    Iterate(Step, Pad(OctetBits(b)), |OctetBits(b)|)
  }

  /** The inner loop of the table builder. */
  method TableValue(index: byte) returns (value: Word)
    ensures value == TableEntry(index)
  {
    hide Xor, Shr, Pad, OctetBits;
    ghost var eight := |OctetBits(index)|;
    value := Pad(OctetBits(index));
    var bit := 0;
    while bit < 8
      invariant 0 <= bit <= 8
      invariant Iterate(Step, value, eight - bit) == TableEntry(index)
    {
      if value[0] {
        value := Xor(POLYNOMIAL, Shr(value, 1));
      } else {
        value := Shr(value, 1);
      }
      bit := bit + 1;
    }
  }

  /** The first `n` entries of the table. */
  ghost function Entries(n: nat): (r: seq<Word>)
    requires n <= 256
    ensures |r| == n
  {
    if n == 0 then [] else Entries(n - 1) + [TableEntry(n - 1)]
  }

  lemma {:induction false} EntriesAt(n: nat, b: byte)
    requires b < n <= 256
    ensures Entries(n)[b] == TableEntry(b)
  {
    if b < n - 1 { EntriesAt(n - 1, b); }
  }

  /** CRC_TABLE: 256 entries, each eight steps from its index. */
  method BuildTable() returns (table: array<Word>)
    ensures fresh(table) && table.Length == 256
    ensures table[..] == Entries(table.Length)
  {
    hide TableEntry;
    table := new Word[256];
    var index := 0;
    while index < table.Length
      invariant 0 <= index <= table.Length
      invariant table[..index] == Entries(index)
    {
      var value := TableValue(index);
      table[index] := value;
      index := index + 1;
      assert table[..index] == table[..index - 1] + [value];
    }
  }

  /** One pass of the table loop's body equals eight clocks of the register. */
  lemma LookupIsOctet(crc: Word, b: byte)
    ensures Xor(TableEntry(Slot(crc, b)), Shr(crc, 8)) == ClockAll(crc, OctetBits(b))
  {
    hide ClockAll, OctetBits, OctetValue, Iterate;
    var v := Xor(crc, Pad(OctetBits(b)));
    ClockAllIsSteps(crc, OctetBits(b));
    StepsTable(v, |OctetBits(b)|);
    OctetRoundTrip(b, v[..8]);
    assert Shr(v, 8) == Shr(crc, 8);
  }

  /** What the table loop must add when it moves past octet `k`. */
  lemma RegisterAdvances(bytes: seq<byte>, k: nat)
    requires k < |bytes|
    ensures ClockAll(ONES, AllBits(bytes[..k + 1])) ==
      ClockAll(ClockAll(ONES, AllBits(bytes[..k])), OctetBits(bytes[k]))
  {
    assert bytes[..k + 1] == bytes[..k] + [bytes[k]];
    FlatMapAppend(OctetBits, bytes[..k], [bytes[k]]);
    FlatMapOne(OctetBits, bytes[k]);
    ClockAllAppend(ONES, AllBits(bytes[..k]), OctetBits(bytes[k]));
  }

  /** The slot the table loop looks up. */
  function Slot(crc: Word, b: byte): (r: byte)
  {
    OctetValue(Xor(crc, Pad(OctetBits(b)))[..8])
  }

  lemma NoOctets()
    ensures ClockAll(ONES, AllBits([])) == ONES
  {}

  /** crc32: the table-driven loop computes the bit-serial CRC of every message. */
  method TableCrc32(table: array<Word>, bytes: seq<byte>) returns (r: Word)
    requires table.Length == 256
    requires table[..] == Entries(table.Length)
    ensures r == Crc32(bytes)
  {
    hide ClockAll, AllBits, Entries;
    NoOctets();
    var crc := ONES;
    var k := 0;
    while k < |bytes|
      invariant 0 <= k <= |bytes|
      invariant crc == ClockAll(ONES, AllBits(bytes[..k]))
    {
      crc := LookUp(table, crc, bytes[k]);
      RegisterAdvances(bytes, k);
      k := k + 1;
    }
    assert bytes[..k] == bytes;
    r := Xor(crc, ONES);
  }

  /** The body of the table loop. */
  method LookUp(table: array<Word>, crc: Word, b: byte) returns (r: Word)
    requires table.Length == 256
    requires table[..] == Entries(table.Length)
    ensures r == ClockAll(crc, OctetBits(b))
  {
    var slot := Slot(crc, b);
    r := Xor(table[slot], Shr(crc, 8));
    EntriesAt(table.Length, slot);
    LookupIsOctet(crc, b);
  }

  // ----------------------------------------------------------- what a CRC is for

  /** The register never forgets a difference. */
  lemma {:induction false} ClockAllInjective(a: Word, b: Word, bits: seq<bool>)
    requires ClockAll(a, bits) == ClockAll(b, bits)
    ensures a == b
    decreases |bits|
  {
    if bits != [] {
      ClockAllInjective(Clock(a, bits[0]), Clock(b, bits[0]), bits[1..]);
      var one := Pad(bits[..1]);
      ClockIsStep(a, bits[..1]);
      ClockIsStep(b, bits[..1]);
      StepInjective(Xor(a, one), Xor(b, one));
      XorLaws(a, one, one);
      XorLaws(b, one, one);
    }
  }

  /** From one register state, different strings of up to four octets lead to different states. */
  lemma ShortStringsDiffer(start: Word, x: seq<byte>, y: seq<byte>)
    requires |x| == |y| <= 4
    requires ClockAll(start, AllBits(x)) == ClockAll(start, AllBits(y))
    ensures x == y
  {
    var p, q := AllBits(x), AllBits(y);
    ClockAllIsSteps(start, p);
    ClockAllIsSteps(start, q);
    StepsInjective(Xor(start, Pad(p)), Xor(start, Pad(q)), |p|);
    XorCancels(Pad(p), Pad(q), start);
    PadInjective(p, q);
    AllBitsInjective(x, y);
  }

  lemma PadInjective(p: seq<bool>, q: seq<bool>)
    requires |p| == |q| <= 32 && Pad(p) == Pad(q)
    ensures p == q
  {
    forall i | 0 <= i < |p|
      ensures p[i] == q[i]
    {
      assert Pad(p)[i] == Pad(q)[i];
    }
  }

  lemma Crc32Injective(m: seq<byte>, n: seq<byte>)
    requires Crc32(m) == Crc32(n)
    ensures ClockAll(ONES, AllBits(m)) == ClockAll(ONES, AllBits(n))
  {
    var a, b := ClockAll(ONES, AllBits(m)), ClockAll(ONES, AllBits(n));
    XorLaws(a, ONES, ONES);
    XorLaws(b, ONES, ONES);
  }

  /** Messages of equal length that differ only inside four consecutive octets have different CRCs. */
  lemma BurstDetected(m: seq<byte>, n: seq<byte>, i: nat, j: nat)
    requires |m| == |n| && i <= j <= |m| && j - i <= 4
    requires m[..i] == n[..i] && m[j..] == n[j..]
    ensures m != n ==> Crc32(m) != Crc32(n)
  {
    if Crc32(m) == Crc32(n) {
      MiddlesAgree(m, n, i, j);
      assert m == m[..i] + m[i..j] + m[j..] && n == n[..i] + n[i..j] + n[j..];
    }
  }

  lemma MiddlesAgree(m: seq<byte>, n: seq<byte>, i: nat, j: nat)
    requires |m| == |n| && i <= j <= |m| && j - i <= 4
    requires m[..i] == n[..i] && m[j..] == n[j..]
    requires Crc32(m) == Crc32(n)
    ensures m[i..j] == n[i..j]
  {
    var start := ClockAll(ONES, AllBits(m[..i]));
    Crc32Injective(m, n);
    SplitMessage(m, i, j);
    SplitMessage(n, i, j);
    ClockAllInjective(ClockAll(start, AllBits(m[i..j])), ClockAll(start, AllBits(n[i..j])), AllBits(m[j..]));
    ShortStringsDiffer(start, m[i..j], n[i..j]);
  }

  lemma SplitMessage(m: seq<byte>, i: nat, j: nat)
    requires i <= j <= |m|
    ensures ClockAll(ONES, AllBits(m))
         == ClockAll(ClockAll(ClockAll(ONES, AllBits(m[..i])), AllBits(m[i..j])), AllBits(m[j..]))
  {
    var a, b, c := m[..i], m[i..j], m[j..];
    assert m == a + (b + c);
    FlatMapAppend(OctetBits, a, b + c);
    FlatMapAppend(OctetBits, b, c);
    ClockAllAppend(ONES, AllBits(a), AllBits(b) + AllBits(c));
    ClockAllAppend(ClockAll(ONES, AllBits(a)), AllBits(b), AllBits(c));
  }

  // ------------------------------------------------------------------ the residue

  /** The set bits of 0x2144DF1C. */
  predicate ResidueBit(i: int)
  {
    2 <= i <= 4 || 8 <= i <= 12 || 14 <= i <= 15 || i == 18 || i == 22 || i == 24 || i == 29
  }

  const RESIDUE: Word := WordOf(ResidueBit)

  /** A message followed by its own CRC, least significant octet first, leaves a fixed CRC. */
  lemma ResidueOf(m: seq<byte>)
    ensures Crc32(m + LittleEndian(Crc32(m))) == RESIDUE
  {
    var r, c := ClockAll(ONES, AllBits(m)), Crc32(m);
    FlatMapAppend(OctetBits, m, LittleEndian(c));
    LittleEndianBits(c);
    ClockAllAppend(ONES, AllBits(m), c);
    ClockAllIsSteps(r, c);
    OnesRemain(r);
    OnesToResidue(|c|);
  }

  lemma OnesRemain(r: Word)
    ensures Xor(r, Pad(Xor(r, ONES))) == ONES
  {}

  /** Bits `t` are one step from bits `r`. */
  ghost predicate Next(r: int -> bool, t: int -> bool)
  {
    forall i :: 0 <= i < 32 ==> (t(i) <==> ((i < 31 && r(i + 1)) != (r(0) && PolynomialBit(i))))
  }

  lemma {:induction false} FourSteps(
      r0: int -> bool, r1: int -> bool, r2: int -> bool, r3: int -> bool, r4: int -> bool, n: nat)
    requires Next(r0, r1) && Next(r1, r2) && Next(r2, r3) && Next(r3, r4)
    requires n >= 4
    ensures Iterate(Step, WordOf(r0), n) == Iterate(Step, WordOf(r4), n - 4)
  {
    NextIsStep(r0, r1);
    NextIsStep(r1, r2);
    NextIsStep(r2, r3);
    NextIsStep(r3, r4);
    assert Iterate(Step, WordOf(r0), n) == Iterate(Step, WordOf(r1), n - 1) == Iterate(Step, WordOf(r2), n - 2)
        == Iterate(Step, WordOf(r3), n - 3);
  }

  lemma NextIsStep(r: int -> bool, t: int -> bool)
    requires Next(r, t)
    ensures Step(WordOf(r)) == WordOf(t)
  {
    var v, w := WordOf(r), WordOf(t);
    forall i | 0 <= i < 32
      ensures Step(v)[i] == w[i]
    {
      assert Shr(v, 1)[i] == (i < 31 && r(i + 1));
    }
  }

  /** The register 0 to 32 steps after all ones, as its set bits. */
  predicate R0(i: int) { 0 <= i <= 31 }
  predicate R1(i: int)
  {
    0 <= i <= 4 || 6 <= i <= 7 || 10 <= i <= 14 || 16 <= i <= 18 || i == 22 || i == 25 || i == 28 ||
    i == 31
  }
  predicate R2(i: int)
  {
    0 <= i <= 3 || i == 6 || i == 8 || 10 <= i <= 13 || 16 <= i <= 17 || 19 <= i <= 20 || i == 23 ||
    i == 26 || i == 29 || i == 31
  }
  predicate R3(i: int) { 0 <= i <= 2 || 7 <= i <= 8 || 10 <= i <= 12 || i == 16 || i == 18 || 20 <= i <= 29 || i == 31 }
  predicate R4(i: int)
  {
    0 <= i <= 1 || 5 <= i <= 8 || 10 <= i <= 11 || i == 17 || i == 22 || i == 25 || 28 <= i <= 29 ||
    i == 31
  }
  predicate R5(i: int)
  {
    i == 0 || i == 4 || 6 <= i <= 8 || i == 10 || 15 <= i <= 16 || 19 <= i <= 20 || i == 23 || i == 26 ||
    28 <= i <= 29 || i == 31
  }
  predicate R6(i: int) { i == 3 || 6 <= i <= 8 || i == 14 || i == 18 || 20 <= i <= 26 || 28 <= i <= 29 || i == 31 }
  predicate R7(i: int) { i == 2 || 5 <= i <= 7 || i == 13 || i == 17 || 19 <= i <= 25 || 27 <= i <= 28 || i == 30 }
  predicate R8(i: int) { i == 1 || 4 <= i <= 6 || i == 12 || i == 16 || 18 <= i <= 24 || 26 <= i <= 27 || i == 29 }
  predicate R9(i: int) { i == 0 || 3 <= i <= 5 || i == 11 || i == 15 || 17 <= i <= 23 || 25 <= i <= 26 || i == 28 }
  predicate R10(i: int)
  {
    2 <= i <= 5 || 8 <= i <= 10 || 14 <= i <= 18 || 22 <= i <= 23 || 25 <= i <= 26 || 29 <= i <= 31
  }
  predicate R11(i: int)
  {
    1 <= i <= 4 || 7 <= i <= 9 || 13 <= i <= 17 || 21 <= i <= 22 || 24 <= i <= 25 || 28 <= i <= 30
  }
  predicate R12(i: int)
  {
    0 <= i <= 3 || 6 <= i <= 8 || 12 <= i <= 16 || 20 <= i <= 21 || 23 <= i <= 24 || 27 <= i <= 29
  }
  predicate R13(i: int) { 0 <= i <= 2 || 6 <= i <= 9 || 11 <= i <= 14 || 21 <= i <= 22 || i == 24 || 28 <= i <= 31 }
  predicate R14(i: int)
  {
    0 <= i <= 1 || 6 <= i <= 7 || 9 <= i <= 13 || i == 15 || i == 19 || i == 24 || i == 26 || i == 28 ||
    i == 31
  }
  predicate R15(i: int)
  {
    i == 0 || i == 6 || 10 <= i <= 12 || 14 <= i <= 15 || 18 <= i <= 21 || 24 <= i <= 26 || i == 29 ||
    i == 31
  }
  predicate R16(i: int)
  {
    i == 8 || 10 <= i <= 11 || 13 <= i <= 15 || 17 <= i <= 18 || i == 21 || 25 <= i <= 29 || i == 31
  }
  predicate R17(i: int)
  {
    i == 7 || 9 <= i <= 10 || 12 <= i <= 14 || 16 <= i <= 17 || i == 20 || 24 <= i <= 28 || i == 30
  }
  predicate R18(i: int)
  {
    i == 6 || 8 <= i <= 9 || 11 <= i <= 13 || 15 <= i <= 16 || i == 19 || 23 <= i <= 27 || i == 29
  }
  predicate R19(i: int)
  {
    i == 5 || 7 <= i <= 8 || 10 <= i <= 12 || 14 <= i <= 15 || i == 18 || 22 <= i <= 26 || i == 28
  }
  predicate R20(i: int)
  {
    i == 4 || 6 <= i <= 7 || 9 <= i <= 11 || 13 <= i <= 14 || i == 17 || 21 <= i <= 25 || i == 27
  }
  predicate R21(i: int)
  {
    i == 3 || 5 <= i <= 6 || 8 <= i <= 10 || 12 <= i <= 13 || i == 16 || 20 <= i <= 24 || i == 26
  }
  predicate R22(i: int) { i == 2 || 4 <= i <= 5 || 7 <= i <= 9 || 11 <= i <= 12 || i == 15 || 19 <= i <= 23 || i == 25 }
  predicate R23(i: int) { i == 1 || 3 <= i <= 4 || 6 <= i <= 8 || 10 <= i <= 11 || i == 14 || 18 <= i <= 22 || i == 24 }
  predicate R24(i: int) { i == 0 || 2 <= i <= 3 || 5 <= i <= 7 || 9 <= i <= 10 || i == 13 || 17 <= i <= 21 || i == 23 }
  predicate R25(i: int)
  {
    1 <= i <= 2 || i == 4 || i == 6 || i == 12 || 15 <= i <= 18 || 21 <= i <= 24 || 26 <= i <= 27 ||
    29 <= i <= 31
  }
  predicate R26(i: int)
  {
    0 <= i <= 1 || i == 3 || i == 5 || i == 11 || 14 <= i <= 17 || 20 <= i <= 23 || 25 <= i <= 26 ||
    28 <= i <= 30
  }
  predicate R27(i: int)
  {
    i == 0 || i == 2 || 4 <= i <= 5 || 8 <= i <= 10 || 13 <= i <= 14 || i == 16 || 22 <= i <= 23 ||
    25 <= i <= 26 || i == 28 || 30 <= i <= 31
  }
  predicate R28(i: int)
  {
    i == 1 || 3 <= i <= 5 || i == 7 || 12 <= i <= 13 || 19 <= i <= 20 || 22 <= i <= 23 || 25 <= i <= 26 ||
    i == 31
  }
  predicate R29(i: int)
  {
    i == 0 || 2 <= i <= 4 || i == 6 || 11 <= i <= 12 || 18 <= i <= 19 || 21 <= i <= 22 || 24 <= i <= 25 ||
    i == 30
  }
  predicate R30(i: int) { 1 <= i <= 3 || 8 <= i <= 11 || i == 15 || 17 <= i <= 19 || 26 <= i <= 27 || 30 <= i <= 31 }
  predicate R31(i: int) { 0 <= i <= 2 || 7 <= i <= 10 || i == 14 || 16 <= i <= 18 || 25 <= i <= 26 || 29 <= i <= 30 }
  predicate R32(i: int)
  {
    0 <= i <= 1 || 5 <= i <= 7 || i == 13 || 16 <= i <= 17 || 19 <= i <= 21 || i == 23 || 25 <= i <= 28 ||
    30 <= i <= 31
  }

  lemma Rows0()
    ensures Next(R0, R1) && Next(R1, R2)
  {}

  lemma Rows2()
    ensures Next(R2, R3) && Next(R3, R4)
  {}

  lemma Run0(n: nat)
    requires n >= 4
    ensures Iterate(Step, WordOf(R0), n) == Iterate(Step, WordOf(R4), n - 4)
  {
    hide Step, Next, WordOf;
    Rows0();
    Rows2();
    FourSteps(R0, R1, R2, R3, R4, n);
  }

  lemma Rows4()
    ensures Next(R4, R5) && Next(R5, R6)
  {}

  lemma Rows6()
    ensures Next(R6, R7) && Next(R7, R8)
  {}

  lemma Run4(n: nat)
    requires n >= 8
    ensures Iterate(Step, WordOf(R0), n) == Iterate(Step, WordOf(R8), n - 8)
  {
    hide Step, Next, WordOf;
    Run0(n);
    Rows4();
    Rows6();
    FourSteps(R4, R5, R6, R7, R8, n - 4);
  }

  lemma Rows8()
    ensures Next(R8, R9) && Next(R9, R10)
  {}

  lemma Rows10()
    ensures Next(R10, R11) && Next(R11, R12)
  {}

  lemma Run8(n: nat)
    requires n >= 12
    ensures Iterate(Step, WordOf(R0), n) == Iterate(Step, WordOf(R12), n - 12)
  {
    hide Step, Next, WordOf;
    Run4(n);
    Rows8();
    Rows10();
    FourSteps(R8, R9, R10, R11, R12, n - 8);
  }

  lemma Rows12()
    ensures Next(R12, R13) && Next(R13, R14)
  {}

  lemma Rows14()
    ensures Next(R14, R15) && Next(R15, R16)
  {}

  lemma Run12(n: nat)
    requires n >= 16
    ensures Iterate(Step, WordOf(R0), n) == Iterate(Step, WordOf(R16), n - 16)
  {
    hide Step, Next, WordOf;
    Run8(n);
    Rows12();
    Rows14();
    FourSteps(R12, R13, R14, R15, R16, n - 12);
  }

  lemma Rows16()
    ensures Next(R16, R17) && Next(R17, R18)
  {}

  lemma Rows18()
    ensures Next(R18, R19) && Next(R19, R20)
  {}

  lemma Run16(n: nat)
    requires n >= 20
    ensures Iterate(Step, WordOf(R0), n) == Iterate(Step, WordOf(R20), n - 20)
  {
    hide Step, Next, WordOf;
    Run12(n);
    Rows16();
    Rows18();
    FourSteps(R16, R17, R18, R19, R20, n - 16);
  }

  lemma Rows20()
    ensures Next(R20, R21) && Next(R21, R22)
  {}

  lemma Rows22()
    ensures Next(R22, R23) && Next(R23, R24)
  {}

  lemma Run20(n: nat)
    requires n >= 24
    ensures Iterate(Step, WordOf(R0), n) == Iterate(Step, WordOf(R24), n - 24)
  {
    hide Step, Next, WordOf;
    Run16(n);
    Rows20();
    Rows22();
    FourSteps(R20, R21, R22, R23, R24, n - 20);
  }

  lemma Rows24()
    ensures Next(R24, R25) && Next(R25, R26)
  {}

  lemma Rows26()
    ensures Next(R26, R27) && Next(R27, R28)
  {}

  lemma Run24(n: nat)
    requires n >= 28
    ensures Iterate(Step, WordOf(R0), n) == Iterate(Step, WordOf(R28), n - 28)
  {
    hide Step, Next, WordOf;
    Run20(n);
    Rows24();
    Rows26();
    FourSteps(R24, R25, R26, R27, R28, n - 24);
  }

  lemma Rows28()
    ensures Next(R28, R29) && Next(R29, R30)
  {}

  lemma Rows30()
    ensures Next(R30, R31) && Next(R31, R32)
  {}

  lemma Run28(n: nat)
    requires n >= 32
    ensures Iterate(Step, WordOf(R0), n) == Iterate(Step, WordOf(R32), n - 32)
  {
    hide Step, Next, WordOf;
    Run24(n);
    Rows28();
    Rows30();
    FourSteps(R28, R29, R30, R31, R32, n - 28);
  }

  lemma OnesToResidue(n: nat)
    requires n == 32
    ensures Xor(Iterate(Step, ONES, n), ONES) == RESIDUE
  {
    assert ONES == WordOf(R0);
    Run28(n);
    LastRow();
  }

  lemma LastRow()
    ensures Xor(WordOf(R32), ONES) == RESIDUE
  {
    assert forall i :: 0 <= i < 32 ==> (ResidueBit(i) <==> !R32(i));
  }

  // -------------------------------------------------------------------------- known values

  /** The register `r` after a clock with input `bit` is `t`. */
  ghost predicate Clocked(r: int -> bool, bit: bool, t: int -> bool)
  {
    forall i :: 0 <= i < 32 ==> (t(i) <==> ((i < 31 && r(i + 1)) != ((r(0) != bit) && PolynomialBit(i))))
  }

  lemma ClockedIs(r: int -> bool, bit: bool, t: int -> bool)
    requires Clocked(r, bit, t)
    ensures Clock(WordOf(r), bit) == WordOf(t)
  {}

  predicate A1(i: int) { 0 <= i <= 30 }
  predicate A2(i: int)
  {
    0 <= i <= 4 || 6 <= i <= 7 || 10 <= i <= 14 || 16 <= i <= 18 || i == 22 || i == 25 || i == 28 ||
    30 <= i <= 31
  }
  predicate A3(i: int)
  {
    0 <= i <= 3 || i == 6 || i == 8 || 10 <= i <= 13 || 16 <= i <= 17 || 19 <= i <= 20 || i == 23 || i == 26 ||
    i == 31
  }
  predicate A4(i: int)
  {
    0 <= i <= 2 || 7 <= i <= 8 || 10 <= i <= 12 || i == 16 || i == 18 || 20 <= i <= 27 || i == 29 || i == 31
  }
  predicate A5(i: int)
  {
    0 <= i <= 1 || 5 <= i <= 8 || 10 <= i <= 11 || i == 17 || i == 22 || i == 25 || 27 <= i <= 29 || i == 31
  }
  predicate A6(i: int)
  {
    i == 0 || 4 <= i <= 7 || 9 <= i <= 10 || i == 16 || i == 21 || i == 24 || 26 <= i <= 28 || i == 30
  }
  predicate A7(i: int) { 3 <= i <= 6 || 8 <= i <= 9 || i == 15 || i == 20 || i == 23 || 25 <= i <= 27 || i == 29 }
  predicate A8(i: int) { 2 <= i <= 5 || 7 <= i <= 8 || i == 14 || i == 19 || i == 22 || 24 <= i <= 26 || i == 28 }

  /** The bits of 0xE8B7BE43. */
  predicate CrcOfABit(i: int)
  {
    0 <= i <= 1 || i == 6 || 9 <= i <= 13 || 15 <= i <= 18 || 20 <= i <= 21 || i == 23 || i == 27 ||
    29 <= i <= 31
  }

  lemma ClockOfA0()
    ensures Clocked(R0, true, A1)
  {}

  lemma ClockOfA1()
    ensures Clocked(A1, false, A2)
  {}

  lemma ClockOfA2()
    ensures Clocked(A2, false, A3)
  {}

  lemma ClockOfA3()
    ensures Clocked(A3, false, A4)
  {}

  lemma ClockOfA4()
    ensures Clocked(A4, false, A5)
  {}

  lemma ClockOfA5()
    ensures Clocked(A5, true, A6)
  {}

  lemma ClockOfA6()
    ensures Clocked(A6, true, A7)
  {}

  lemma ClockOfA7()
    ensures Clocked(A7, false, A8)
  {}

  /** The octet 0x61, least significant bit first. */
  lemma BitsOfA()
    ensures AllBits([0x61]) == [true, false, false, false, false, true, true, false]
  {
    hide BitsOf;
    FlatMapOne(OctetBits, 0x61);
    LowBit(0x61, 8);
    LowBit(0x30, 7);
    LowBit(0x18, 6);
    LowBit(0x0C, 5);
    LowBit(0x06, 4);
    LowBit(0x03, 3);
    LowBit(0x01, 2);
    LowBit(0, 1);
    LowBit(0, 0);
  }

  lemma LowBit(x: nat, k: nat)
    ensures BitsOf(x, k) == if k == 0 then [] else [x % 2 == 1] + BitsOf(x / 2, k - 1)
  {}

  lemma {:induction false} ClockAllTwo(crc: Word, a: bool, b: bool, rest: seq<bool>)
    ensures ClockAll(crc, [a, b] + rest) == ClockAll(Clock(Clock(crc, a), b), rest)
  {
    assert ([a, b] + rest)[1..] == [b] + rest && ([b] + rest)[1..] == rest;
  }

  lemma TwoClocks(r: int -> bool, s: int -> bool, t: int -> bool, a: bool, b: bool, rest: seq<bool>)
    requires Clocked(r, a, s) && Clocked(s, b, t)
    ensures ClockAll(WordOf(r), [a, b] + rest) == ClockAll(WordOf(t), rest)
  {
    hide Clocked, WordOf, ClockAll, Clock;
    ClockedIs(r, a, s);
    ClockedIs(s, b, t);
    ClockAllTwo(WordOf(r), a, b, rest);
  }

  /** Known values: the CRC of nothing is zero and that of the letter a is 0xE8B7BE43. */
  lemma KnownValues()
    ensures (forall i :: 0 <= i < 32 ==> !Crc32([])[i]) && Crc32([0x61]) == WordOf(CrcOfABit)
  {
    CrcOfNothing();
    LastOfA();
    RegisterAfterA();
    BitsOfA();
    hide WordOf, ClockAll, AllBits;
  }

  lemma RegisterAfterA()
    ensures ClockAll(ONES, [true, false, false, false, false, true, true, false]) == WordOf(A8)
  {
    hide Clocked, WordOf, ClockAll;
    OnesAreR0();
    ClockOfA0();
    ClockOfA1();
    ClockOfA2();
    ClockOfA3();
    ClockOfA4();
    ClockOfA5();
    ClockOfA6();
    ClockOfA7();
    var b6: seq<bool> := [true, false];
    var b4: seq<bool> := [false, true] + b6;
    var b2: seq<bool> := [false, false] + b4;
    assert [true, false] + b2 == [true, false, false, false, false, true, true, false];
    TwoClocks(R0, A1, A2, true, false, b2);
    TwoClocks(A2, A3, A4, false, false, b4);
    TwoClocks(A4, A5, A6, false, true, b6);
    assert b6 + [] == b6;
    TwoClocks(A6, A7, A8, true, false, []);
    ClockNothing(WordOf(A8));
  }

  lemma ClockNothing(crc: Word)
    ensures ClockAll(crc, []) == crc
  {}

  lemma OnesAreR0()
    ensures ONES == WordOf(R0)
  {
    assert ONES == WordOf(R0);
  }

  lemma CrcOfNothing()
    ensures forall i :: 0 <= i < 32 ==> !Crc32([])[i]
  {
    assert AllBits([]) == [];
    ClockNothing(ONES);
    hide ClockAll, AllBits;
  }

  lemma LastOfA()
    ensures Xor(WordOf(A8), ONES) == WordOf(CrcOfABit)
  {
    assert forall i :: 0 <= i < 32 ==> (CrcOfABit(i) <==> !A8(i));
  }
}
