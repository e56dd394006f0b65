/**
 * The DER writer of docs/lib/issueSubmission.ts that wraps a PKCS#1 key as PKCS#8, and a
 * reader by sections 8.1.3 and 10.1 of ITU-T X.690. Shifts in the source are on 32 bits.
 */
module Der {
  import opened Options
  import opened Bytes

  const WORD: nat := 0x1_0000_0000

  // ------------------------------------------------------------------------ length octets

  /** The octets the loop collects: the low octet, then what `>>>= 8` leaves of it. */
  function LengthOctets(n: nat): (r: seq<byte>)
    ensures n > 0 ==> r != []
    ensures |r| <= 4
    ensures n < 0x1_000000 ==> |r| <= 3
    ensures n < 0x1_0000 ==> |r| <= 2
    ensures n < 0x100 ==> |r| <= 1
  {
    if n == 0 then [] else LengthOctets(n % WORD / 256) + [n % 256]
  }

  function EncodeLength(n: nat): (r: seq<byte>)
  {
    if n < 128 then [n] else [0x80 + |LengthOctets(n)|] + LengthOctets(n)
  }

  lemma JoinOctet(front: seq<byte>, b: byte, rest: seq<byte>)
    ensures (front + [b]) + rest == front + ([b] + rest)
  {}

  /** encodeAsn1Length */
  method EncodeAsn1Length(length: nat) returns (r: seq<byte>)
    ensures r == EncodeLength(length)
  {
    if length < 128 { return [length]; }
    var bytes: seq<byte> := [];
    var remaining: nat := length;
    while remaining > 0
      invariant LengthOctets(remaining) + bytes == LengthOctets(length)
    {
      JoinOctet(LengthOctets(remaining % WORD / 256), remaining % 256, bytes);
      bytes := [remaining % 256] + bytes;
      remaining := remaining % WORD / 256;
    }
    assert LengthOctets(0) + bytes == bytes;
    return [0x80 + |bytes|] + bytes;
  }

  /** The number a big-endian octet string stands for. */
  function Number(s: seq<byte>): (n: nat)
  {
    if s == [] then 0 else 256 * Number(s[..|s| - 1]) + s[|s| - 1]
  }

  lemma NumberSnoc(s: seq<byte>, x: byte)
    ensures Number(s + [x]) == 256 * Number(s) + x
  {
    assert (s + [x])[..|s|] == s;
  }

  /** The octets stand for the length modulo 2^32. */
  lemma {:induction false} OctetsStandFor(n: nat)
    ensures Number(LengthOctets(n)) == n % WORD
  {
    hide Number;
    if n > 0 {
      var m := n % WORD / 256;
      OctetsStandFor(m);
      NumberSnoc(LengthOctets(m), n % 256);
      OctetStep(n);
    } else {
      NumberOfNothing();
    }
  }

  lemma NumberOfNothing()
    ensures Number([]) == 0
  {}

  lemma OctetStep(n: nat)
    ensures var m := n % WORD / 256; m % WORD == m && 256 * m + n % 256 == n % WORD
  {
    LowOctet(n);
  }

  lemma {:induction false} NoLeadingZero(n: nat)
    requires 0 < n < WORD
    ensures LengthOctets(n)[0] != 0
  {
    var m := n / 256;
    assert n % WORD == n;
    if m > 0 { NoLeadingZero(m); } else { assert LengthOctets(0) == []; }
  }

  lemma LowOctet(n: nat)
    ensures n % 256 == n % WORD % 256
  {
    var q, w := n / WORD, n % WORD;
    var k := 0x100_0000 * q + w / 256;
    assert n == 256 * k + w % 256;
  }

  // ------------------------------------------------------------------------------- reader

  /** A length in its minimal definite form, and the number of octets it takes. */
  function ReadLength(s: seq<byte>): (r: Option<(nat, nat)>)
    ensures r.Some? ==> 0 < r.value.1 <= |s|
  {
    if s == [] then None
    else if s[0] < 128 then Some((s[0], 1))
    else
      var k := s[0] - 128;
      if k == 0 || k == 127 || 1 + k > |s| then None
      else
        var n := Number(s[1..1 + k]);
        if s[1] == 0 || n < 128 then None else Some((n, 1 + k))
  }

  datatype Element = Element(tag: byte, content: seq<byte>, rest: seq<byte>)

  function ReadElement(s: seq<byte>): (r: Option<Element>)
  {
    if s == [] then None
    else match ReadLength(s[1..])
      case None => None
      case Some((n, k)) =>
        if 1 + k + n > |s| then None else Some(Element(s[0], s[1 + k..1 + k + n], s[1 + k + n..]))
  }

  lemma LengthReadsBack(n: nat, rest: seq<byte>)
    ensures n < WORD ==> ReadLength(EncodeLength(n) + rest) == Some((n, |EncodeLength(n)|))
    ensures n >= WORD ==> ReadLength(EncodeLength(n) + rest).None? || ReadLength(EncodeLength(n) + rest).value.0 < n
  {
    var s := EncodeLength(n) + rest;
    if n >= 128 {
      var octets := LengthOctets(n);
      OctetsStandFor(n);
      if n < WORD { NoLeadingZero(n); }
      assert s[0] == 0x80 + |octets| && s[1..1 + |octets|] == octets;
      assert s[1] == octets[0];
    }
  }

  // ------------------------------------------------------------------------------- writer

  /** result.set(array, offset) */
  method Fill(result: array<byte>, data: seq<byte>, offset: nat)
    requires offset + |data| <= result.Length
    modifies result
    ensures result[..offset] == old(result[..offset]) && result[offset..offset + |data|] == data
  {
    var i := 0;
    while i < |data|
      invariant 0 <= i <= |data|
      invariant result[..offset] == old(result[..offset]) && result[offset..offset + i] == data[..i]
    {
      result[offset + i] := data[i];
      assert result[offset..offset + i + 1] == result[offset..offset + i] + [data[i]] &&
        data[..i + 1] == data[..i] + [data[i]];
      i := i + 1;
    }
    assert data[..i] == data;
  }

  /** concatBytes */
  method ConcatBytes(arrays: seq<seq<byte>>) returns (result: array<byte>)
    ensures fresh(result) && result[..] == Concat(arrays)
  {
    var total := 0;
    var i := 0;
    while i < |arrays|
      invariant 0 <= i <= |arrays| && total == |Concat(arrays[..i])|
    {
      ConcatPrefix(arrays, i);
      total := total + |arrays[i]|;
      i := i + 1;
    }
    assert arrays[..i] == arrays;
    result := new byte[total](_ => 0);
    var offset := 0;
    i := 0;
    while i < |arrays|
      invariant 0 <= i <= |arrays| && offset == |Concat(arrays[..i])| <= result.Length
      invariant result.Length == |Concat(arrays)|
      invariant result[..offset] == Concat(arrays[..i])
    {
      ConcatPrefix(arrays, i);
      ConcatStarts(arrays, i + 1);
      Fill(result, arrays[i], offset);
      assert result[..offset + |arrays[i]|] == result[..offset] + result[offset..offset + |arrays[i]|];
      offset := offset + |arrays[i]|;
      i := i + 1;
    }
    assert arrays[..i] == arrays && result[..] == result[..offset];
  }

  lemma ConcatStarts(arrays: seq<seq<byte>>, i: nat)
    requires i <= |arrays|
    ensures |Concat(arrays[..i])| <= |Concat(arrays)|
  {
    assert arrays == arrays[..i] + arrays[i..];
    ConcatAppend(arrays[..i], arrays[i..]);
  }

  function EncodeAsn1(tag: byte, content: seq<byte>): (r: seq<byte>)
  {
    [tag] + EncodeLength(|content|) + content
  }

  /** The length is written in the shortest form: one octet below 128, otherwise no leading zero octet. */
  lemma LengthIsMinimal(n: nat)
    requires n < WORD
    ensures n < 128 ==> |EncodeLength(n)| == 1
    ensures n >= 128 ==> var k := |EncodeLength(n)| - 1; 1 <= k <= 4 && Power(k - 1) <= n < Power(k)
  {
    if n >= 128 { OctetsCount(n); }
  }

  function Power(k: nat): (p: nat)
    ensures p > 0
  {
    if k == 0 then 1 else 256 * Power(k - 1)
  }

  lemma {:induction false} OctetsCount(n: nat)
    requires 0 < n < WORD
    ensures var k := |LengthOctets(n)|; Power(k - 1) <= n < Power(k)
  {
    var m := n / 256;
    assert n % WORD == n;
    if m > 0 { OctetsCount(m); } else { assert LengthOctets(0) == []; assert Power(1) == 256 * Power(0); }
  }

  /** A reader recovers tag, content and what follows if and only if the content is shorter than 2^32 octets. */
  lemma ElementReadsBack(tag: byte, content: seq<byte>, rest: seq<byte>)
    ensures ReadElement(EncodeAsn1(tag, content) + rest) == Some(Element(tag, content, rest)) <==> |content| < WORD
  {
    hide ReadLength, EncodeLength;
    var s := EncodeAsn1(tag, content) + rest;
    var header := EncodeLength(|content|);
    assert s[1..] == header + (content + rest);
    LengthReadsBack(|content|, content + rest);
    if |content| < WORD {
      var k := 1 + |header|;
      assert s[k..k + |content|] == content && s[k + |content|..] == rest;
    }
  }

  // ------------------------------------------------------------------------ PKCS#8 wrapping

  const VERSION: seq<byte> := [0x02, 0x01, 0x00]
  const RSA_ALGORITHM: seq<byte> := [0x30, 0x0d, 0x06, 0x09, 0x2a, 0x86, 0x48, 0x86, 0xf7, 0x0d, 0x01, 0x01, 0x01,
    0x05, 0x00]

  /** The content of PrivateKeyInfo. */
  function KeyInfo(pkcs1: seq<byte>): (r: seq<byte>)
  {
    VERSION + RSA_ALGORITHM + EncodeAsn1(0x04, pkcs1)
  }

  /** wrapPkcs1AsPkcs8 */
  function Wrap(pkcs1: seq<byte>): (r: seq<byte>)
  {
    EncodeAsn1(0x30, KeyInfo(pkcs1))
  }

  /** The object identifier 1.2.840.113549.1.1.1, rsaEncryption in appendix A.1 of RFC 8017. */
  const RSA_ENCRYPTION: seq<byte> := [0x2a, 0x86, 0x48, 0x86, 0xf7, 0x0d, 0x01, 0x01, 0x01]

  /** The content of the element at the front, if it has that tag, and what follows it. */
  function Take(s: seq<byte>, tag: byte): (r: Option<(seq<byte>, seq<byte>)>)
  {
    match ReadElement(s)
    case None => None
    case Some(e) => if e.tag == tag then Some((e.content, e.rest)) else None
  }

  /** An algorithm: the identifier rsaEncryption with the parameters NULL. */
  predicate IsRsa(algorithm: seq<byte>)
  {
    match Take(algorithm, 0x06)
    case None => false
    case Some((oid, parameters)) => oid == RSA_ENCRYPTION && Take(parameters, 0x05) == Some(([], []))
  }

  /** PrivateKeyInfo of section 5 of RFC 5208: version 0, the algorithm rsaEncryption, the key. */
  function Unwrap(s: seq<byte>): (r: Option<seq<byte>>)
  {
    match Take(s, 0x30)
    case None => None
    case Some((info, rest)) => if rest != [] then None else ReadInfo(info)
  }

  function ReadInfo(info: seq<byte>): (r: Option<seq<byte>>)
  {
    match Take(info, 0x02)
    case None => None
    case Some((version, more)) =>
      match Take(more, 0x30)
      case None => None
      case Some((algorithm, last)) =>
        match Take(last, 0x04)
        case None => None
        case Some((key, end)) => if version == [0] && IsRsa(algorithm) && end == [] then Some(key) else None
  }

  /** What is taken from the front of an encoded element. */
  lemma TakeReadsBack(tag: byte, content: seq<byte>, rest: seq<byte>)
    ensures |content| < WORD ==> Take(EncodeAsn1(tag, content) + rest, tag) == Some((content, rest))
    ensures |content| >= WORD ==> Take(EncodeAsn1(tag, content) + rest, tag) != Some((content, rest))
  {
    hide EncodeAsn1, ReadElement;
    ElementReadsBack(tag, content, rest);
  }

  /** The constant octets are the elements they stand for. */
  lemma ConstantElements()
    ensures VERSION == EncodeAsn1(0x02, [0])
    ensures RSA_ALGORITHM == EncodeAsn1(0x30, EncodeAsn1(0x06, RSA_ENCRYPTION) + EncodeAsn1(0x05, []))
  {
    assert EncodeAsn1(0x06, RSA_ENCRYPTION) == [0x06, 0x09] + RSA_ENCRYPTION;
    assert EncodeAsn1(0x05, []) == [0x05, 0x00];
  }

  lemma RsaAlgorithm()
    ensures IsRsa(EncodeAsn1(0x06, RSA_ENCRYPTION) + EncodeAsn1(0x05, []))
  {
    hide EncodeAsn1, Take;
    TakeReadsBack(0x06, RSA_ENCRYPTION, EncodeAsn1(0x05, []));
    TakeReadsBack(0x05, [], []);
    assert EncodeAsn1(0x05, []) + [] == EncodeAsn1(0x05, []);
  }

  /** The content of a wrapped key is read as that key, whatever the length of what is around it. */
  lemma InfoReadsBack(pkcs1: seq<byte>)
    ensures |pkcs1| < WORD ==> ReadInfo(KeyInfo(pkcs1)) == Some(pkcs1)
  {
    ConstantElements();
    RsaAlgorithm();
    hide EncodeAsn1, Take, IsRsa;
    var algorithm, key := EncodeAsn1(0x06, RSA_ENCRYPTION) + EncodeAsn1(0x05, []), EncodeAsn1(0x04, pkcs1);
    assert |algorithm| == 13 by { AlgorithmLength(); }
    TakeReadsBack(0x02, [0], RSA_ALGORITHM + key);
    TakeReadsBack(0x30, algorithm, key);
    TakeReadsBack(0x04, pkcs1, []);
    assert key + [] == key;
    assert KeyInfo(pkcs1) == VERSION + (RSA_ALGORITHM + key);
  }

  lemma AlgorithmLength()
    ensures |EncodeAsn1(0x06, RSA_ENCRYPTION) + EncodeAsn1(0x05, [])| == 13
  {}

  /** Unwrapping gives the key back if and only if the wrapped content is shorter than 2^32 octets. */
  lemma WrapRoundTrip(pkcs1: seq<byte>)
    ensures Unwrap(Wrap(pkcs1)) == Some(pkcs1) <==> |KeyInfo(pkcs1)| < WORD
  {
    hide EncodeAsn1, ReadElement, ReadInfo, KeyInfo;
    var info := KeyInfo(pkcs1);
    TakeReadsBack(0x30, info, []);
    assert EncodeAsn1(0x30, info) + [] == EncodeAsn1(0x30, info);
    InfoLonger(pkcs1);
    InfoReadsBack(pkcs1);
    if |info| >= WORD { LongContentLeavesRest(0x30, info); }
  }

  lemma InfoLonger(pkcs1: seq<byte>)
    ensures |KeyInfo(pkcs1)| > |pkcs1|
  {}

  /** Content of 2^32 octets or more is never read without a remainder. */
  lemma LongContentLeavesRest(tag: byte, content: seq<byte>)
    requires |content| >= WORD
    ensures ReadElement(EncodeAsn1(tag, content)).None? || ReadElement(EncodeAsn1(tag, content)).value.rest != []
  {
    hide EncodeLength;
    var s := EncodeAsn1(tag, content);
    assert s[1..] == EncodeLength(|content|) + content;
    LengthReadsBack(|content|, content);
    LongLengthReads(|content|, content);
  }

  lemma LongLengthReads(n: nat, rest: seq<byte>)
    requires n >= WORD
    ensures ReadLength(EncodeLength(n) + rest).Some? ==> ReadLength(EncodeLength(n) + rest).value.1 == |EncodeLength(n)|
  {
    var octets := LengthOctets(n);
    var s := EncodeLength(n) + rest;
    assert s[0] == 0x80 + |octets|;
  }
}
