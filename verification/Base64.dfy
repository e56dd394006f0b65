/**
 * Base64 as section 4 of RFC 4648 defines it, the decoders of JavaScript's atob and of
 * PHP's strict base64_decode, and the URL-safe form of docs/worker.ts (section 5).
 */
module Base64 {
  import opened Options
  import opened Texts
  import opened Bytes

  type sextet = x: int | 0 <= x < 64

  // ------------------------------------------------------------------- octets and sextets

  /** Groups of three octets as four sextets; a short last group is filled with zero bits. */
  function Sextets(s: seq<byte>): (r: seq<sextet>)
    ensures |r| % 4 != 1 && |r| == (4 * |s| + 2) / 3
  {
    if s == [] then []
    else if |s| == 1 then [s[0] / 4, s[0] % 4 * 16]
    else if |s| == 2 then [s[0] / 4, s[0] % 4 * 16 + s[1] / 16, s[1] % 16 * 4]
    else [s[0] / 4, s[0] % 4 * 16 + s[1] / 16, s[1] % 16 * 4 + s[2] / 64, s[2] % 64] + Sextets(s[3..])
  }

  /** Groups of four sextets as three octets; the spare bits of a short last group are dropped. */
  function Octets(s: seq<sextet>): (r: seq<byte>)
    requires |s| % 4 != 1
  {
    if s == [] then []
    else
      var first := (s[0] as int) * 4 + s[1] / 16;
      if |s| == 2 then [first]
      else
        var second := (s[1] as int) % 16 * 16 + s[2] / 4;
        if |s| == 3 then [first, second]
        else [first, second, (s[2] as int) % 4 * 64 + s[3]] + Octets(s[4..])
  }

  lemma {:induction false} SextetsRoundTrip(s: seq<byte>)
    ensures Octets(Sextets(s)) == s
    decreases |s|
  {
    if |s| > 2 {
      var r := Sextets(s);
      assert r[4..] == Sextets(s[3..]);
      SextetsRoundTrip(s[3..]);
      assert s == [s[0], s[1], s[2]] + s[3..];
    }
  }

  // ------------------------------------------------------------------------- the alphabet

  function Letter(i: sextet): (c: char)
  {
    if i < 26 then ('A' as int + i) as char
    else if i < 52 then ('a' as int + (i - 26)) as char
    else if i < 62 then ('0' as int + (i - 52)) as char
    else if i == 62 then '+' else '/'
  }

  function Index(c: char): (r: Option<sextet>)
  {
    if 'A' <= c <= 'Z' then Some(c as int - 'A' as int)
    else if 'a' <= c <= 'z' then Some(c as int - 'a' as int + 26)
    else if '0' <= c <= '9' then Some(c as int - '0' as int + 52)
    else if c == '+' then Some(62) else if c == '/' then Some(63) else None
  }

  lemma LetterIndex(i: sextet)
    ensures Index(Letter(i)) == Some(i)
    ensures Letter(i) != '=' && Letter(i) != '-' && Letter(i) != '_' && Letter(i) != '.' && !IsSpace(Letter(i))
  {}

  function Letters(s: seq<sextet>): (r: string)
    ensures |r| == |s| && forall i :: 0 <= i < |s| ==> r[i] == Letter(s[i])
  {
    seq(|s|, i requires 0 <= i < |s| => Letter(s[i]))
  }

  /** The sextets of a text, if all its characters are letters of the alphabet. */
  function Indices(s: string): (r: Option<seq<sextet>>)
    ensures r.Some? ==> |r.value| == |s|
  {
    if s == "" then Some([])
    else match (Indices(s[..|s| - 1]), Index(s[|s| - 1]))
      case (Some(front), Some(i)) => Some(front + [i])
      case (_, _) => None
  }

  lemma {:induction false} LettersIndices(s: seq<sextet>)
    ensures Indices(Letters(s)) == Some(s)
    decreases |s|
  {
    if s != [] {
      var front := s[..|s| - 1];
      assert Letters(s)[..|s| - 1] == Letters(front);
      LettersIndices(front);
      LetterIndex(s[|s| - 1]);
      assert Letters(s) != "" && Letters(s)[|s| - 1] == Letter(s[|s| - 1]);
      assert front + [s[|s| - 1]] == s;
    }
  }

  const ALPHANUMERIC := "ABCDEFGHIJKLMNOPQRSTUVWXYZ" + "abcdefghijklmnopqrstuvwxyz" + "0123456789"

  /** Table 1 of RFC 4648. */
  lemma Alphabet(i: sextet)
    ensures |ALPHANUMERIC| == 62 && Letter(i) == (ALPHANUMERIC + "+/")[i]
  {
    hide Letter;
    if i < 26 {
      Capital(i);
    } else if i < 52 {
      Small(i - 26);
    } else {
      Figure(i);
    }
  }

  lemma Capital(i: sextet)
    requires i < 26
    ensures Letter(i) == "ABCDEFGHIJKLMNOPQRSTUVWXYZ"[i]
  {}

  lemma Small(i: sextet)
    requires i < 26
    ensures Letter(i + 26) == "abcdefghijklmnopqrstuvwxyz"[i]
  {}

  lemma Figure(i: sextet)
    requires i >= 52
    ensures Letter(i) == if i < 62 then "0123456789"[i - 52] else if i == 62 then '+' else '/'
  {}

  /** Digits to a base, the first one most significant. */
  function Number(digits: seq<int>, base: nat): (n: int)
  {
    if digits == [] then 0 else Number(digits[..|digits| - 1], base) * base + digits[|digits| - 1]
  }

  /** Four sextets are the number that three octets are; a short last group is filled with zero bits. */
  lemma SameNumber(s: seq<byte>)
    requires s != []
    ensures var r := Sextets(s);
      if |s| == 1 then Number(r, 64) == 16 * Number(s, 256)
      else if |s| == 2 then Number(r, 64) == 4 * Number(s, 256)
      else r[4..] == Sextets(s[3..]) && Number(r[..4], 64) == Number(s[..3], 256)
  {
    if |s| == 1 { LastOctet(s); } else if |s| == 2 { LastTwoOctets(s); } else { FirstThreeOctets(s); }
  }

  lemma LastOctet(s: seq<byte>)
    requires |s| == 1
    ensures Number(Sextets(s), 64) == 16 * Number(s, 256)
  {
    var a: int := s[0];
    assert s == [a] && Sextets(s) == [a / 4, a % 4 * 16];
    hide Number, Sextets;
    OneDigit(a, 256);
    TwoDigits(a / 4, a % 4 * 16, 64);
    OneOctet(a);
  }

  lemma LastTwoOctets(s: seq<byte>)
    requires |s| == 2
    ensures Number(Sextets(s), 64) == 4 * Number(s, 256)
  {
    hide Number, Sextets;
    var a: int, b: int := s[0], s[1];
    assert s == [a, b];
    ShortGroup(s);
    TwoDigits(a, b, 256);
    ThreeDigits(a / 4, a % 4 * 16 + b / 16, b % 16 * 4, 64);
    TwoOctets(a, b);
  }

  lemma ShortGroup(s: seq<byte>)
    requires |s| == 2
    ensures Sextets(s) == [s[0] / 4, s[0] % 4 * 16 + s[1] / 16, s[1] % 16 * 4]
  {}

  lemma FirstThreeOctets(s: seq<byte>)
    requires |s| > 2
    ensures |Sextets(s)| >= 4 && Sextets(s)[4..] == Sextets(s[3..]) &&
      Number(Sextets(s)[..4], 64) == Number(s[..3], 256)
  {
    hide Number, Sextets, Group;
    assert s[..3] == [s[0], s[1], s[2]];
    FirstGroup(s);
    GroupNumber(s[0], s[1], s[2]);
  }

  /** The four sextets of three octets. */
  function Group(a: int, b: int, c: int): (g: seq<int>)
  {
    [a / 4, a % 4 * 16 + b / 16, b % 16 * 4 + c / 64, c % 64]
  }

  lemma FirstGroup(s: seq<byte>)
    requires |s| > 2
    ensures |Sextets(s)| >= 4 && Sextets(s)[..4] == Group(s[0], s[1], s[2]) && Sextets(s)[4..] == Sextets(s[3..])
  {
    var group, rest := Group(s[0], s[1], s[2]), Sextets(s[3..]);
    assert Sextets(s) == group + rest;
    hide Sextets, Group;
    Cut(group, rest, 4);
  }

  lemma Cut<T>(a: seq<T>, b: seq<T>, n: nat)
    requires |a| == n
    ensures (a + b)[..n] == a && (a + b)[n..] == b
  {}

  lemma GroupNumber(a: int, b: int, c: int)
    ensures Number(Group(a, b, c), 64) == Number([a, b, c], 256)
  {
    hide Number;
    ThreeDigits(a, b, c, 256);
    FourDigits(a / 4, a % 4 * 16 + b / 16, b % 16 * 4 + c / 64, c % 64, 64);
    ThreeOctets(a, b, c);
  }

  lemma OneOctet(a: int)
    ensures a / 4 * 64 + a % 4 * 16 == 16 * a
  {}

  lemma TwoOctets(a: int, b: int)
    ensures (a / 4 * 64 + (a % 4 * 16 + b / 16)) * 64 + b % 16 * 4 == 4 * (a * 256 + b)
  {}

  lemma ThreeOctets(a: int, b: int, c: int)
    ensures ((a / 4 * 64 + (a % 4 * 16 + b / 16)) * 64 + (b % 16 * 4 + c / 64)) * 64 + c % 64 == (a * 256 + b) * 256 + c
  {}

  lemma OneDigit(a: int, base: nat)
    ensures Number([a], base) == a
  {
    assert [a][..0] == [];
  }

  lemma TwoDigits(a: int, b: int, base: nat)
    ensures Number([a, b], base) == a * base + b
  {
    assert [a, b][..1] == [a];
    OneDigit(a, base);
  }

  lemma ThreeDigits(a: int, b: int, c: int, base: nat)
    ensures Number([a, b, c], base) == (a * base + b) * base + c
  {
    assert [a, b, c][..2] == [a, b];
    TwoDigits(a, b, base);
  }

  lemma FourDigits(a: int, b: int, c: int, d: int, base: nat)
    ensures Number([a, b, c, d], base) == ((a * base + b) * base + c) * base + d
  {
    assert [a, b, c, d][..3] == [a, b, c];
    ThreeDigits(a, b, c, base);
  }

  // ---------------------------------------------------------------------------- padding

  function Pad(n: nat): (r: string)
  {
    Repeat('=', n)
  }

  /** How many characters complete the last group of four. */
  function Missing(n: nat): (r: nat)
    ensures (n + r) % 4 == 0 && r < 4 && (n % 4 != 1 ==> r <= 2) && (n % 4 == 0 <==> r == 0)
  {
    if n % 4 == 0 then 0 else 4 - n % 4
  }

  /** btoa, base64_encode */
  function Encode(s: seq<byte>): (r: string)
    ensures |r| % 4 == 0
  {
    var body := Letters(Sextets(s));
    body + Pad(Missing(|body|))
  }

  const FORM_FEED: char := 12 as char

  predicate IsSpace(c: char)
  {
    c == ' ' || c == '\t' || c == '\n' || c == '\r' || c == FORM_FEED
  }

  function WithoutSpaces(s: string): (r: string)
  {
    if s == "" then "" else WithoutSpaces(s[..|s| - 1]) + if IsSpace(s[|s| - 1]) then "" else [s[|s| - 1]]
  }

  /** replace(/=+$/, "") */
  function WithoutPad(s: string): (r: string)
    ensures r <= s
  {
    if s != "" && s[|s| - 1] == '=' then WithoutPad(s[..|s| - 1]) else s
  }

  lemma {:induction false} WithoutPadStrips(body: string, n: nat)
    requires body == "" || body[|body| - 1] != '='
    ensures WithoutPad(body + Pad(n)) == body
  {
    var s := body + Pad(n);
    if n > 0 {
      assert s[..|s| - 1] == body + Pad(n - 1);
      WithoutPadStrips(body, n - 1);
    } else {
      assert s == body;
    }
  }

  lemma {:induction false} WithoutSpacesSame(s: string)
    requires forall i :: 0 <= i < |s| ==> !IsSpace(s[i])
    ensures WithoutSpaces(s) == s
    decreases |s|
  {
    if s != "" { WithoutSpacesSame(s[..|s| - 1]); }
  }

  // --------------------------------------------------------------------------- decoders

  function DecodeBody(body: string): (r: Option<seq<byte>>)
  {
    if |body| % 4 == 1 then None
    else match Indices(body)
      case None => None
      case Some(indices) => Some(Octets(indices))
  }

  /** atob: white space is skipped and up to two padding characters of a full group are dropped. */
  function Atob(s: string): (r: Option<seq<byte>>)
  {
    var t := WithoutSpaces(s);
    if |t| % 4 != 0 || t == "" || t[|t| - 1] != '=' then DecodeBody(t)
    else if t[|t| - 2] != '=' then DecodeBody(t[..|t| - 1])
    else DecodeBody(t[..|t| - 2])
  }

  /** base64_decode with strict checking: no form feeds; padding, if any, must complete the last group. */
  function PhpDecode(s: string): (r: Option<seq<byte>>)
  {
    var t := WithoutSpaces(s);
    var body := WithoutPad(t);
    var pad := |t| - |body|;
    if FORM_FEED in s || (pad > 0 && (pad > 2 || |t| % 4 != 0)) then None else DecodeBody(body)
  }

  lemma BodyFacts(s: seq<byte>)
    ensures var body := Letters(Sextets(s));
      && DecodeBody(body) == Some(s)
      && (body == "" || body[|body| - 1] != '=')
      && forall i :: 0 <= i < |body| ==>
           !IsSpace(body[i]) && body[i] != '=' && body[i] != '.' && body[i] != '-' && body[i] != '_'
  {
    var body := Letters(Sextets(s));
    LettersIndices(Sextets(s));
    SextetsRoundTrip(s);
    forall i | 0 <= i < |body|
      ensures !IsSpace(body[i]) && body[i] != '=' && body[i] != '.' && body[i] != '-' && body[i] != '_'
    {
      LetterIndex(Sextets(s)[i]);
    }
  }

  /** The end of a padded text. */
  lemma PadEnds(body: string, n: nat)
    requires n <= 2 && (body == "" || body[|body| - 1] != '=') && (body == "" ==> n == 0) && |body + Pad(n)| % 4 == 0
    ensures var t := body + Pad(n);
      && |t| == |body| + n
      && (n == 0 ==> t == body)
      && (n == 1 ==> t[|t| - 1] == '=' && t[|t| - 2] != '=' && t[..|t| - 1] == body)
      && (n == 2 ==> t[|t| - 1] == '=' && t[|t| - 2] == '=' && t[..|t| - 2] == body)
  {
    if n == 0 { assert body + Pad(n) == body; }
  }

  lemma NoSpacesPadded(body: string, n: nat)
    requires forall i :: 0 <= i < |body| ==> !IsSpace(body[i])
    ensures var t := body + Pad(n);
      WithoutSpaces(t) == t && FORM_FEED !in t && forall i :: 0 <= i < |t| ==> !IsSpace(t[i])
  {
    WithoutSpacesSame(body + Pad(n));
    assert IsSpace(FORM_FEED);
  }

  /** A complete text without spaces decodes by its body. */
  lemma PaddedDecodes(body: string)
    requires |body| % 4 != 1 && (body == "" || body[|body| - 1] != '=')
    requires forall i :: 0 <= i < |body| ==> !IsSpace(body[i])
    ensures var t := body + Pad(Missing(|body|));
      && Atob(t) == DecodeBody(body) && PhpDecode(t) == DecodeBody(body) && |t| % 4 == 0
      && forall i :: 0 <= i < |t| ==> !IsSpace(t[i])
  {
    hide DecodeBody, Missing, Pad, WithoutSpaces, WithoutPad, IsSpace;
    var n := Missing(|body|);
    PadLength(body, n);
    NoSpacesPadded(body, n);
    WithoutPadStrips(body, n);
    PadEnds(body, n);
  }

  lemma PadLength(body: string, n: nat)
    ensures |body + Pad(n)| == |body| + n
  {}

  /** Both decoders undo the encoder on every byte string. */
  lemma EncodeRoundTrip(s: seq<byte>)
    ensures Atob(Encode(s)) == Some(s) && PhpDecode(Encode(s)) == Some(s)
    ensures forall i :: 0 <= i < |Encode(s)| ==> !IsSpace(Encode(s)[i])
  {
    hide DecodeBody, Letters, Sextets, Atob, PhpDecode, Missing, Pad, IsSpace;
    BodyFacts(s);
    SextetCount(s);
    PaddedDecodes(Letters(Sextets(s)));
  }

  lemma SextetCount(s: seq<byte>)
    ensures |Letters(Sextets(s))| % 4 != 1 && (s != [] ==> Letters(Sextets(s)) != "")
  {}

  /** A character that is no letter, padding or white space makes both decoders fail. */
  lemma StrangerFails(s: string, i: nat)
    requires i < |s| && Index(s[i]).None? && !IsSpace(s[i]) && s[i] != '='
    ensures Atob(s).None? && PhpDecode(s).None?
  {
    hide IsSpace, Index, WithoutSpaces, WithoutPad, DecodeBody;
    var t := WithoutSpaces(s);
    var k := KeptCharacter(s, i);
    NoBody(t, k, |t|);
    assert t[..|t|] == t;
    if k < |t| - 1 { NoBody(t, k, |t| - 1); }
    if k < |t| - 2 { NoBody(t, k, |t| - 2); }
    PadIsEnd(t);
    NoBody(t, k, |WithoutPad(t)|);
  }

  lemma NoBody(t: string, k: nat, m: nat)
    requires k < m <= |t| && Index(t[k]).None?
    ensures DecodeBody(t[..m]).None?
  {
    hide Index, Octets, Indices;
    IndicesFail(t[..m], k);
  }

  lemma {:induction false} KeptCharacter(s: string, i: nat) returns (k: nat)
    requires i < |s| && !IsSpace(s[i])
    ensures k < |WithoutSpaces(s)| && WithoutSpaces(s)[k] == s[i]
    decreases |s|
  {
    if i < |s| - 1 { k := KeptCharacter(s[..|s| - 1], i); } else { k := |WithoutSpaces(s)| - 1; }
  }

  lemma {:induction false} IndicesFail(s: string, k: nat)
    requires k < |s| && Index(s[k]).None?
    ensures Indices(s).None?
    decreases |s|
  {
    if k < |s| - 1 { IndicesFail(s[..|s| - 1], k); }
  }

  lemma {:induction false} PadIsEnd(s: string)
    ensures var body := WithoutPad(s); body == s[..|body|] && forall j :: |body| <= j < |s| ==> s[j] == '='
    decreases |s|
  {
    if s != "" && s[|s| - 1] == '=' { PadIsEnd(s[..|s| - 1]); }
  }

  /** A space, tab or line end counts for neither decoder; a form feed only for PHP, which refuses it. */
  lemma SpacesSkipped(a: string, c: char, b: string)
    requires c == ' ' || c == '\t' || c == '\n' || c == '\r' || c == 12 as char
    ensures Atob(a + [c] + b) == Atob(a + b)
    ensures c != 12 as char ==> PhpDecode(a + [c] + b) == PhpDecode(a + b)
    ensures c == 12 as char ==> PhpDecode(a + [c] + b) == None
  {
    hide DecodeBody, WithoutPad, WithoutSpaces;
    WithoutSpacesAppend(a + [c], b);
    WithoutSpacesAppend(a, [c]);
    WithoutSpacesAppend(a, b);
    OneSpace(c);
    assert WithoutSpaces(a) + "" == WithoutSpaces(a);
    assert WithoutSpaces(a + [c] + b) == WithoutSpaces(a + b);
    assert (a + [c] + b)[|a|] == c;
    if c != FORM_FEED { SameFeeds(a, c, b); }
  }

  lemma OneSpace(c: char)
    requires IsSpace(c)
    ensures WithoutSpaces([c]) == ""
  {
    assert [c][..0] == "";
  }

  lemma SameFeeds(a: string, c: char, b: string)
    requires c != FORM_FEED
    ensures FORM_FEED in a + [c] + b <==> FORM_FEED in a + b
  {}

  lemma {:induction false} WithoutSpacesAppend(a: string, b: string)
    ensures WithoutSpaces(a + b) == WithoutSpaces(a) + WithoutSpaces(b)
    decreases |b|
  {
    hide IsSpace;
    if b == "" {
      assert a + b == a;
    } else {
      assert (a + b)[..|a + b| - 1] == a + b[..|b| - 1] && (a + b)[|a + b| - 1] == b[|b| - 1];
      WithoutSpacesAppend(a, b[..|b| - 1]);
    }
  }

  /** No text of 4k + 1 letters decodes. */
  lemma OddLengthFails(s: string)
    requires |s| % 4 == 1 && forall i :: 0 <= i < |s| ==> !IsSpace(s[i]) && s[i] != '='
    ensures Atob(s).None? && PhpDecode(s).None?
  {
    hide IsSpace;
    WithoutSpacesSame(s);
  }

  // ------------------------------------------------------------------------ URL-safe form

  function ReplaceAll(s: string, from: char, to: char): (r: string)
    ensures |r| == |s| && forall i :: 0 <= i < |s| ==> r[i] == if s[i] == from then to else s[i]
  {
    seq(|s|, i requires 0 <= i < |s| => if s[i] == from then to else s[i])
  }

  function UrlEncode(s: seq<byte>): (r: string)
  {
    WithoutPad(ReplaceAll(ReplaceAll(Encode(s), '+', '-'), '/', '_'))
  }

  /** padEnd(Math.ceil(value.length / 4) * 4, "=") */
  function PadEnd(s: string): (r: string)
  {
    s + Pad(Missing(|s|))
  }

  function UrlDecode(s: string): (r: Option<seq<byte>>)
  {
    Atob(PadEnd(ReplaceAll(ReplaceAll(s, '-', '+'), '_', '/')))
  }

  /** base64UrlEncode, whose loop copies the octets to characters for btoa. */
  method UrlEncodeLoop(bytes: seq<byte>) returns (r: string)
    ensures r == UrlEncode(bytes)
  {
    var binary := "";
    var i := 0;
    while i < |bytes|
      invariant 0 <= i <= |bytes| && |binary| == i
      invariant forall k :: 0 <= k < i ==> binary[k] as int == bytes[k]
    {
      binary := binary + [bytes[i] as char];
      i := i + 1;
    }
    assert CodeUnits(binary) == bytes;
    return WithoutPad(ReplaceAll(ReplaceAll(Encode(CodeUnits(binary)), '+', '-'), '/', '_'));
  }

  /** The octets of a binary string, as btoa reads it. */
  function CodeUnits(binary: string): (r: seq<byte>)
    requires forall k :: 0 <= k < |binary| ==> binary[k] as int < 256
  {
    seq(|binary|, k requires 0 <= k < |binary| => binary[k] as int)
  }

  /** The text without padding, with the two URL-unsafe letters replaced. */
  function UrlBody(s: seq<byte>): (r: string)
  {
    ReplaceAll(ReplaceAll(Letters(Sextets(s)), '+', '-'), '/', '_')
  }

  lemma ReplaceAppend(a: string, n: nat, from: char, to: char)
    requires from != '='
    ensures ReplaceAll(a + Pad(n), from, to) == ReplaceAll(a, from, to) + Pad(n)
  {}

  lemma UrlEncodeIsBody(s: seq<byte>)
    ensures UrlEncode(s) == UrlBody(s)
  {
    BodyFacts(s);
    hide Sextets, Letters, Missing, Pad, WithoutPad, IsSpace, DecodeBody;
    var body := Letters(Sextets(s));
    var n := Missing(|body|);
    ReplaceAppend(body, n, '+', '-');
    ReplaceAppend(ReplaceAll(body, '+', '-'), n, '/', '_');
    WithoutPadStrips(UrlBody(s), n);
  }

  lemma ReplaceBack(body: string)
    requires forall i :: 0 <= i < |body| ==> body[i] != '-' && body[i] != '_'
    ensures ReplaceAll(ReplaceAll(ReplaceAll(ReplaceAll(body, '+', '-'), '/', '_'), '-', '+'), '_', '/') == body
  {}

  /** `base64UrlDecode` undoes `base64UrlEncode` for every length, and the encoded form has no dot. */
  lemma UrlRoundTrip(s: seq<byte>)
    ensures UrlDecode(UrlEncode(s)) == Some(s)
    ensures forall i :: 0 <= i < |UrlEncode(s)| ==> UrlEncode(s)[i] != '.'
    ensures s != [] ==> UrlEncode(s) != ""
  {
    BodyFacts(s);
    UrlEncodeIsBody(s);
    SextetCount(s);
    EncodeRoundTrip(s);
    hide Sextets, Letters, Atob, PhpDecode, UrlEncode, DecodeBody, IsSpace, Missing;
    ReplaceBack(Letters(Sextets(s)));
  }

  /** The URL-safe text, letter by letter: table 2 of RFC 4648, without padding. */
  lemma UrlAlphabet(s: seq<byte>, i: nat)
    requires i < |Sextets(s)|
    ensures |ALPHANUMERIC| == 62 && |UrlEncode(s)| == |Sextets(s)|
    ensures UrlEncode(s)[i] == (ALPHANUMERIC + "-_")[Sextets(s)[i]]
  {
    hide Sextets, Letter, UrlEncode;
    UrlEncodeIsBody(s);
    var x := Sextets(s)[i];
    Alphabet(x);
    LetterIs62(x);
  }

  lemma LetterIs62(i: sextet)
    ensures (Letter(i) == '+' <==> i == 62) && (Letter(i) == '/' <==> i == 63) && Letter(i) != '-'
  {}
}
