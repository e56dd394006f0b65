/** The text the startup ladder passes through environment variables: decimal octets and lists of them. */
module History {
  import opened Options
  import opened Texts

  /** char::is_whitespace */
  predicate IsWhite(c: char)
  {
    var n := c as int;
    9 <= n <= 13 || n == 32 || n == 0x85 || n == 0xA0 || n == 0x1680 || 0x2000 <= n <= 0x200A || n == 0x2028 ||
      n == 0x2029 || n == 0x202F || n == 0x205F || n == 0x3000
  }

  function TrimStart(s: string): (r: string)
  {
    if s != "" && IsWhite(s[0]) then TrimStart(s[1..]) else s
  }

  function TrimEnd(s: string): (r: string)
  {
    if s != "" && IsWhite(s[|s| - 1]) then TrimEnd(s[..|s| - 1]) else s
  }

  function Digit(d: int): (c: char)
    requires 0 <= d < 10
  {
    ('0' as int + d) as char
  }

  /** u8::to_string */
  function ToText(i: nat): (s: string)
    requires i < 256
    ensures s != "" && forall k :: 0 <= k < |s| ==> '0' <= s[k] <= '9'
  {
    if i < 10 then [Digit(i)]
    else if i < 100 then [Digit(i / 10), Digit(i % 10)]
    else [Digit(i / 100), Digit(i / 10 % 10), Digit(i % 10)]
  }

  /** The value of a string of digits. */
  function Value(s: string): (r: Option<nat>)
  {
    if s == "" then Some(0)
    else
      var c := s[|s| - 1];
      if '0' <= c <= '9' then
        match Value(s[..|s| - 1]) case None => None case Some(v) => Some(10 * v + (c as int - '0' as int))
      else None
  }

  /** trim().parse::<u8>().ok(): an optional plus sign, then digits, at most 255. */
  function ParseOctet(s: string): (r: Option<nat>)
    ensures r.Some? ==> r.value < 256
  {
    var t := TrimEnd(TrimStart(s));
    var digits := if t != "" && t[0] == '+' then t[1..] else t;
    if digits == "" then None
    else match Value(digits) case Some(v) => if v < 256 then Some(v) else None case None => None
  }

  ghost predicate AllWhite(s: string)
  {
    forall i :: 0 <= i < |s| ==> IsWhite(s[i])
  }

  /** The text is the number `i` in decimal, perhaps with a plus sign and leading zeros, in white space. */
  ghost predicate ReadsAs(s: string, i: nat)
  {
    exists left, sign, digits, right ::
      && s == left + (sign + digits) + right && AllWhite(left) && AllWhite(right)
      && (sign == "" || sign == "+") && digits != "" && Value(digits) == Some(i) && i < 256
  }

  lemma {:induction false} TrimStartOf(left: string, t: string)
    requires AllWhite(left) && (t == "" || !IsWhite(t[0]))
    ensures TrimStart(left + t) == t
  {
    hide IsWhite;
    if left == "" {
      assert left + t == t;
    } else {
      assert (left + t)[0] == left[0] && (left + t)[1..] == left[1..] + t;
      TrimStartOf(left[1..], t);
    }
  }

  lemma {:induction false} TrimEndOf(t: string, right: string)
    requires AllWhite(right) && (t == "" || !IsWhite(t[|t| - 1]))
    ensures TrimEnd(t + right) == t
    decreases |right|
  {
    hide IsWhite;
    if right == "" {
      assert t + right == t;
    } else {
      var s, front := t + right, right[..|right| - 1];
      assert s[|s| - 1] == right[|right| - 1] && s[..|s| - 1] == t + front;
      TrimEndOf(t, front);
    }
  }

  lemma {:induction false} TrimStartLeaves(s: string) returns (left: string)
    ensures s == left + TrimStart(s) && AllWhite(left) && (TrimStart(s) != "" ==> !IsWhite(TrimStart(s)[0]))
  {
    hide IsWhite;
    left := "";
    if s != "" && IsWhite(s[0]) {
      var rest := TrimStartLeaves(s[1..]);
      left := [s[0]] + rest;
      assert s == [s[0]] + s[1..];
    }
  }

  lemma {:induction false} TrimEndLeaves(s: string) returns (right: string)
    ensures s == TrimEnd(s) + right && AllWhite(right)
    decreases |s|
  {
    hide IsWhite;
    right := "";
    if s != "" && IsWhite(s[|s| - 1]) {
      var rest := TrimEndLeaves(s[..|s| - 1]);
      right := rest + [s[|s| - 1]];
      assert s == s[..|s| - 1] + [s[|s| - 1]];
    }
  }

  lemma {:induction false} ValueDigits(s: string, k: nat)
    requires Value(s).Some? && k < |s|
    ensures '0' <= s[k] <= '9' && !IsWhite(s[k])
    decreases |s|
  {
    if k < |s| - 1 { ValueDigits(s[..|s| - 1], k); }
  }

  /** Texts are read as octets exactly by that description. */
  lemma ParseOctetIff(s: string, i: nat)
    ensures ParseOctet(s) == Some(i) <==> ReadsAs(s, i)
  {
    if ParseOctet(s) == Some(i) { ParsedReads(s, i); }
    if ReadsAs(s, i) {
      var left, sign, digits, right :|
        && s == left + (sign + digits) + right && AllWhite(left) && AllWhite(right)
        && (sign == "" || sign == "+") && digits != "" && Value(digits) == Some(i) && i < 256;
      ReadParses(s, i, left, sign, digits, right);
    }
  }

  lemma ParsedReads(s: string, i: nat)
    requires ParseOctet(s) == Some(i)
    ensures ReadsAs(s, i)
  {
    hide IsWhite, Value, TrimStart, TrimEnd, AllWhite;
    var a := TrimStart(s);
    var t := TrimEnd(a);
    var left := TrimStartLeaves(s);
    var right := TrimEndLeaves(a);
    var sign, digits := if t != "" && t[0] == '+' then "+" else "", if t != "" && t[0] == '+' then t[1..] else t;
    assert t == sign + digits;
    assert s == left + (sign + digits) + right;
  }

  lemma ReadParses(s: string, i: nat, left: string, sign: string, digits: string, right: string)
    requires s == left + (sign + digits) + right && AllWhite(left) && AllWhite(right)
    requires (sign == "" || sign == "+") && digits != "" && Value(digits) == Some(i) && i < 256
    ensures ParseOctet(s) == Some(i)
  {
    hide Value, TrimStart, TrimEnd, AllWhite;
    var t := sign + digits;
    ValueDigits(digits, 0);
    ValueDigits(digits, |digits| - 1);
    assert t[|t| - 1] == digits[|digits| - 1] && t[0] == (if sign == "" then digits[0] else '+');
    assert s == left + (t + right);
    TrimStartOf(left, t + right);
    TrimEndOf(t, right);
    assert TrimEnd(TrimStart(s)) == t;
    if sign == "+" {
      assert t[0] == '+' && t[1..] == digits;
    } else {
      assert t == digits && t[0] != '+';
    }
  }

  lemma ValueSnoc(s: string, d: nat)
    requires d < 10 && Value(s).Some?
    ensures Value(s + [Digit(d)]) == Some(10 * Value(s).value + d)
  {
    assert (s + [Digit(d)])[..|s|] == s;
  }

  lemma ThreeDigits(i: nat)
    ensures i / 10 == 10 * (i / 100) + i / 10 % 10 && i == 10 * (i / 10) + i % 10
  {}

  lemma ToTextValue(i: nat)
    requires i < 256
    ensures Value(ToText(i)) == Some(i)
  {
    hide Value, Digit;
    assert Value("") == Some(0) by { NoDigits(); }
    var a, b, c := i / 100, i / 10 % 10, i % 10;
    ThreeDigits(i);
    assert "" + [Digit(a)] == [Digit(a)] && "" + [Digit(b)] == [Digit(b)] && "" + [Digit(c)] == [Digit(c)];
    ValueSnoc("", a);
    ValueSnoc("", b);
    ValueSnoc("", c);
    assert [Digit(b)] + [Digit(c)] == [Digit(b), Digit(c)] && [Digit(a)] + [Digit(b)] == [Digit(a), Digit(b)];
    ValueSnoc([Digit(b)], c);
    ValueSnoc([Digit(a)], b);
    assert [Digit(a), Digit(b)] + [Digit(c)] == [Digit(a), Digit(b), Digit(c)];
    ValueSnoc([Digit(a), Digit(b)], c);
  }

  lemma NoDigits()
    ensures Value("") == Some(0)
  {}

  lemma ToTextParses(i: nat)
    requires i < 256
    ensures ParseOctet(ToText(i)) == Some(i)
  {
    hide Value, ToText, Digit;
    ToTextValue(i);
    var s := ToText(i);
    assert !IsWhite(s[0]) && !IsWhite(s[|s| - 1]);
  }

  // ------------------------------------------------------------------------------- lists

  /** filter_map(parse).filter(in the ladder): indices from 1 to `n` */
  function ParseEntries(parts: seq<string>, n: nat): (r: seq<nat>)
  {
    if parts == [] then []
    else
      (match ParseOctet(parts[0]) case Some(i) => if 0 < i <= n then [i] else [] case None => []) +
        ParseEntries(parts[1..], n)
  }

  /** parse_history for a ladder numbered 1 to `n`. */
  function ParseHistory(history: string, n: nat): (r: seq<nat>)
  {
    ParseEntries(Split(history, ','), n)
  }

  ghost predicate InLadder(xs: seq<nat>, n: nat)
  {
    forall i :: 0 <= i < |xs| ==> 0 < xs[i] <= n
  }

  /** map(to_string).join(",") */
  function JoinTexts(xs: seq<nat>): (s: string)
    requires forall i :: 0 <= i < |xs| ==> xs[i] < 256
  {
    if xs == [] then "" else if |xs| == 1 then ToText(xs[0]) else ToText(xs[0]) + "," + JoinTexts(xs[1..])
  }

  lemma ParseOne(i: nat, rest: seq<string>, n: nat)
    requires 0 < i <= n < 256
    ensures ParseEntries([ToText(i)] + rest, n) == [i] + ParseEntries(rest, n)
  {
    hide ToText, ParseOctet;
    ToTextParses(i);
    assert ([ToText(i)] + rest)[1..] == rest;
  }

  /** What was joined is parsed back. */
  lemma {:induction false} JoinParses(xs: seq<nat>, n: nat)
    requires InLadder(xs, n) && n < 256
    ensures ParseHistory(JoinTexts(xs), n) == xs
  {
    if xs == [] {
      SplitOf("", ',', "");
      assert ParseOctet("") == None;
      assert [""][1..] == [];
    } else {
      hide ToText, ParseOctet, Split;
      var text, rest := ToText(xs[0]), xs[1..];
      assert ',' !in text by { DigitsOnly(xs[0]); }
      if |xs| == 1 {
        SplitOf(text, ',', "");
        ParseOne(xs[0], [], n);
        assert [text] + [] == [text];
        assert xs == [xs[0]] + [];
      } else {
        JoinParses(rest, n);
        var tail := JoinTexts(rest);
        SplitOf(text, ',', tail);
        ParseOne(xs[0], Split(tail, ','), n);
        assert xs == [xs[0]] + rest;
      }
    }
  }

  lemma DigitsOnly(i: nat)
    requires i < 256
    ensures ',' !in ToText(i)
  {}

  lemma {:induction false} ParsedInLadder(parts: seq<string>, n: nat)
    ensures InLadder(ParseEntries(parts, n), n)
  {
    hide ParseOctet;
    if parts != [] { ParsedInLadder(parts[1..], n); }
  }

  /** appended_history */
  function AppendedHistory(history: string, index: nat, n: nat): (s: string)
    requires index <= n < 256
  {
    var xs := ParseHistory(history, n);
    ParsedInLadder(Split(history, ','), n);
    JoinTexts(if index > 0 && index !in xs then xs + [index] else xs)
  }

  /** Appending adds an index to the list once. */
  lemma AppendedParses(history: string, index: nat, n: nat)
    requires index <= n < 256
    ensures var xs := ParseHistory(history, n);
      ParseHistory(AppendedHistory(history, index, n), n) == if index > 0 && index !in xs then xs + [index] else xs
  {
    hide ParseHistory, JoinTexts;
    var xs := ParseHistory(history, n);
    assert InLadder(xs, n) by { HistoryInLadder(history, n); }
    JoinParses(if index > 0 && index !in xs then xs + [index] else xs, n);
  }

  lemma HistoryInLadder(history: string, n: nat)
    ensures InLadder(ParseHistory(history, n), n)
  {
    ParsedInLadder(Split(history, ','), n);
  }
}
