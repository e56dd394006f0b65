/**
 * The quoting of src-tauri/src/background_backup.rs: chained replacements for XML and
 * systemd unit files, the Windows task arguments, and the parsers that consume them.
 */
module Quoting {
  import opened Options

  // ------------------------------------------------------------------------ replacement

  /** str::replace of a character by a string. */
  function Replace(s: string, c: char, t: string): (r: string)
  {
    if s == "" then "" else (if s[0] == c then t else [s[0]]) + Replace(s[1..], c, t)
  }

  lemma {:induction false} ReplaceAppend(a: string, b: string, c: char, t: string)
    ensures Replace(a + b, c, t) == Replace(a, c, t) + Replace(b, c, t)
  {
    if a == "" {
      assert a + b == b;
    } else {
      assert (a + b)[1..] == a[1..] + b;
      ReplaceAppend(a[1..], b, c, t);
    }
  }

  lemma {:induction false} ReplaceNothing(s: string, c: char, t: string)
    requires c !in s
    ensures Replace(s, c, t) == s
  {
    if s != "" { ReplaceNothing(s[1..], c, t); }
  }

  /** Every character mapped on its own. */
  function MapChars(s: string, f: char -> string): (r: string)
  {
    if s == "" then "" else f(s[0]) + MapChars(s[1..], f)
  }

  // -------------------------------------------------------------------------------- XML

  function Xml(s: string): (r: string)
  {
    var markup := Replace(Replace(Replace(s, '&', "&amp;"), '<', "&lt;"), '>', "&gt;");
    Replace(Replace(markup, '"', "&quot;"), '\'', "&apos;")
  }

  function XmlChar(c: char): (r: string)
  {
    if c == '&' then "&amp;" else if c == '<' then "&lt;" else if c == '>' then "&gt;"
    else if c == '"' then "&quot;" else if c == '\'' then "&apos;" else [c]
  }

  lemma ReplaceOne(x: char, c: char, t: string)
    ensures Replace([x], c, t) == if x == c then t else [x]
  {
    assert [x][1..] == "";
  }

  lemma XmlOne(c: char)
    ensures Xml([c]) == XmlChar(c)
  {
    hide Replace;
    ReplaceOne(c, '&', "&amp;");
    var s := Replace([c], '&', "&amp;");
    if c == '&' {
      ReplaceNothing(s, '<', "&lt;");
      ReplaceNothing(s, '>', "&gt;");
      ReplaceNothing(s, '"', "&quot;");
      ReplaceNothing(s, '\'', "&apos;");
    } else {
      ReplaceOne(c, '<', "&lt;");
      ReplaceOne(c, '>', "&gt;");
      ReplaceOne(c, '"', "&quot;");
      ReplaceOne(c, '\'', "&apos;");
      if c == '<' {
        ReplaceNothing("&lt;", '>', "&gt;");
        ReplaceNothing("&lt;", '"', "&quot;");
        ReplaceNothing("&lt;", '\'', "&apos;");
      } else if c == '>' {
        ReplaceNothing("&gt;", '"', "&quot;");
        ReplaceNothing("&gt;", '\'', "&apos;");
      } else if c == '"' {
        ReplaceNothing("&quot;", '\'', "&apos;");
      }
    }
  }

  lemma XmlAppend(a: string, b: string)
    ensures Xml(a + b) == Xml(a) + Xml(b)
  {
    hide Replace;
    ReplaceAppend(a, b, '&', "&amp;");
    var a1, b1 := Replace(a, '&', "&amp;"), Replace(b, '&', "&amp;");
    ReplaceAppend(a1, b1, '<', "&lt;");
    var a2, b2 := Replace(a1, '<', "&lt;"), Replace(b1, '<', "&lt;");
    ReplaceAppend(a2, b2, '>', "&gt;");
    var a3, b3 := Replace(a2, '>', "&gt;"), Replace(b2, '>', "&gt;");
    ReplaceAppend(a3, b3, '"', "&quot;");
    ReplaceAppend(Replace(a3, '"', "&quot;"), Replace(b3, '"', "&quot;"), '\'', "&apos;");
  }

  /** The chain of replacements is one pass over the characters. */
  lemma {:induction false} XmlIsMap(s: string)
    ensures Xml(s) == MapChars(s, XmlChar)
  {
    if s == "" {
      assert Xml("") == "";
    } else {
      hide Xml;
      assert s == [s[0]] + s[1..];
      XmlAppend([s[0]], s[1..]);
      XmlOne(s[0]);
      XmlIsMap(s[1..]);
    }
  }

  /** No character of markup or of a quoted attribute is left as it is. */
  lemma {:induction false} XmlSafe(s: string, i: nat)
    requires i < |Xml(s)|
    ensures Xml(s)[i] != '<' && Xml(s)[i] != '>' && Xml(s)[i] != '"' && Xml(s)[i] != '\''
  {
    hide Xml;
    XmlIsMap(s);
    MapSafe(s, i);
  }

  lemma {:induction false} MapSafe(s: string, i: nat)
    requires i < |MapChars(s, XmlChar)|
    ensures var c := MapChars(s, XmlChar)[i]; c != '<' && c != '>' && c != '"' && c != '\''
  {
    var first := XmlChar(s[0]);
    if i < |first| {
      assert MapChars(s, XmlChar)[i] == first[i];
    } else {
      assert MapChars(s, XmlChar)[i] == MapChars(s[1..], XmlChar)[i - |first|];
      MapSafe(s[1..], i - |first|);
    }
  }

  /** The character a predefined entity stands for, and the length of its reference. */
  function Entity(s: string): (r: Option<(char, nat)>)
    ensures r.Some? ==> 0 < r.value.1 <= |s|
  {
    if "&amp;" <= s then Some(('&', 5))
    else if "&lt;" <= s then Some(('<', 4))
    else if "&gt;" <= s then Some(('>', 4))
    else if "&quot;" <= s then Some(('"', 6))
    else if "&apos;" <= s then Some(('\'', 6))
    else None
  }

  /** Character data as section 4.6 of XML 1.0 reads it; other references and markup are not character data. */
  function XmlDecode(s: string): (r: Option<string>)
    decreases |s|
  {
    if s == "" then Some("")
    else if s[0] == '&' then
      match Entity(s)
      case None => None
      case Some((c, n)) => Cons(c, XmlDecode(s[n..]))
    else if s[0] == '<' then None
    else Cons(s[0], XmlDecode(s[1..]))
  }

  function Cons(c: char, rest: Option<string>): (r: Option<string>)
  {
    match rest case None => None case Some(t) => Some([c] + t)
  }

  lemma XmlDecodeOne(c: char, rest: string)
    ensures XmlDecode(XmlChar(c) + rest) == Cons(c, XmlDecode(rest))
  {
    var s := XmlChar(c) + rest;
    assert s[..|XmlChar(c)|] == XmlChar(c);
    assert s[|XmlChar(c)|..] == rest;
    assert XmlChar(c) <= s;
    if c == '<' { assert s[1] == 'l'; }
    if c == '>' { assert s[1] == 'g'; }
    if c == '"' { assert s[1] == 'q'; }
    if c == '\'' { assert s[1] == 'a' && s[2] == 'p'; }
  }

  /** Decoding undoes `xml` on every string. */
  lemma {:induction false} XmlRoundTrip(s: string)
    ensures XmlDecode(Xml(s)) == Some(s)
  {
    XmlIsMap(s);
    MapDecodes(s);
  }

  lemma {:induction false} MapDecodes(s: string)
    ensures XmlDecode(MapChars(s, XmlChar)) == Some(s)
  {
    hide XmlChar;
    if s == "" {
    } else {
      XmlDecodeOne(s[0], MapChars(s[1..], XmlChar));
      MapDecodes(s[1..]);
      assert s == [s[0]] + s[1..];
    }
  }

  /** Line ends as section 2.11 of XML 1.0 normalises them before parsing. */
  function NormalizeEnds(s: string): (r: string)
    ensures '\r' !in r
    decreases |s|
  {
    if s == "" then ""
    else if s[0] != '\r' then [s[0]] + NormalizeEnds(s[1..])
    else "\n" + NormalizeEnds(if |s| > 1 && s[1] == '\n' then s[2..] else s[1..])
  }

  lemma {:induction false} NormalizeSame(s: string)
    requires '\r' !in s
    ensures NormalizeEnds(s) == s
  {
    if s != "" { NormalizeSame(s[1..]); }
  }

  lemma {:induction false} DecodeMakesNoReturn(s: string)
    requires '\r' !in s && XmlDecode(s).Some?
    ensures '\r' !in XmlDecode(s).value
    decreases |s|
  {
    if s != "" {
      if s[0] == '&' { DecodeMakesNoReturn(s[Entity(s).value.1..]); } else { DecodeMakesNoReturn(s[1..]); }
    }
  }

  lemma {:induction false} XmlKeepsReturns(s: string)
    ensures '\r' in Xml(s) <==> '\r' in s
  {
    XmlIsMap(s);
    if s == "" {
    } else {
      XmlIsMap(s[1..]);
      XmlKeepsReturns(s[1..]);
      assert s == [s[0]] + s[1..];
    }
  }

  /** A parser that also normalises line ends gives the string back if and only if it has no carriage return. */
  lemma NormalizingRoundTrip(s: string)
    ensures XmlDecode(NormalizeEnds(Xml(s))) == Some(s) <==> '\r' !in s
  {
    hide Xml;
    XmlKeepsReturns(s);
    if '\r' !in s {
      NormalizeSame(Xml(s));
      XmlRoundTrip(s);
    } else if XmlDecode(NormalizeEnds(Xml(s))).Some? {
      DecodeMakesNoReturn(NormalizeEnds(Xml(s)));
    }
  }
}
