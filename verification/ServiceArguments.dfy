/**
 * The arguments that src-tauri/src/background_backup.rs hands to systemd and to the
 * Windows task scheduler, and the parsers that read them back.
 */
module ServiceArguments {
  import opened Options
  import opened Texts
  import opened Quoting

  // ---------------------------------------------------------------------------- systemd

  function Escaped(value: string): (r: string)
  {
    Replace(Replace(Replace(Replace(value, '\\', "\\\\"), '"', "\\\""), '%', "%%"), '$', "$$")
  }

  function SystemdArg(value: string): (r: string)
  {
    "\"" + Escaped(value) + "\""
  }

  function SystemdChar(c: char): (r: string)
  {
    if c == '\\' then "\\\\" else if c == '"' then "\\\"" else if c == '%' then "%%" else if c == '$' then "$$" else [c]
  }

  lemma SystemdOne(c: char)
    ensures Escaped([c]) == SystemdChar(c)
  {
    hide Replace;
    ReplaceOne(c, '\\', "\\\\");
    ReplaceOne(c, '"', "\\\"");
    ReplaceOne(c, '%', "%%");
    ReplaceOne(c, '$', "$$");
    if c == '\\' { ReplaceNothing("\\\\", '"', "\\\""); }
    if c == '\\' || c == '"' {
      ReplaceNothing(SystemdChar(c), '%', "%%");
      ReplaceNothing(SystemdChar(c), '$', "$$");
    }
    if c == '%' { ReplaceNothing("%%", '$', "$$"); }
  }

  lemma SystemdAppend(a: string, b: string)
    ensures Escaped(a + b) == Escaped(a) + Escaped(b)
  {
    hide Replace;
    ReplaceAppend(a, b, '\\', "\\\\");
    var a1, b1 := Replace(a, '\\', "\\\\"), Replace(b, '\\', "\\\\");
    ReplaceAppend(a1, b1, '"', "\\\"");
    var a2, b2 := Replace(a1, '"', "\\\""), Replace(b1, '"', "\\\"");
    ReplaceAppend(a2, b2, '%', "%%");
    ReplaceAppend(Replace(a2, '%', "%%"), Replace(b2, '%', "%%"), '$', "$$");
  }

  /** The chain of replacements is one pass over the characters. */
  lemma {:induction false} SystemdIsMap(value: string)
    ensures Escaped(value) == MapChars(value, SystemdChar)
  {
    if value == "" {
      assert Escaped("") == "";
    } else {
      hide Escaped;
      assert value == [value[0]] + value[1..];
      SystemdAppend([value[0]], value[1..]);
      SystemdOne(value[0]);
      SystemdIsMap(value[1..]);
    }
  }

  /** The rest of a quoted word up to its closing quote, with the two escapes `systemd_arg` uses undone. */
  function Unquote(s: string): (r: Option<string>)
    decreases |s|
  {
    if s == "" then None
    else if s[0] == '"' then if |s| == 1 then Some("") else None
    else if s[0] != '\\' then Cons(s[0], Unquote(s[1..]))
    else if |s| > 1 && (s[1] == '\\' || s[1] == '"') then Cons(s[1], Unquote(s[2..]))
    else None
  }

  /** Doubled marks become one: specifiers and variables of their own are not arguments of this program. */
  function Undouble(s: string, mark: char): (r: Option<string>)
    decreases |s|
  {
    if s == "" then Some("")
    else if s[0] != mark then Cons(s[0], Undouble(s[1..], mark))
    else if |s| > 1 && s[1] == mark then Cons(mark, Undouble(s[2..], mark))
    else None
  }

  /** systemd: unquote the word, expand specifiers, then variables. */
  function SystemdParse(s: string): (r: Option<string>)
  {
    if s == "" || s[0] != '"' then None
    else match Unquote(s[1..])
      case None => None
      case Some(word) =>
        match Undouble(word, '%')
        case None => None
        case Some(t) => Undouble(t, '$')
  }

  function Doubled(mark: char): (f: char -> string)
  {
    (c: char) => if c == mark then [mark, mark] else [c]
  }

  function DoubledBoth(c: char): (r: string)
  {
    if c == '%' then "%%" else if c == '$' then "$$" else [c]
  }

  lemma {:induction false} UnquoteMap(value: string)
    ensures Unquote(MapChars(value, SystemdChar) + "\"") == Some(MapChars(value, DoubledBoth))
  {
    if value == "" {
      assert MapChars(value, SystemdChar) + "\"" == "\"";
    } else {
      var c, rest := value[0], MapChars(value[1..], SystemdChar) + "\"";
      var s := MapChars(value, SystemdChar) + "\"";
      UnquoteMap(value[1..]);
      assert s == SystemdChar(c) + rest;
      UnquoteOne(c, rest);
    }
  }

  lemma UnquotePlain(x: char, rest: string)
    requires x != '"' && x != '\\'
    ensures Unquote([x] + rest) == Cons(x, Unquote(rest))
  {
    assert ([x] + rest)[1..] == rest;
  }

  lemma UnquoteEscape(x: char, rest: string)
    requires x == '"' || x == '\\'
    ensures Unquote(['\\', x] + rest) == Cons(x, Unquote(rest))
  {
    assert (['\\', x] + rest)[2..] == rest;
  }

  lemma UnquoteOne(c: char, rest: string)
    requires Unquote(rest).Some?
    ensures Unquote(SystemdChar(c) + rest) == Some(DoubledBoth(c) + Unquote(rest).value)
  {
    hide Unquote;
    if c == '"' || c == '\\' {
      UnquoteEscape(c, rest);
    } else {
      UnquotePlain(c, rest);
      if c == '%' || c == '$' {
        UnquotePlain(c, [c] + rest);
        assert [c, c] + rest == [c] + ([c] + rest);
        assert [c] + ([c] + Unquote(rest).value) == [c, c] + Unquote(rest).value;
      }
    }
  }

  lemma UndoublePlain(x: char, rest: string, mark: char)
    requires x != mark
    ensures Undouble([x] + rest, mark) == Cons(x, Undouble(rest, mark))
  {
    assert ([x] + rest)[1..] == rest;
  }

  lemma UndoublePair(rest: string, mark: char)
    ensures Undouble([mark, mark] + rest, mark) == Cons(mark, Undouble(rest, mark))
  {
    assert ([mark, mark] + rest)[2..] == rest;
  }

  lemma UndoubleOne(c: char, rest: string)
    requires Undouble(rest, '%').Some?
    ensures Undouble(DoubledBoth(c) + rest, '%') == Some(Doubled('$')(c) + Undouble(rest, '%').value)
  {
    hide Undouble;
    if c == '%' {
      UndoublePair(rest, '%');
    } else {
      UndoublePlain(c, rest, '%');
      if c == '$' {
        UndoublePlain(c, [c] + rest, '%');
        assert [c, c] + rest == [c] + ([c] + rest);
        assert [c] + ([c] + Undouble(rest, '%').value) == [c, c] + Undouble(rest, '%').value;
      }
    }
  }

  lemma {:induction false} UndoubleBoth(value: string)
    ensures Undouble(MapChars(value, DoubledBoth), '%') == Some(MapChars(value, Doubled('$')))
  {
    if value != "" {
      UndoubleBoth(value[1..]);
      UndoubleOne(value[0], MapChars(value[1..], DoubledBoth));
    }
  }

  lemma {:induction false} UndoubleDollars(value: string)
    ensures Undouble(MapChars(value, Doubled('$')), '$') == Some(value)
  {
    if value != "" {
      UndoubleDollars(value[1..]);
      var rest := MapChars(value[1..], Doubled('$'));
      UndoublePair(rest, '$');
      if value[0] != '$' { UndoublePlain(value[0], rest, '$'); }
      assert value == [value[0]] + value[1..];
    }
  }

  /** systemd reads back every argument `systemd_arg` writes. */
  lemma SystemdRoundTrip(value: string)
    ensures SystemdParse(SystemdArg(value)) == Some(value)
  {
    hide Unquote, Undouble, Escaped, MapChars;
    SystemdIsMap(value);
    var body := MapChars(value, SystemdChar) + "\"";
    assert SystemdArg(value) == "\"" + body;
    assert ("\"" + body)[1..] == body;
    UnquoteMap(value);
    UndoubleBoth(value);
    UndoubleDollars(value);
  }

  // ------------------------------------------------------------------------- Windows tasks

  function Backslashes(n: nat): (r: string)
  {
    Repeat('\\', n)
  }

  /** chars().rev().take_while(|c| *c == '\\').count() */
  function Trailing(s: string): (n: nat)
    ensures n <= |s|
  {
    if s != "" && s[|s| - 1] == '\\' then 1 + Trailing(s[..|s| - 1]) else 0
  }

  const WORKER_FLAG := "--managed-backup-worker"
  const DIR_FLAG := "--data-dir"

  /** The arguments of the scheduled task. */
  function TaskArguments(path: string): (r: string)
  {
    WORKER_FLAG + " " + (DIR_FLAG + " " + ("\"" + (path + Backslashes(Trailing(path)) + "\"")))
  }

  function Leading(s: string): (n: nat)
    ensures n <= |s| && (forall i :: 0 <= i < n ==> s[i] == '\\') && (n < |s| ==> s[n] != '\\')
  {
    if s != "" && s[0] == '\\' then 1 + Leading(s[1..]) else 0
  }

  /**
   * CommandLineToArgvW: blanks separate arguments outside quotes; backslashes are literal
   * unless a quote follows them, when each pair is one backslash and an odd one makes the
   * quote literal; inside quotes a doubled quote is a literal one. `current` is the argument
   * read so far, `open` whether there is one, `quoted` whether inside quotes.
   */
  function Arguments(s: string, current: string, open: bool, quoted: bool): (args: seq<string>)
    decreases |s|
  {
    if s == "" then if open then [current] else []
    else if s[0] == '\\' then
      var n := Leading(s);
      if n == |s| || s[n] != '"' then Arguments(s[n..], current + Backslashes(n), true, quoted)
      else if n % 2 == 0 then Arguments(s[n..], current + Backslashes(n / 2), true, quoted)
      else Arguments(s[n + 1..], current + Backslashes(n / 2) + "\"", true, quoted)
    else if s[0] == '"' then
      if quoted && |s| > 1 && s[1] == '"' then Arguments(s[2..], current + "\"", true, true)
      else Arguments(s[1..], current, true, !quoted)
    else if !quoted && (s[0] == ' ' || s[0] == '\t') then
      (if open then [current] else []) + Arguments(s[1..], "", false, false)
    else Arguments(s[1..], current + [s[0]], true, quoted)
  }

  predicate Plain(word: string)
  {
    forall i :: 0 <= i < |word| ==> word[i] != ' ' && word[i] != '\t' && word[i] != '"' && word[i] != '\\'
  }

  lemma {:induction false} ReadsWord(word: string, rest: string, current: string, open: bool)
    requires Plain(word) && (open || word != "")
    ensures Arguments(word + " " + rest, current, open, false) == [current + word] + Arguments(rest, "", false, false)
    decreases |word|
  {
    var s := word + " " + rest;
    if word == "" {
      assert s[1..] == rest && current + word == current;
    } else {
      assert s[1..] == word[1..] + " " + rest && s[0] == word[0];
      ReadsWord(word[1..], rest, current + [word[0]], true);
      assert current + [word[0]] + word[1..] == current + word;
    }
  }

  lemma {:induction false} TrailingOfTail(s: string, k: nat)
    requires k < |s| && s[k] != '\\'
    ensures Trailing(s[k..]) == Trailing(s)
    decreases |s|
  {
    if k < |s| - 1 {
      TrailingOfTail(s[..|s| - 1], k);
      assert s[k..][..|s| - k - 1] == s[..|s| - 1][k..];
    }
  }

  lemma {:induction false} TrailingAll(n: nat)
    ensures Trailing(Backslashes(n)) == n
  {
    if n > 0 {
      assert Backslashes(n)[..n - 1] == Backslashes(n - 1);
      TrailingAll(n - 1);
    }
  }

  /** Doubling the trailing backslashes keeps the closing quote a closing quote. */
  lemma {:induction false} ReadsQuoted(path: string, current: string)
    requires '"' !in path
    ensures Arguments(path + Backslashes(Trailing(path)) + "\"", current, true, true) == [current + path]
    decreases |path|
  {
    hide Arguments;
    var s := path + Backslashes(Trailing(path)) + "\"";
    if path == "" {
      assert s == "\"" && current + path == current;
      ClosingQuote(current);
    } else if path[0] != '\\' {
      ReadsChar(s, current);
      TailAfter(path);
      ReadsQuoted(path[1..], current + [path[0]]);
      assert current + [path[0]] + path[1..] == current + path;
    } else if Leading(path) == |path| {
      AllBackslashes(path, current);
    } else {
      var n := Leading(path);
      RunThenChar(path, s, n, current);
      TailAfterRun(path, n);
      ReadsQuoted(path[n..], current + Backslashes(n));
      assert current + Backslashes(n) + path[n..] == current + path;
    }
  }

  lemma AllBackslashes(path: string, current: string)
    requires path != "" && Leading(path) == |path|
    ensures Arguments(path + Backslashes(Trailing(path)) + "\"", current, true, true) == [current + path]
  {
    hide Arguments;
    var n := |path|;
    assert path == Backslashes(n);
    TrailingAll(n);
    assert path + Backslashes(n) + "\"" == Backslashes(2 * n) + "\"";
    EvenRun(n, current);
  }

  lemma TailAfterRun(path: string, n: nat)
    requires n == Leading(path) < |path|
    ensures (path + Backslashes(Trailing(path)) + "\"")[n..] == path[n..] + Backslashes(Trailing(path[n..])) + "\""
    ensures path == Backslashes(n) + path[n..]
  {
    hide Backslashes, Trailing;
    TrailingOfTail(path, n);
    DropPrefix(path, Backslashes(Trailing(path)), "\"", n);
    LeadingPart(path);
  }

  lemma LeadingPart(path: string)
    ensures path == Backslashes(Leading(path)) + path[Leading(path)..]
  {
    var n := Leading(path);
    assert path[..n] == Backslashes(n);
  }

  lemma DropPrefix(a: string, b: string, c: string, n: nat)
    requires n <= |a|
    ensures (a + b + c)[n..] == a[n..] + b + c
  {
    assert a + b + c == a + (b + c) && (a + (b + c))[n..] == a[n..] + (b + c);
  }

  lemma ClosingQuote(current: string)
    ensures Arguments("\"", current, true, true) == [current]
  {
    assert "\""[1..] == "";
  }

  lemma ReadsChar(s: string, current: string)
    requires s != "" && s[0] != '\\' && s[0] != '"'
    ensures Arguments(s, current, true, true) == Arguments(s[1..], current + [s[0]], true, true)
  {}

  lemma TailAfter(path: string)
    requires path != "" && path[0] != '\\'
    ensures (path + Backslashes(Trailing(path)) + "\"")[1..] == path[1..] + Backslashes(Trailing(path[1..])) + "\""
  {
    if |path| == 1 {
      assert path[..0] == "";
    } else {
      TrailingCut(path);
    }
  }

  lemma {:induction false} TrailingCut(path: string)
    requires path != "" && path[0] != '\\'
    ensures Trailing(path[1..]) == Trailing(path)
    decreases |path|
  {
    if |path| == 1 {
      assert path[..0] == "" && path[1..] == "";
    } else {
      TrailingCut(path[..|path| - 1]);
      assert path[1..][..|path| - 2] == path[..|path| - 1][1..];
    }
  }

  lemma LeadingRun(n: nat, rest: string)
    requires rest != "" && rest[0] != '\\'
    ensures Leading(Backslashes(n) + rest) == n
  {
    var s := Backslashes(n) + rest;
    assert s[n] != '\\' && forall i :: 0 <= i < n ==> s[i] == '\\';
  }

  lemma EvenRun(n: nat, current: string)
    requires n > 0
    ensures Arguments(Backslashes(2 * n) + "\"", current, true, true) == [current + Backslashes(n)]
  {
    var s := Backslashes(2 * n) + "\"";
    LeadingRun(2 * n, "\"");
    assert s[2 * n..] == "\"" && s[0] == '\\';
    ClosingQuote(current + Backslashes(n));
  }

  lemma RunThenChar(path: string, s: string, n: nat, current: string)
    requires 0 < n < |path| && n == Leading(path) && path <= s && path[n] != '"'
    ensures Arguments(s, current, true, true) == Arguments(s[n..], current + Backslashes(n), true, true)
  {
    assert s[n] == path[n] && s[0] == path[0];
    assert s == Backslashes(n) + s[n..];
    LeadingRun(n, s[n..]);
  }

  /** Windows splits the arguments into the two flags and the path, for every path without a quote. */
  lemma TaskArgumentsParse(path: string)
    requires '"' !in path
    ensures Arguments(TaskArguments(path), "", false, false) == ["--managed-backup-worker", "--data-dir", path]
  {
    hide Arguments;
    var quoted := path + Backslashes(Trailing(path)) + "\"";
    FlagsPlain();
    ReadsWord(WORKER_FLAG, DIR_FLAG + " " + ("\"" + quoted), "", false);
    ReadsWord(DIR_FLAG, "\"" + quoted, "", false);
    OpeningQuote(quoted);
    ReadsQuoted(path, "");
    assert "" + WORKER_FLAG == WORKER_FLAG && "" + DIR_FLAG == DIR_FLAG && "" + path == path;
  }

  lemma FlagsPlain()
    ensures Plain(WORKER_FLAG) && Plain(DIR_FLAG)
  {}

  lemma OpeningQuote(rest: string)
    ensures Arguments("\"" + rest, "", false, false) == Arguments(rest, "", true, true)
  {
    assert ("\"" + rest)[1..] == rest;
  }

  /** The whole way: the XML of the scheduler's file, then the command line. */
  lemma TaskRoundTrip(path: string)
    requires '"' !in path
    ensures XmlDecode(Xml(TaskArguments(path))).Some?
    ensures Arguments(XmlDecode(Xml(TaskArguments(path))).value, "", false, false)
      == ["--managed-backup-worker", "--data-dir", path]
  {
    hide Arguments, Xml, XmlDecode;
    XmlRoundTrip(TaskArguments(path));
    TaskArgumentsParse(path);
  }
}
