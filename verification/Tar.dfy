/**
 * The ustar reader of docs/lib/agentBundle.ts.  Text is a sequence of code
 * units; octets that String.fromCharCode turns into text keep their value, so a
 * byte string is text as it stands.
 */
module Tar {
  import opened Options
  import opened Bytes

  type Text = seq<int>

  datatype TarError = BadSize | Truncated | Unsupported
  datatype File = File(name: Text, data: seq<byte>)
  datatype Listing = Listed(files: seq<File>) | Thrown(error: TarError)
  datatype Entries = Parsed(entries: map<Text, seq<byte>>) | Failed(error: TarError)

  const BLOCK: nat := 512
  const SLASH: int := 47

  // ------------------------------------------------------------------ field decoding

  /** The octal field read so far is `v`; the rest of the field is `s`. */
  function OctalRest(s: seq<byte>, v: nat): (r: Option<nat>)
  {
    if s == [] || s[0] == 0 || s[0] == 32 then Some(v)
    else if s[0] < 48 || s[0] > 55 then None
    else OctalRest(s[1..], v * 8 + (s[0] as int - 48))
  }

  /** octal: stops at NUL or space, throws (None) on any other non-digit. */
  method Octal(bytes: seq<byte>) returns (r: Option<nat>)
    ensures r == OctalRest(bytes, 0)
  {
    var value: nat := 0;
    var i := 0;
    while i < |bytes|
      invariant 0 <= i <= |bytes|
      invariant OctalRest(bytes[i..], value) == OctalRest(bytes, 0)
    {
      var b: int := bytes[i];
      assert bytes[i..][0] == bytes[i] && bytes[i..][1..] == bytes[i + 1..];
      if b == 0 || b == 32 { break; }
      if b < 48 || b > 55 { return None; }
      value := value * 8 + (b - 48);
      i := i + 1;
    }
    return Some(value);
  }

  /** A line terminator, which `.` does not match. */
  predicate IsNewline(c: int)
  {
    c == 10 || c == 13
  }

  /** A match of /\0.*$/ starts at `i`. */
  predicate NulTailAt(s: seq<byte>, i: nat)
  {
    i < |s| && s[i] == 0 && forall j :: i < j < |s| ==> !IsNewline(s[j])
  }

  function FirstNulTail(s: seq<byte>, i: nat): (r: nat)
    requires i <= |s|
    ensures i <= r <= |s|
    decreases |s| - i
  {
    if i == |s| || NulTailAt(s, i) then i else FirstNulTail(s, i + 1)
  }

  /** replace(/\0.*$/, "") */
  function CutAtNul(s: seq<byte>): (r: seq<byte>)
  {
    s[..FirstNulTail(s, 0)]
  }

  /** The bytes before the first NUL, or all of them: subarray(0, indexOf(0)). */
  function UpToNul(s: seq<byte>): (r: seq<byte>)
  {
    if s == [] || s[0] == 0 then [] else [s[0]] + UpToNul(s[1..])
  }

  predicate AllZero(s: seq<byte>)
  {
    forall i :: 0 <= i < |s| ==> s[i] == 0
  }

  function Ceil512(n: nat): (r: nat)
    ensures n <= r < n + 512 && r % 512 == 0
  {
    (n + 511) / 512 * 512
  }

  function TypeFlag(header: seq<byte>): (r: int)
    requires |header| == BLOCK
  {
    if header[156] == 0 then 48 else header[156]
  }

  /** The name of a regular file: long name or raw name, behind the ustar prefix if there is one. */
  function FileName(header: seq<byte>, longName: Option<Text>): (r: Text)
    requires |header| == BLOCK
  {
    var raw: Text := CutAtNul(header[..100]);
    var name := if longName.Some? then longName.value else raw;
    var prefix: Text := CutAtNul(header[345..500]);
    if header[257..262] == [117, 115, 116, 97, 114] && prefix != [] then prefix + [SLASH] + name else name
  }

  // ------------------------------------------------------------------- the reader

  /** The regular files the reader finds from `offset` on, in order. */
  function ReadFrom(bytes: seq<byte>, offset: nat, longName: Option<Text>, utf8: seq<byte> -> Text): (r: Listing)
    decreases if offset <= |bytes| then |bytes| - offset else 0
  {
    if offset + BLOCK > |bytes| then Listed([])
    else
      var header := bytes[offset..offset + BLOCK];
      if AllZero(header) then Listed([])
      else match OctalRest(header[124..136], 0)
        case None => Thrown(BadSize)
        case Some(size) =>
          var start := offset + BLOCK;
          if start + size > |bytes| then Thrown(Truncated)
          else
            var data, next, flag := bytes[start..start + size], start + Ceil512(size), TypeFlag(header);
            if flag == 76 then ReadFrom(bytes, next, Some(utf8(UpToNul(data))), utf8)
            else if flag == 48 then
              Prepend(File(FileName(header, longName), data), ReadFrom(bytes, next, None, utf8))
            else if flag == 53 || flag == 120 || flag == 103 then ReadFrom(bytes, next, longName, utf8)
            else Thrown(Unsupported)
  }

  /** A file with an empty name is dropped. */
  function Prepend(f: File, rest: Listing): (r: Listing)
  {
    if rest.Thrown? || f.name == [] then rest else Listed([f] + rest.files)
  }

  /** Later files of the same name replace earlier ones. */
  function Collect(m: map<Text, seq<byte>>, files: seq<File>): (r: map<Text, seq<byte>>)
    decreases |files|
  {
    if files == [] then m else Collect(m[files[0].name := files[0].data], files[1..])
  }

  function ToEntries(m: map<Text, seq<byte>>, l: Listing): (r: Entries)
  {
    match l
    case Listed(files) => Parsed(Collect(m, files))
    case Thrown(e) => Failed(e)
  }

  lemma PrependCollects(m: map<Text, seq<byte>>, f: File, rest: Listing)
    ensures ToEntries(m, Prepend(f, rest)) == ToEntries(if f.name == [] then m else m[f.name := f.data], rest)
  {
    if rest.Listed? && f.name != [] {
      assert ([f] + rest.files)[1..] == rest.files;
    }
  }

  /** parseTarEntries: terminates on every input and collects what ReadFrom lists. */
  method ParseTarEntries(bytes: seq<byte>, utf8: seq<byte> -> Text) returns (r: Entries)
    ensures r == ToEntries(map[], ReadFrom(bytes, 0, None, utf8))
  {
    hide AllZero, CutAtNul, UpToNul, OctalRest, FileName, Collect, Prepend, ToEntries;
    var entries: map<Text, seq<byte>> := map[];
    var offset: nat := 0;
    var longName: Option<Text> := None;
    while offset + BLOCK <= |bytes|
      invariant ToEntries(entries, ReadFrom(bytes, offset, longName, utf8)) ==
        ToEntries(map[], ReadFrom(bytes, 0, None, utf8))
      decreases |bytes| - offset
    {
      var header := bytes[offset..offset + BLOCK];
      if AllZero(header) { break; }
      var size := Octal(header[124..136]);
      if size == None {
        ThrownFails(entries, BadSize);
        return Failed(BadSize);
      }
      var start := offset + BLOCK;
      var end := start + size.value;
      if end > |bytes| {
        ThrownFails(entries, Truncated);
        return Failed(Truncated);
      }
      var data := bytes[start..end];
      var flag := TypeFlag(header);
      var next := start + Ceil512(size.value);
      if flag == 76 {
        longName := Some(utf8(UpToNul(data)));
      } else if flag == 48 {
        var name := FileName(header, longName);
        PrependCollects(entries, File(name, data), ReadFrom(bytes, next, None, utf8));
        longName := None;
        if name != [] { entries := entries[name := data]; }
      } else if flag != 53 && flag != 120 && flag != 103 {
        ThrownFails(entries, Unsupported);
        return Failed(Unsupported);
      }
      offset := next;
    }
    NothingCollected(entries);
    return Parsed(entries);
  }

  lemma ThrownFails(m: map<Text, seq<byte>>, e: TarError)
    ensures ToEntries(m, Thrown(e)) == Failed(e)
  {}

  lemma NothingCollected(m: map<Text, seq<byte>>)
    ensures ToEntries(m, Listed([])) == Parsed(m)
  {}

  // ------------------------------------------------------------- on arbitrary bytes

  /** On arbitrary input every listed file's data is a slice of the input, and its name is not empty. */
  lemma {:induction false} SlicesOfInput(bytes: seq<byte>, offset: nat, longName: Option<Text>, utf8: seq<byte> -> Text)
    ensures var l := ReadFrom(bytes, offset, longName, utf8);
      l.Listed? ==> forall f :: f in l.files ==> f.name != [] && exists i: nat :: HasAt(bytes, i, f.data)
    decreases if offset <= |bytes| then |bytes| - offset else 0
  {
    hide AllZero, CutAtNul, UpToNul, OctalRest, FileName;
    if offset + BLOCK <= |bytes| {
      var header := bytes[offset..offset + BLOCK];
      if !AllZero(header) && OctalRest(header[124..136], 0).Some? {
        var size := OctalRest(header[124..136], 0).value;
        var start := offset + BLOCK;
        if start + size <= |bytes| {
          var next := start + Ceil512(size);
          assert HasAt(bytes, start, bytes[start..start + size]);
          SlicesOfInput(bytes, next, None, utf8);
          SlicesOfInput(bytes, next, longName, utf8);
          SlicesOfInput(bytes, next, Some(utf8(UpToNul(bytes[start..start + size]))), utf8);
        }
      }
    }
  }
}
