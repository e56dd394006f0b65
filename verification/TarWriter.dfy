/**
 * A ustar writer by the ustar Interchange Format of the pax utility (IEEE Std
 * 1003.1) with the GNU long-name extension, and what the reader makes of its
 * archives.
 */
module TarWriter {
  import opened Options
  import opened Bytes
  import opened Tar

  /** How a header carries its name. */
  datatype Style = Plain | Split(at: nat) | Long

  /** The header fields the reader never looks at. */
  datatype Meta = Meta(front: seq<byte>, middle: seq<byte>, link: seq<byte>, owner: seq<byte>, tail: seq<byte>)
  {
    predicate Valid()
    {
      |front| == 24 && |middle| == 20 && |link| == 100 && |owner| == 80 && |tail| == 12
    }
  }

  datatype Item = Item(flag: byte, name: seq<byte>, data: seq<byte>, style: Style, meta: Meta, longMeta: Meta)

  const MAGIC: seq<byte> := [117, 115, 116, 97, 114, 0, 48, 48]
  const LONG_LINK: seq<byte> := [46, 47, 46, 47, 64, 76, 111, 110, 103, 76, 105, 110, 107]
  const OCTAL_LIMIT: nat := 8_589_934_592

  // ------------------------------------------------------------------------ fields

  function PadTo(s: seq<byte>, n: nat): (r: seq<byte>)
    requires |s| <= n
    ensures |r| == n
  {
    s + Zeros(n - |s|)
  }

  /** `k` octal digits, most significant first. */
  function Digits8(n: nat, k: nat): (r: seq<byte>)
    ensures |r| == k
  {
    if k == 0 then [] else Digits8(n / 8, k - 1) + [48 + n % 8]
  }

  function Pow8(k: nat): (r: nat)
  {
    if k == 0 then 1 else 8 * Pow8(k - 1)
  }

  /** A size field: eleven octal digits and a NUL. */
  function OctalField(n: nat): (r: seq<byte>)
    ensures |r| == 12
  {
    Digits8(n, 11) + [0]
  }

  lemma {:induction false} DigitsReadBack(n: nat, k: nat, tail: seq<byte>)
    requires n < Pow8(k)
    ensures OctalRest(Digits8(n, k) + tail, 0) == OctalRest(tail, n)
    decreases k
  {
    if k == 0 {
      assert Digits8(n, k) + tail == tail;
    } else {
      var rest := [48 + n % 8] + tail;
      assert Digits8(n, k) + tail == Digits8(n / 8, k - 1) + rest;
      DigitsReadBack(n / 8, k - 1, rest);
      assert rest[1..] == tail;
    }
  }

  lemma OctalFieldReadBack(n: nat)
    requires n < OCTAL_LIMIT
    ensures OctalRest(OctalField(n), 0) == Some(n)
  {
    assert Pow8(4) == 4096;
    assert Pow8(8) == 16_777_216;
    assert Pow8(11) == OCTAL_LIMIT;
    DigitsReadBack(n, 11, [0]);
  }

  predicate NulFree(s: seq<byte>)
  {
    forall i :: 0 <= i < |s| ==> s[i] != 0
  }

  lemma {:induction false} FirstNulTailIs(s: seq<byte>, i: nat, k: nat)
    requires i <= k <= |s|
    requires forall j :: i <= j < k ==> s[j] != 0
    requires k == |s| || NulTailAt(s, k)
    ensures FirstNulTail(s, i) == k
    decreases k - i
  {
    if i < k { FirstNulTailIs(s, i + 1, k); }
  }

  /** A padded NUL-free field reads back. */
  lemma PaddedReadsBack(s: seq<byte>, n: nat)
    requires |s| <= n && NulFree(s)
    ensures CutAtNul(PadTo(s, n)) == s
  {
    FirstNulTailIs(PadTo(s, n), 0, |s|);
  }

  lemma {:induction false} UpToNulReadsBack(s: seq<byte>, tail: seq<byte>)
    requires NulFree(s)
    ensures UpToNul(s + [0] + tail) == s
  {
    if s == [] {
    } else {
      assert (s + [0] + tail)[1..] == s[1..] + [0] + tail;
      UpToNulReadsBack(s[1..], tail);
    }
  }

  // ----------------------------------------------------------------------- headers

  function Header(raw: seq<byte>, size: nat, flag: byte, prefix: seq<byte>, m: Meta): (h: seq<byte>)
    requires |raw| <= 100 && |prefix| <= 155 && m.Valid()
    ensures |h| == BLOCK
  {
    PadTo(raw, 100) + m.front + OctalField(size) + m.middle + [flag] + m.link + MAGIC + m.owner +
    PadTo(prefix, 155) + m.tail
  }

  lemma HeaderFields(raw: seq<byte>, size: nat, flag: byte, prefix: seq<byte>, m: Meta)
    requires |raw| <= 100 && |prefix| <= 155 && m.Valid()
    ensures var h := Header(raw, size, flag, prefix, m);
      && h[..100] == PadTo(raw, 100)
      && h[124..136] == OctalField(size)
      && h[156] == flag
      && h[257..262] == [117, 115, 116, 97, 114]
      && h[345..500] == PadTo(prefix, 155)
  {
    hide PadTo, OctalField;
    var h := Header(raw, size, flag, prefix, m);
    var p1 := PadTo(raw, 100) + m.front;
    var p2 := p1 + OctalField(size) + m.middle;
    var p3 := p2 + [flag] + m.link;
    var p4 := p3 + MAGIC + m.owner;
    assert h == p4 + PadTo(prefix, 155) + m.tail;
    assert h[..257] == p3;
    assert h[257..265] == MAGIC;
    assert h[257..262] == MAGIC[..5];
    assert p3[..156] == p2 && p3[156] == flag;
    assert p2[..124] == p1 && p2[124..136] == OctalField(size);
    assert p1[..100] == PadTo(raw, 100);
    assert h[..156] == p2;
    assert h[124..136] == p2[124..136];
    assert h[..124] == p1;
    assert h[..100] == p1[..100];
  }

  /** Data padded to whole blocks. */
  function PadBlocks(d: seq<byte>): (r: seq<byte>)
    ensures |r| == Ceil512(|d|)
  {
    d + Zeros(Ceil512(|d|) - |d|)
  }

  /** What one header and its data contribute, by type flag. */
  function BlockMeaning(bytes: seq<byte>, next: nat, flag: int, raw: seq<byte>, prefix: seq<byte>, data: seq<byte>,
                        longName: Option<Text>, utf8: seq<byte> -> Text): (r: Listing)
  {
    if flag == 76 then ReadFrom(bytes, next, Some(utf8(UpToNul(data))), utf8)
    else if flag == 48 || flag == 0 then
      var base: Text := if longName.Some? then longName.value else raw;
      var name := if prefix != [] then prefix + [SLASH] + base else base;
      Prepend(File(name, data), ReadFrom(bytes, next, None, utf8))
    else if flag == 53 || flag == 120 || flag == 103 then ReadFrom(bytes, next, longName, utf8)
    else Thrown(Unsupported)
  }

  /** The reader takes a written header and its data for what they mean. */
  lemma ReadsBlock(
      bytes: seq<byte>, offset: nat, raw: seq<byte>, flag: byte, prefix: seq<byte>, m: Meta, data: seq<byte>,
      longName: Option<Text>, utf8: seq<byte> -> Text)
    requires |raw| <= 100 && |prefix| <= 155 && m.Valid() && |data| < OCTAL_LIMIT
    requires NulFree(raw) && NulFree(prefix) && raw != []
    requires HasAt(bytes, offset, Header(raw, |data|, flag, prefix, m) + PadBlocks(data))
    ensures ReadFrom(bytes, offset, longName, utf8)
         == BlockMeaning(bytes, offset + BLOCK + Ceil512(|data|), flag, raw, prefix, data, longName, utf8)
  {
    hide Header, OctalField, OctalRest, CutAtNul, UpToNul, Prepend;
    var h := Header(raw, |data|, flag, prefix, m);
    HeaderFields(raw, |data|, flag, prefix, m);
    OctalFieldReadBack(|data|);
    PaddedReadsBack(raw, 100);
    PaddedReadsBack(prefix, 155);
    assert h[0] == h[..100][0] == raw[0];
    BlockParts(bytes, offset, h, data);
  }

  lemma BlockParts(bytes: seq<byte>, offset: nat, h: seq<byte>, data: seq<byte>)
    requires |h| == BLOCK && HasAt(bytes, offset, h + PadBlocks(data))
    ensures offset + BLOCK + |data| <= |bytes|
    ensures bytes[offset..offset + BLOCK] == h
    ensures bytes[offset + BLOCK..offset + BLOCK + |data|] == data
  {
    var all := h + PadBlocks(data);
    assert HasAt(all, 0, h);
    HasWithin(bytes, offset, all, 0, h);
    assert all[BLOCK..BLOCK + |data|] == data;
    HasWithin(bytes, offset, all, BLOCK, data);
  }

  // ------------------------------------------------------------------------- items

  predicate IsFile(it: Item)
  {
    it.flag == 48 || it.flag == 0
  }

  predicate GoodText(name: seq<byte>)
  {
    name != [] && forall i :: 0 <= i < |name| ==> 1 <= name[i] <= 127
  }

  /** Plain names fit the name field, split names fit name and prefix, longer ones take a GNU long-name header. */
  predicate StyleFits(name: seq<byte>, style: Style)
  {
    match style
    case Plain => |name| <= 100
    case Split(k) => 0 < k <= 155 && k + 1 < |name| <= k + 101 && name[k] == SLASH
    case Long => |name| > 100
  }

  predicate GoodItem(it: Item)
  {
    && (IsFile(it) || it.flag == 53 || it.flag == 120 || it.flag == 103)
    && GoodText(it.name) && StyleFits(it.name, it.style)
    && |it.name| + 1 < OCTAL_LIMIT && |it.data| < OCTAL_LIMIT
    && it.meta.Valid() && it.longMeta.Valid()
  }

  ghost predicate GoodItems(items: seq<Item>)
  {
    forall it :: it in items ==> GoodItem(it)
  }

  function RawName(it: Item): (r: seq<byte>)
    requires GoodItem(it)
    ensures 0 < |r| <= 100 && NulFree(r)
  {
    match it.style
    case Plain => it.name
    case Split(k) => it.name[k + 1..]
    case Long => it.name[..100]
  }

  function Prefix(it: Item): (r: seq<byte>)
    requires GoodItem(it)
    ensures |r| <= 155 && NulFree(r)
  {
    if it.style.Split? then it.name[..it.style.at] else []
  }

  function LongBlock(it: Item): (r: seq<byte>)
    requires GoodItem(it)
  {
    if it.style.Long? then Header(LONG_LINK, |it.name| + 1, 76, [], it.longMeta) + PadBlocks(it.name + [0]) else []
  }

  function OwnBlock(it: Item): (r: seq<byte>)
    requires GoodItem(it)
  {
    Header(RawName(it), |it.data|, it.flag, Prefix(it), it.meta) + PadBlocks(it.data)
  }

  /** The archive of `items`, closed by two zero blocks. */
  ghost function WriteTar(items: seq<Item>): (r: seq<byte>)
    requires GoodItems(items)
  {
    if items == [] then Zeros(1024) else LongBlock(items[0]) + (OwnBlock(items[0]) + WriteTar(items[1..]))
  }

  /** The long name in force once `it`'s own long-name header, if any, was read. */
  function Pending(it: Item, pending: Option<Text>): (r: Option<Text>)
  {
    if it.style.Long? then Some(it.name) else pending
  }

  /** The name the reader gives a file while the long name `pending` is in force. */
  function SeenName(it: Item, pending: Option<Text>): (r: Text)
    requires GoodItem(it)
  {
    var base: Text := if pending.Some? then pending.value else RawName(it);
    if Prefix(it) != [] then Prefix(it) + [SLASH] + base else base
  }

  /** The files the reader lists for an archive of `items`. */
  ghost function Seen(items: seq<Item>, pending: Option<Text>): (r: seq<File>)
    requires GoodItems(items)
    decreases |items|
  {
    if items == [] then []
    else
      var now := Pending(items[0], pending);
      if IsFile(items[0]) then [File(SeenName(items[0], now), items[0].data)] + Seen(items[1..], None)
      else Seen(items[1..], now)
  }

  /** The regular files of `items` under their own names. */
  ghost function Files(items: seq<Item>): (r: seq<File>)
  {
    if items == [] then []
    else if IsFile(items[0]) then [File(items[0].name, items[0].data)] + Files(items[1..])
    else Files(items[1..])
  }

  ghost predicate DecodesAscii(utf8: seq<byte> -> Text)
  {
    forall s :: IsAscii(s) ==> utf8(s) == s
  }

  lemma HasParts(bytes: seq<byte>, offset: nat, a: seq<byte>, b: seq<byte>)
    requires HasAt(bytes, offset, a + b)
    ensures HasAt(bytes, offset, a) && HasAt(bytes, offset + |a|, b)
  {
    HasInMiddle([], a, b);
    HasInMiddle(a, b, []);
    assert [] + a + b == a + b && a + b + [] == a + b;
    HasWithin(bytes, offset, a + b, 0, a);
    HasWithin(bytes, offset, a + b, |a|, b);
  }

  /** A long-name header puts its name in force; other items have none. */
  lemma ReadsLongBlock(bytes: seq<byte>, offset: nat, it: Item, pending: Option<Text>, utf8: seq<byte> -> Text)
    requires GoodItem(it) && DecodesAscii(utf8) && HasAt(bytes, offset, LongBlock(it))
    ensures ReadFrom(bytes, offset, pending, utf8) ==
      ReadFrom(bytes, offset + |LongBlock(it)|, Pending(it, pending), utf8)
  {
    hide Header, PadBlocks, ReadFrom, UpToNul, StyleFits, HasAt;
    if it.style.Long? {
      var data := it.name + [0];
      ReadsBlock(bytes, offset, LONG_LINK, 76, [], it.longMeta, data, pending, utf8);
      UpToNulReadsBack(it.name, []);
      assert data == it.name + [0] + [];
      assert IsAscii(it.name);
    }
  }

  lemma FileSeen(it: Item, now: Option<Text>)
    requires GoodItem(it) && (now.Some? ==> now.value != [])
    ensures SeenName(it, now) != []
  {}

  lemma ReadsEnd(bytes: seq<byte>, offset: nat, pending: Option<Text>, utf8: seq<byte> -> Text)
    requires HasAt(bytes, offset, Zeros(1024))
    ensures ReadFrom(bytes, offset, pending, utf8) == Listed([])
  {
    var z := Zeros(1024);
    assert z[..BLOCK] == bytes[offset..offset + BLOCK];
    assert AllZero(z[..BLOCK]);
  }

  /** For every archive the writer produces, the reader lists exactly what Seen says. */
  lemma {:induction false} ReadsItems(
      bytes: seq<byte>, offset: nat, items: seq<Item>, pending: Option<Text>, utf8: seq<byte> -> Text)
    requires GoodItems(items) && DecodesAscii(utf8) && (pending.Some? ==> pending.value != [])
    requires HasAt(bytes, offset, WriteTar(items)) && offset + |WriteTar(items)| == |bytes|
    ensures ReadFrom(bytes, offset, pending, utf8) == Listed(Seen(items, pending))
    decreases |items|
  {
    hide Header, ReadFrom, LongBlock, OwnBlock, HasAt, SeenName, GoodItem, Pending;
    if items == [] {
      ReadsEnd(bytes, offset, pending, utf8);
    } else {
      var it, rest := items[0], items[1..];
      var own := OwnBlock(it);
      HasParts(bytes, offset, LongBlock(it), own + WriteTar(rest));
      ReadsLongBlock(bytes, offset, it, pending, utf8);
      var at, now := offset + |LongBlock(it)|, Pending(it, pending);
      HasParts(bytes, at, own, WriteTar(rest));
      PendingNotEmpty(it, pending);
      ReadsItem(bytes, at, it, now, utf8);
      ReadsItems(bytes, at + |own|, rest, if IsFile(it) then None else now, utf8);
      FileSeen(it, now);
    }
  }

  lemma PendingNotEmpty(it: Item, pending: Option<Text>)
    requires GoodItem(it) && (pending.Some? ==> pending.value != [])
    ensures Pending(it, pending).Some? ==> Pending(it, pending).value != []
  {}

  lemma ReadsItem(bytes: seq<byte>, at: nat, it: Item, now: Option<Text>, utf8: seq<byte> -> Text)
    requires GoodItem(it) && HasAt(bytes, at, OwnBlock(it))
    ensures ReadFrom(bytes, at, now, utf8) ==
      if IsFile(it) then Prepend(File(SeenName(it, now), it.data), ReadFrom(bytes, at + |OwnBlock(it)|, None, utf8))
      else ReadFrom(bytes, at + |OwnBlock(it)|, now, utf8)
  {
    hide Header, ReadFrom, Prepend;
    ReadsBlock(bytes, at, RawName(it), it.flag, Prefix(it), it.meta, it.data, now, utf8);
  }

  // ------------------------------------------------------------------- main results

  /**
   * A long name read before a directory or pax header stays in force, because only
   * a regular file clears it.  The archive is leak-free when no file that carries
   * its name in its own header comes next after such a long-named header.
   */
  ghost predicate LeakFree(items: seq<Item>, pending: bool)
    decreases |items|
  {
    if items == [] then true
    else if IsFile(items[0]) then (pending ==> items[0].style.Long?) && LeakFree(items[1..], false)
    else LeakFree(items[1..], pending || items[0].style.Long?)
  }

  lemma OwnNameSeen(it: Item, pending: Option<Text>)
    requires GoodItem(it) && (pending.Some? ==> |pending.value| > 100)
    ensures SeenName(it, Pending(it, pending)) == it.name <==> (pending.Some? ==> it.style.Long?)
  {
    match it.style
    case Plain =>
    case Split(k) =>
      assert it.name == it.name[..k] + [SLASH] + it.name[k + 1..];
      if pending.Some? {
        assert |SeenName(it, pending)| > |it.name|;
      }
    case Long =>
  }

  /** The reader sees the files' own names exactly when the archive is leak-free. */
  lemma {:induction false} SeenIsFiles(items: seq<Item>, pending: Option<Text>)
    requires GoodItems(items) && (pending.Some? ==> |pending.value| > 100)
    ensures Seen(items, pending) == Files(items) <==> LeakFree(items, pending.Some?)
    decreases |items|
  {
    if items != [] {
      var it, rest := items[0], items[1..];
      var now := Pending(it, pending);
      OwnNameSeen(it, pending);
      if IsFile(it) {
        SeenIsFiles(rest, None);
        var a, b := Seen(items, pending), Files(items);
        assert a[1..] == Seen(rest, None) && b[1..] == Files(rest);
        assert a[0] == File(SeenName(it, now), it.data) && b[0] == File(it.name, it.data);
      } else {
        SeenIsFiles(rest, now);
      }
    }
  }

  /** parseTarEntries lists the archive's files, in order and byte for byte, exactly when no long name leaks. */
  lemma RoundTrip(items: seq<Item>, utf8: seq<byte> -> Text)
    requires GoodItems(items) && DecodesAscii(utf8)
    ensures ReadFrom(WriteTar(items), 0, None, utf8) == Listed(Files(items)) <==> LeakFree(items, false)
  {
    hide ReadFrom, WriteTar, Seen, Files, LeakFree;
    var b := WriteTar(items);
    HasInMiddle([], b, []);
    assert [] + b + [] == b;
    ReadsItems(b, 0, items, None, utf8);
    SeenIsFiles(items, None);
  }

  ghost predicate DistinctNames(files: seq<File>)
  {
    forall i, j :: 0 <= i < j < |files| ==> files[i].name != files[j].name
  }

  /** With distinct names, collecting keeps every file and nothing else. */
  lemma {:induction false} CollectKeepsAll(m: map<Text, seq<byte>>, files: seq<File>)
    requires DistinctNames(files)
    ensures var c := Collect(m, files);
      && (forall f :: f in files ==> f.name in c && c[f.name] == f.data)
      && (forall n :: n in c ==> n in m || exists f :: f in files && f.name == n)
      && (forall n :: n in m && (forall f :: f in files ==> f.name != n) ==> n in c && c[n] == m[n])
    decreases |files|
  {
    if files != [] {
      var f, rest := files[0], files[1..];
      CollectKeepsAll(m[f.name := f.data], rest);
      assert files == [f] + rest;
      forall g | g in rest
        ensures g.name != f.name
      {
        var k :| 0 <= k < |rest| && rest[k] == g;
        assert files[0].name != files[k + 1].name;
      }
    }
  }

  /** A leak-free archive with distinct names comes back as the map from names to contents. */
  lemma RoundTripMap(items: seq<Item>, utf8: seq<byte> -> Text)
    requires GoodItems(items) && DecodesAscii(utf8) && LeakFree(items, false) && DistinctNames(Files(items))
    ensures var r := ToEntries(map[], ReadFrom(WriteTar(items), 0, None, utf8));
      && r.Parsed?
      && (forall f :: f in Files(items) ==> f.name in r.entries && r.entries[f.name] == f.data)
      && (forall n :: n in r.entries ==> exists f :: f in Files(items) && f.name == n)
  {
    hide ReadFrom, WriteTar, Files, LeakFree, DistinctNames, Collect;
    RoundTrip(items, utf8);
    CollectKeepsAll(map[], Files(items));
  }

  /** A directory with a long name renames the plain file behind it. */
  lemma LongDirectoryLeaks(dir: seq<byte>, name: seq<byte>, data: seq<byte>, m: Meta, utf8: seq<byte> -> Text)
    requires GoodText(dir) && 100 < |dir| < 1000 && GoodText(name) && |name| <= 100 && |data| < OCTAL_LIMIT && m.Valid()
    requires DecodesAscii(utf8)
    ensures var items := [Item(53, dir, [], Long, m, m), Item(48, name, data, Plain, m, m)];
      GoodItems(items) && ReadFrom(WriteTar(items), 0, None, utf8) == Listed([File(dir, data)])
  {
    hide ReadFrom, WriteTar;
    var d, f := Item(53, dir, [], Long, m, m), Item(48, name, data, Plain, m, m);
    var items := [d, f];
    assert GoodItem(d) && GoodItem(f);
    assert items[1..] == [f] && items[1..][1..] == [];
    assert Seen([f], Some(dir)) == [File(dir, data)] + Seen([], None);
    assert Seen(items, None) == [File(dir, data)];
    var b := WriteTar(items);
    HasInMiddle([], b, []);
    assert [] + b + [] == b;
    ReadsItems(b, 0, items, None, utf8);
  }
}
