/** What the tar reader makes of what follows the last whole item: ends, damage and foreign types. */
module TarEnds {
  import opened Options
  import opened Bytes
  import opened Tar
  import opened TarWriter

  /** The blocks of `items`, without the closing zero blocks. */
  ghost function Blocks(items: seq<Item>): (r: seq<byte>)
    requires GoodItems(items)
  {
    if items == [] then [] else LongBlock(items[0]) + (OwnBlock(items[0]) + Blocks(items[1..]))
  }

  /** The long name in force behind `items`. */
  ghost function PendingAfter(items: seq<Item>, pending: Option<Text>): (r: Option<Text>)
    decreases |items|
  {
    if items == [] then pending
    else PendingAfter(items[1..], if IsFile(items[0]) then None else Pending(items[0], pending))
  }

  /** The files before what is listed or thrown. */
  function Before(files: seq<File>, l: Listing): (r: Listing)
  {
    match l case Listed(more) => Listed(files + more) case Thrown(_) => l
  }

  lemma {:induction false} ReadsBlocks(
      bytes: seq<byte>, offset: nat, items: seq<Item>, pending: Option<Text>, utf8: seq<byte> -> Text)
    requires GoodItems(items) && DecodesAscii(utf8) && (pending.Some? ==> pending.value != [])
    requires HasAt(bytes, offset, Blocks(items))
    ensures ReadFrom(bytes, offset, pending, utf8) ==
      Before(Seen(items, pending), ReadFrom(bytes, offset + |Blocks(items)|, PendingAfter(items, pending), utf8))
    decreases |items|
  {
    hide ReadFrom, LongBlock, OwnBlock, HasAt, SeenName, GoodItem, Pending, DecodesAscii, Before;
    if items == [] {
      BeforeNothing(ReadFrom(bytes, offset, pending, utf8));
    } else {
      var it, rest := items[0], items[1..];
      var now, size := Pending(it, pending), |LongBlock(it)| + |OwnBlock(it)|;
      ReadsFirst(bytes, offset, it, Blocks(rest), pending, utf8);
      PendingNotEmpty(it, pending);
      ReadsBlocks(bytes, offset + size, rest, if IsFile(it) then None else now, utf8);
      assert |Blocks(items)| == size + |Blocks(rest)|;
      FileSeen(it, now);
      if IsFile(it) {
        PrependBefore(File(SeenName(it, now), it.data), Seen(rest, None),
          ReadFrom(bytes, offset + size + |Blocks(rest)|, PendingAfter(rest, None), utf8));
      }
    }
  }

  lemma BeforeNothing(l: Listing)
    ensures Before([], l) == l
  {
    if l.Listed? { assert [] + l.files == l.files; }
  }

  lemma PrependBefore(f: File, files: seq<File>, l: Listing)
    requires f.name != []
    ensures Prepend(f, Before(files, l)) == Before([f] + files, l)
  {
    if l.Listed? { assert [f] + (files + l.files) == ([f] + files) + l.files; }
  }

  /** One item in front of other blocks. */
  lemma ReadsFirst(
      bytes: seq<byte>, offset: nat, it: Item, rest: seq<byte>, pending: Option<Text>, utf8: seq<byte> -> Text)
    requires GoodItem(it) && DecodesAscii(utf8) && HasAt(bytes, offset, LongBlock(it) + (OwnBlock(it) + rest))
    ensures var next, now := offset + |LongBlock(it)| + |OwnBlock(it)|, Pending(it, pending);
      && HasAt(bytes, next, rest)
      && ReadFrom(bytes, offset, pending, utf8) ==
         if IsFile(it) then Prepend(File(SeenName(it, now), it.data), ReadFrom(bytes, next, None, utf8))
         else ReadFrom(bytes, next, now, utf8)
  {
    hide ReadFrom, LongBlock, OwnBlock, HasAt, SeenName, GoodItem, Pending, DecodesAscii, Prepend;
    var at := offset + |LongBlock(it)|;
    HasParts(bytes, offset, LongBlock(it), OwnBlock(it) + rest);
    ReadsLongBlock(bytes, offset, it, pending, utf8);
    HasParts(bytes, at, OwnBlock(it), rest);
    ReadsItem(bytes, at, it, Pending(it, pending), utf8);
  }

  /** A foreign character stands at `k`, behind digits only. */
  predicate DamagedAt(field: seq<byte>, k: nat)
  {
    k < |field| && field[k] != 0 && field[k] != 32 && !(48 <= field[k] <= 55) &&
      forall j :: 0 <= j < k ==> 48 <= field[j] <= 55
  }

  /** An octal field is damaged: a foreign character stands before its first NUL or space. */
  ghost predicate Damaged(field: seq<byte>)
  {
    exists k: nat :: DamagedAt(field, k)
  }

  lemma DamagedTail(field: seq<byte>, k: nat)
    requires field != [] && 48 <= field[0] <= 55
    ensures DamagedAt(field, k + 1) <==> DamagedAt(field[1..], k)
    ensures !DamagedAt(field, 0)
  {
    var rest := field[1..];
    if DamagedAt(rest, k) {
      forall j | 0 <= j < k + 1 ensures 48 <= field[j] <= 55 { if j > 0 { assert field[j] == rest[j - 1]; } }
    }
    if DamagedAt(field, k + 1) {
      forall j | 0 <= j < k ensures 48 <= rest[j] <= 55 { assert rest[j] == field[j + 1]; }
    }
  }

  lemma DamagedCons(field: seq<byte>)
    requires field != [] && 48 <= field[0] <= 55
    ensures Damaged(field) <==> Damaged(field[1..])
  {
    hide DamagedAt;
    if Damaged(field) {
      var k: nat :| DamagedAt(field, k);
      DamagedTail(field, if k > 0 then k - 1 else 0);
    }
    if Damaged(field[1..]) {
      var k: nat :| DamagedAt(field[1..], k);
      DamagedTail(field, k);
    }
  }

  lemma DamagedFirst(field: seq<byte>)
    requires field == [] || !(48 <= field[0] <= 55)
    ensures Damaged(field) <==> field != [] && field[0] != 0 && field[0] != 32
  {
    if field != [] && field[0] != 0 && field[0] != 32 { assert DamagedAt(field, 0); }
  }

  lemma {:induction false} DamagedIff(field: seq<byte>, v: nat)
    ensures OctalRest(field, v).None? <==> Damaged(field)
    decreases |field|
  {
    hide Damaged;
    if field != [] && 48 <= field[0] <= 55 {
      DamagedIff(field[1..], v * 8 + (field[0] as int - 48));
      DamagedCons(field);
    } else {
      DamagedFirst(field);
    }
  }

  /** '0' and NUL are files, '5' directories, 'L' GNU long names, 'x' and 'g' pax headers. */
  predicate KnownType(flag: byte)
  {
    flag in [0, '0' as int, '5' as int, 'L' as int, 'x' as int, 'g' as int]
  }

  /**
   * Behind any written items the reader stops at less than a block or at a zero block, whatever comes
   * after it, and throws at a damaged size field, at data that is not all there, and at other types.
   */
  lemma ReadsWhatFollows(items: seq<Item>, rest: seq<byte>, utf8: seq<byte> -> Text)
    requires GoodItems(items) && DecodesAscii(utf8)
    ensures var l := ReadFrom(Blocks(items) + rest, 0, None, utf8);
      if |rest| < 512 || AllZero(rest[..512]) then l == Listed(Seen(items, None))
      else if Damaged(rest[124..136]) then l == Thrown(BadSize)
      else
        var size := OctalRest(rest[124..136], 0);
        && size.Some?
        && (512 + size.value > |rest| ==> l == Thrown(Truncated))
        && (512 + size.value <= |rest| && !KnownType(rest[156]) ==> l == Thrown(Unsupported))
  {
    hide HasAt, ReadFrom, OctalRest, Damaged, AllZero, GoodItems, Seen, Blocks, PendingAfter, DecodesAscii, KnownType;
    var b := Blocks(items) + rest;
    HasInMiddle([], Blocks(items), rest);
    assert [] + Blocks(items) + rest == b;
    ReadsBlocks(b, 0, items, None, utf8);
    if |rest| >= 512 { DamagedIff(rest[124..136], 0); }
    Follows(Blocks(items), rest, PendingAfter(items, None), utf8);
    assert Seen(items, None) + [] == Seen(items, None);
  }

  lemma Follows(front: seq<byte>, rest: seq<byte>, pending: Option<Text>, utf8: seq<byte> -> Text)
    ensures var l := ReadFrom(front + rest, |front|, pending, utf8);
      if |rest| < 512 || AllZero(rest[..512]) then l == Listed([])
      else match OctalRest(rest[124..136], 0)
        case None => l == Thrown(BadSize)
        case Some(size) =>
          && (512 + size > |rest| ==> l == Thrown(Truncated))
          && (512 + size <= |rest| && !KnownType(rest[156]) ==> l == Thrown(Unsupported))
  {
    hide OctalRest, AllZero, FileName, UpToNul;
    var b := front + rest;
    if |rest| >= 512 {
      var header := b[|front|..|front| + 512];
      assert header == rest[..512] && header[124..136] == rest[124..136] && header[156] == rest[156];
    }
  }

  /** The prefix field counts only under the magic "ustar"; without it the file has its own or its long name. */
  lemma NoPrefixWithoutMagic(header: seq<byte>, longName: Option<Text>)
    requires |header| == 512 && header[257..262] != [117, 115, 116, 97, 114]
    ensures FileName(header, longName) == if longName.Some? then longName.value else CutAtNul(header[..100])
  {
    hide CutAtNul;
  }

  /** A NUL with a line end behind it does not end a name: the dot of the pattern does not match line ends. */
  lemma LineEndKeepsNul()
    ensures CutAtNul([97, 0, 10, 0]) == [97, 0, 10] && CutAtNul([97, 0, 13]) == [97, 0, 13]
  {
    var s, t: seq<byte> := [97, 0, 10, 0], [97, 0, 13];
    assert s[2] == 10 && t[2] == 13;
    assert !NulTailAt(s, 0) && !NulTailAt(s, 1) && !NulTailAt(s, 2) && NulTailAt(s, 3);
    assert !NulTailAt(t, 0) && !NulTailAt(t, 1) && !NulTailAt(t, 2);
    assert FirstNulTail(s, 2) == FirstNulTail(s, 3) == 3;
    assert FirstNulTail(t, 2) == FirstNulTail(t, 3) == 3;
  }

  /** A written archive is its blocks and two zero blocks. */
  lemma {:induction false} WholeArchive(items: seq<Item>)
    requires GoodItems(items)
    ensures WriteTar(items) == Blocks(items) + Zeros(1024)
  {
    hide LongBlock, OwnBlock, GoodItem;
    if items == [] {
      assert [] + Zeros(1024) == Zeros(1024);
    } else {
      WholeArchive(items[1..]);
      var a, b, c, z := LongBlock(items[0]), OwnBlock(items[0]), Blocks(items[1..]), Zeros(1024);
      assert a + (b + (c + z)) == (a + (b + c)) + z;
    }
  }
}
