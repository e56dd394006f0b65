/**
 * The stored (uncompressed) zip32 writer of docs/lib/agentBundle.ts, and the
 * reader that sections 4.3.7, 4.3.12 and 4.3.16 of PKWARE APPNOTE prescribe.
 */
module Zip {
  import opened Bytes
  import opened Bits
  import opened Crc

  datatype Entry = Entry(name: seq<byte>, data: seq<byte>)

  datatype ZipError = NoEntries | TooManyEntries | BadName | TooLarge
  datatype ZipResult = Built(parts: seq<seq<byte>>, totalSize: nat) | Failed(error: ZipError)

  const LOCAL_SIGNATURE: nat := 0x04034b50
  const CENTRAL_SIGNATURE: nat := 0x02014b50
  const END_SIGNATURE: nat := 0x06054b50
  const MAX_U32: nat := 0xffffffff

  // ------------------------------------------------------ little-endian fields

  function Le16(v: nat): (r: seq<byte>)
    ensures |r| == 2
  {
    [v % 0x100, v / 0x100 % 0x100]
  }

  function Le32(v: nat): (r: seq<byte>)
    ensures |r| == 4
  {
    [v % 0x100, v / 0x100 % 0x100, v / 0x1_0000 % 0x100, v / 0x100_0000 % 0x100]
  }

  function U16At(s: seq<byte>, i: nat): (v: nat)
    requires i + 2 <= |s|
  {
    (s[i] as int) + 0x100 * (s[i + 1] as int)
  }

  function U32At(s: seq<byte>, i: nat): (v: nat)
    requires i + 4 <= |s|
  {
    (s[i] as int) + 0x100 * (s[i + 1] as int) + 0x1_0000 * (s[i + 2] as int) + 0x100_0000 * (s[i + 3] as int)
  }

  /** The low part of a number by its two digits to the bases `a` and `b`. */
  lemma LowDigits(v: int, a: nat, b: nat)
    requires a > 0 && b > 0
    ensures a * b > 0 && v % (a * b) == v % a + a * (v / a % b)
  {
    var q, low := v / a, v % a;
    var top, high := q / b, q % b;
    TwoDigits(a, b, top, high);
    NextMultiple(a, high, b);
    QuotientIs(v, a * b, top, low + a * high);
  }

  lemma TwoDigits(a: nat, b: nat, top: int, high: nat)
    ensures a * (b * top + high) == a * b * top + a * high && a * b >= 0 && a * high >= 0
  {}

  /** A 16-bit field keeps the value modulo 2^16. */
  lemma Le16Value(v: nat)
    ensures U16At(Le16(v), 0) == v % 0x1_0000
  {
    LowDigits(v, 0x100, 0x100);
  }

  /** A 32-bit field keeps the value modulo 2^32. */
  lemma Le32Value(v: nat)
    ensures U32At(Le32(v), 0) == v % 0x1_0000_0000
  {
    LowDigits(v, 0x100, 0x100);
    LowDigits(v, 0x1_0000, 0x100);
    LowDigits(v, 0x100_0000, 0x100);
  }

  lemma HasLe16(s: seq<byte>, i: nat, v: nat)
    requires HasAt(s, i, Le16(v))
    ensures U16At(s, i) == v % 0x1_0000
  {
    var f := s[i..i + 2];
    assert s[i] == f[0] && s[i + 1] == f[1];
    Le16Value(v);
  }

  lemma HasLe32(s: seq<byte>, i: nat, v: nat)
    requires HasAt(s, i, Le32(v))
    ensures U32At(s, i) == v % 0x1_0000_0000
  {
    var f := s[i..i + 4];
    assert s[i] == f[0] && s[i + 1] == f[1] && s[i + 2] == f[2] && s[i + 3] == f[3];
    Le32Value(v);
  }

  // ------------------------------------------------------------- the three records

  /** A local file header (section 4.3.7). */
  predicate IsLocal(h: seq<byte>, e: Entry, time: nat, date: nat)
  {
    && |h| == 30 + |e.name|
    && HasAt(h, 0, Le32(LOCAL_SIGNATURE))
    && HasAt(h, 4, Le16(20))
    && HasAt(h, 6, Le16(0))
    && HasAt(h, 8, Le16(0))
    && HasAt(h, 10, Le16(time))
    && HasAt(h, 12, Le16(date))
    && HasAt(h, 14, LittleEndian(Crc32(e.data)))
    && HasAt(h, 18, Le32(|e.data|))
    && HasAt(h, 22, Le32(|e.data|))
    && HasAt(h, 26, Le16(|e.name|))
    && HasAt(h, 28, Le16(0))
    && HasAt(h, 30, e.name)
  }

  /** A central directory header (section 4.3.12). */
  predicate IsCentral(h: seq<byte>, e: Entry, offset: nat, time: nat, date: nat)
  {
    && |h| == 46 + |e.name|
    && HasAt(h, 0, Le32(CENTRAL_SIGNATURE))
    && HasAt(h, 4, Le16(20))
    && HasAt(h, 6, Le16(20))
    && HasAt(h, 8, Le16(0))
    && HasAt(h, 10, Le16(0))
    && HasAt(h, 12, Le16(time))
    && HasAt(h, 14, Le16(date))
    && HasAt(h, 16, LittleEndian(Crc32(e.data)))
    && HasAt(h, 20, Le32(|e.data|))
    && HasAt(h, 24, Le32(|e.data|))
    && HasAt(h, 28, Le16(|e.name|))
    && HasAt(h, 30, Le16(0))
    && HasAt(h, 32, Le16(0))
    && HasAt(h, 34, Le16(0))
    && HasAt(h, 36, Le16(0))
    && HasAt(h, 38, Le32(0))
    && HasAt(h, 42, Le32(offset))
    && HasAt(h, 46, e.name)
  }

  /** The end of central directory record (section 4.3.16), without a comment. */
  predicate IsEnd(h: seq<byte>, count: nat, centralSize: nat, centralOffset: nat)
  {
    && |h| == 22
    && HasAt(h, 0, Le32(END_SIGNATURE))
    && HasAt(h, 4, Le16(0))
    && HasAt(h, 6, Le16(0))
    && HasAt(h, 8, Le16(count))
    && HasAt(h, 10, Le16(count))
    && HasAt(h, 12, Le32(centralSize))
    && HasAt(h, 16, Le32(centralOffset))
    && HasAt(h, 20, Le16(0))
  }

  /** DataView.setUint16/32 and Uint8Array.set: `field` overwrites the buffer at `at`. */
  function Put(buffer: seq<byte>, at: nat, field: seq<byte>): (r: seq<byte>)
    requires at + |field| <= |buffer|
    ensures |r| == |buffer|
    ensures HasAt(r, at, field)
    ensures forall i: nat, f :: (i + |f| <= at || at + |field| <= i) && HasAt(buffer, i, f) ==> HasAt(r, i, f)
  {
    var r := buffer[..at] + field + buffer[at + |field|..];
    assert forall i: nat, f :: (i + |f| <= at || at + |field| <= i) && HasAt(buffer, i, f) ==> HasAt(r, i, f) by {
      forall i: nat, f | (i + |f| <= at || at + |field| <= i) && HasAt(buffer, i, f)
        ensures HasAt(r, i, f)
      {
        assert r[i..i + |f|] == buffer[i..i + |f|];
      }
    }
    r
  }

  method LocalHeader(e: Entry, time: nat, date: nat, crc: Word) returns (h: seq<byte>)
    requires crc == Crc32(e.data)
    ensures IsLocal(h, e, time, date)
  {
    hide HasAt, Le16, Le32, LittleEndian, Put, Crc32;
    h := Zeros(30 + |e.name|);
    h := Put(h, 0, Le32(LOCAL_SIGNATURE));
    h := Put(h, 4, Le16(20));
    h := Put(h, 6, Le16(0));
    h := Put(h, 8, Le16(0));
    h := Put(h, 10, Le16(time));
    h := Put(h, 12, Le16(date));
    h := Put(h, 14, LittleEndian(crc));
    h := Put(h, 18, Le32(|e.data|));
    h := Put(h, 22, Le32(|e.data|));
    h := Put(h, 26, Le16(|e.name|));
    h := Put(h, 28, Le16(0));
    h := Put(h, 30, e.name);
  }

  method CentralHeader(e: Entry, offset: nat, time: nat, date: nat, crc: Word) returns (h: seq<byte>)
    requires crc == Crc32(e.data)
    ensures IsCentral(h, e, offset, time, date)
  {
    hide HasAt, Le16, Le32, LittleEndian, Put, Crc32;
    h := Zeros(46 + |e.name|);
    h := Put(h, 0, Le32(CENTRAL_SIGNATURE));
    h := Put(h, 4, Le16(20));
    h := Put(h, 6, Le16(20));
    h := Put(h, 8, Le16(0));
    h := Put(h, 10, Le16(0));
    h := Put(h, 12, Le16(time));
    h := Put(h, 14, Le16(date));
    h := Put(h, 16, LittleEndian(crc));
    h := Put(h, 20, Le32(|e.data|));
    h := Put(h, 24, Le32(|e.data|));
    h := Put(h, 28, Le16(|e.name|));
    h := Put(h, 30, Le16(0));
    h := Put(h, 32, Le16(0));
    h := Put(h, 34, Le16(0));
    h := Put(h, 36, Le16(0));
    h := Put(h, 38, Le32(0));
    h := Put(h, 42, Le32(offset));
    h := Put(h, 46, e.name);
  }

  method EndRecord(count: nat, centralSize: nat, centralOffset: nat) returns (h: seq<byte>)
    ensures IsEnd(h, count, centralSize, centralOffset)
  {
    h := Zeros(22);
    assert HasAt(h, 4, Le16(0)) && HasAt(h, 6, Le16(0)) && HasAt(h, 20, Le16(0));
    h := Put(h, 0, Le32(END_SIGNATURE));
    h := Put(h, 8, Le16(count));
    h := Put(h, 10, Le16(count));
    h := Put(h, 12, Le32(centralSize));
    h := Put(h, 16, Le32(centralOffset));
  }

  // ------------------------------------------------------------------- the writer

  /** Where the local header of entry `i` starts. */
  function LocalOffset(entries: seq<Entry>, i: nat): (r: nat)
    requires i <= |entries|
  {
    if i == 0 then 0 else LocalOffset(entries, i - 1) + 30 + |entries[i - 1].name| + |entries[i - 1].data|
  }

  /** Length of the first `i` central directory headers. */
  function CentralLength(entries: seq<Entry>, i: nat): (r: nat)
    requires i <= |entries|
  {
    if i == 0 then 0 else CentralLength(entries, i - 1) + 46 + |entries[i - 1].name|
  }

  predicate GoodName(name: seq<byte>)
  {
    0 < |name| <= 0xffff && IsAscii(name)
  }

  /** The zip32 guard of entry `i`: its data ends, from its header's offset, within 32 bits. */
  predicate Fits(entries: seq<Entry>, i: nat)
    requires i < |entries|
  {
    LocalOffset(entries, i) + |entries[i].data| <= MAX_U32
  }

  /** Local headers and data of the first `n` entries, alternating. */
  ghost predicate IsBody(body: seq<seq<byte>>, entries: seq<Entry>, n: nat, time: nat, date: nat)
  {
    && n <= |entries| && |body| == 2 * n
    && forall i :: 0 <= i < n ==> IsLocal(body[2 * i], entries[i], time, date) && body[2 * i + 1] == entries[i].data
  }

  /** Central headers of the first `n` entries, each naming the offset of its entry's local header. */
  ghost predicate IsDirectory(dir: seq<seq<byte>>, entries: seq<Entry>, n: nat, time: nat, date: nat)
  {
    && n <= |entries| && |dir| == n
    && forall i :: 0 <= i < n ==> IsCentral(dir[i], entries[i], LocalOffset(entries, i), time, date)
  }

  /** What a stored zip32 archive of `entries` consists of. */
  ghost predicate IsArchive(parts: seq<seq<byte>>, entries: seq<Entry>, time: nat, date: nat)
  {
    var n := |entries|;
    && |parts| == 3 * n + 1
    && IsBody(parts[..2 * n], entries, n, time, date)
    && IsDirectory(parts[2 * n..3 * n], entries, n, time, date)
    && IsEnd(parts[3 * n], n, CentralLength(entries, n), LocalOffset(entries, n))
  }

  /** The first check of the writer that refuses `entries`, if any. */
  ghost function Refusal(entries: seq<Entry>): (e: ZipResult)
  {
    if entries == [] then Failed(NoEntries)
    else if |entries| > 0xffff then Failed(TooManyEntries)
    else if exists i :: 0 <= i < |entries| && !GoodName(entries[i].name) then Failed(BadName)
    else if exists i :: 0 <= i < |entries| && !Fits(entries, i) then Failed(TooLarge)
    else Built([], 0)
  }

  /** An entry whose name is empty, too long or not ASCII. */
  predicate Misnamed(e: Entry)
  {
    |e.name| == 0 || |e.name| > 65_535 || exists k :: 0 <= k < |e.name| && e.name[k] > 127
  }

  /** Entry lists are refused for their number, then for a name, then for their size, and for nothing else. */
  lemma RefusedIff(entries: seq<Entry>)
    ensures var r := Refusal(entries);
      var named := forall i :: 0 <= i < |entries| ==> !Misnamed(entries[i]);
      var small := forall i :: 0 <= i < |entries| ==> LocalOffset(entries, i) + |entries[i].data| < 0x1_0000_0000;
      && (r == Failed(NoEntries) <==> |entries| == 0)
      && (r == Failed(TooManyEntries) <==> |entries| > 65_535)
      && (r == Failed(BadName) <==> 1 <= |entries| <= 65_535 && !named)
      && (r == Failed(TooLarge) <==> 1 <= |entries| <= 65_535 && named && !small)
      && (r.Built? <==> 1 <= |entries| <= 65_535 && named && small)
  {
    hide LocalOffset;
    forall i | 0 <= i < |entries|
      ensures GoodName(entries[i].name) <==> !Misnamed(entries[i])
    {
      NamedIff(entries[i]);
    }
    if !(forall i :: 0 <= i < |entries| ==> LocalOffset(entries, i) + |entries[i].data| < 0x1_0000_0000) {
      var i :| 0 <= i < |entries| && LocalOffset(entries, i) + |entries[i].data| >= 0x1_0000_0000;
      assert !Fits(entries, i);
    }
  }

  lemma NamedIff(e: Entry)
    ensures GoodName(e.name) <==> !Misnamed(e)
  {}

  lemma NothingWritten(entries: seq<Entry>, time: nat, date: nat)
    ensures IsBody([], entries, 0, time, date) && IsDirectory([], entries, 0, time, date)
  {}

  lemma BodyExtends(body: seq<seq<byte>>, local: seq<byte>, entries: seq<Entry>, n: nat, time: nat, date: nat)
    requires n < |entries| && IsBody(body, entries, n, time, date)
    requires IsLocal(local, entries[n], time, date)
    ensures IsBody(body + [local, entries[n].data], entries, n + 1, time, date)
  {
    hide IsLocal;
    var b := body + [local, entries[n].data];
    forall k | 0 <= k < n + 1
      ensures IsLocal(b[2 * k], entries[k], time, date) && b[2 * k + 1] == entries[k].data
    {
      if k < n { assert b[2 * k] == body[2 * k] && b[2 * k + 1] == body[2 * k + 1]; }
    }
  }

  lemma DirectoryExtends(dir: seq<seq<byte>>, header: seq<byte>, entries: seq<Entry>, n: nat, time: nat, date: nat)
    requires n < |entries| && IsDirectory(dir, entries, n, time, date)
    requires IsCentral(header, entries[n], LocalOffset(entries, n), time, date)
    ensures IsDirectory(dir + [header], entries, n + 1, time, date)
  {
    hide IsCentral, LocalOffset;
  }

  lemma ArchiveOf(body: seq<seq<byte>>, dir: seq<seq<byte>>, end: seq<byte>, entries: seq<Entry>, time: nat, date: nat)
    requires IsBody(body, entries, |entries|, time, date) && IsDirectory(dir, entries, |entries|, time, date)
    requires IsEnd(end, |entries|, CentralLength(entries, |entries|), LocalOffset(entries, |entries|))
    ensures IsArchive(body + dir + [end], entries, time, date)
  {
    hide IsLocal, IsCentral, IsEnd;
    var all := body + dir + [end];
    var n := |entries|;
    assert all[..2 * n] == body && all[2 * n..3 * n] == dir;
  }

  /** buildStoredZipParts. */
  method BuildStoredZip(entries: seq<Entry>, time: nat, date: nat, table: array<Word>) returns (r: ZipResult)
    requires table.Length == 256
    requires table[..] == Entries(table.Length)
    ensures r.Failed? ==> r == Refusal(entries)
    ensures r.Built? ==> Refusal(entries).Built?
    ensures r.Built? ==> IsArchive(r.parts, entries, time, date)
    ensures r.Built? ==> r.totalSize == LocalOffset(entries, |entries|) + CentralLength(entries, |entries|) + 22
  {
    hide IsLocal, IsCentral, IsEnd, IsBody, IsDirectory, IsArchive, Crc32, Entries, GoodName;
    NothingWritten(entries, time, date);
    if |entries| == 0 { return Failed(NoEntries); }
    if |entries| > 0xffff { return Failed(TooManyEntries); }
    var k := 0;
    while k < |entries|
      invariant 0 <= k <= |entries|
      invariant forall i :: 0 <= i < k ==> GoodName(entries[i].name)
    {
      if !GoodName(entries[k].name) { return Failed(BadName); }
      k := k + 1;
    }
    var parts: seq<seq<byte>>, central: seq<seq<byte>> := [], [];
    var offset, centralSize := 0, 0;
    var index := 0;
    while index < |entries|
      invariant 0 <= index <= |entries|
      invariant offset == LocalOffset(entries, index) && centralSize == CentralLength(entries, index)
      invariant forall i :: 0 <= i < index ==> Fits(entries, i)
      invariant IsBody(parts, entries, index, time, date)
      invariant IsDirectory(central, entries, index, time, date)
    {
      var e := entries[index];
      var crc := TableCrc32(table, e.data);
      if offset + |e.data| > MAX_U32 {
        assert !Fits(entries, index);
        return Failed(TooLarge);
      }
      var local := LocalHeader(e, time, date, crc);
      BodyExtends(parts, local, entries, index, time, date);
      parts := parts + [local, e.data];
      var header := CentralHeader(e, offset, time, date, crc);
      DirectoryExtends(central, header, entries, index, time, date);
      central := central + [header];
      centralSize := centralSize + 46 + |e.name|;
      offset := offset + 30 + |e.name| + |e.data|;
      index := index + 1;
    }
    var eocd := EndRecord(|entries|, centralSize, offset);
    ArchiveOf(parts, central, eocd, entries, time, date);
    r := Built(parts + central + [eocd], offset + centralSize + 22);
  }
}
