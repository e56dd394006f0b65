/** A stored-zip reader that starts from the end record, and the round trip with the writer. */
module ZipReader {
  import opened Options
  import opened Bytes
  import opened Bits
  import opened Crc
  import opened Zip

  /** The CRC field at `i` is the CRC of `data`. */
  predicate CrcAt(b: seq<byte>, i: nat, data: seq<byte>)
  {
    HasAt(b, i, LittleEndian(Crc32(data)))
  }

  /** The data behind a local header at `at`, if it names `name`, stores `size` octets and matches its CRC. */
  function ReadLocal(b: seq<byte>, at: nat, name: seq<byte>, size: nat): (r: Option<seq<byte>>)
  {
    if at + 30 > |b| || U32At(b, at) != LOCAL_SIGNATURE || U16At(b, at + 8) != 0 then None
    else if U32At(b, at + 18) != size || U32At(b, at + 22) != size then None
    else
      var nameLength, extraLength := U16At(b, at + 26), U16At(b, at + 28);
      var start := at + 30 + nameLength + extraLength;
      if start + size > |b| || b[at + 30..at + 30 + nameLength] != name then None
      else
        var data := b[start..start + size];
        if CrcAt(b, at + 14, data) then Some(data) else None
  }

  /** One entry through its central header at `pos`. */
  function ReadEntry(b: seq<byte>, pos: nat): (r: Option<Entry>)
  {
    if pos + 46 > |b| || U32At(b, pos) != CENTRAL_SIGNATURE || U16At(b, pos + 10) != 0 then None
    else
      var size, nameLength := U32At(b, pos + 20), U16At(b, pos + 28);
      if U32At(b, pos + 24) != size || pos + 46 + nameLength > |b| then None
      else
        var name := b[pos + 46..pos + 46 + nameLength];
        match ReadLocal(b, U32At(b, pos + 42), name, size)
        case None => None
        case Some(data) => if CrcAt(b, pos + 16, data) then Some(Entry(name, data)) else None
  }

  /** Length of the central header at `pos`: fixed part, name, extra field and comment. */
  function HeaderLength(b: seq<byte>, pos: nat): (r: nat)
    requires pos + 46 <= |b|
  {
    46 + U16At(b, pos + 28) + U16At(b, pos + 30) + U16At(b, pos + 32)
  }

  /** `count` entries through the central headers from `pos` up to exactly `end`. */
  function ReadDirectory(b: seq<byte>, pos: nat, count: nat, end: nat): (r: Option<seq<Entry>>)
    decreases count
  {
    if count == 0 then (if pos == end then Some([]) else None)
    else match ReadEntry(b, pos)
      case None => None
      case Some(e) =>
        if pos + 46 > |b| then None
        else match ReadDirectory(b, pos + HeaderLength(b, pos), count - 1, end)
          case None => None
          case Some(rest) => Some([e] + rest)
  }

  /** The archive's entries, found from its end record. */
  function ReadZip(b: seq<byte>): (r: Option<seq<Entry>>)
  {
    if |b| < 22 then None
    else
      var end := |b| - 22;
      if U32At(b, end) != END_SIGNATURE || U16At(b, end + 20) != 0 then None
      else if U32At(b, end + 16) + U32At(b, end + 12) != end then None
      else ReadDirectory(b, U32At(b, end + 16), U16At(b, end + 10), end)
  }

  // ---------------------------------------------------------------- field reading

  lemma FieldIn(b: seq<byte>, at: nat, h: seq<byte>, i: nat, f: seq<byte>)
    requires HasAt(b, at, h) && HasAt(h, i, f)
    ensures HasAt(b, at + i, f)
  {
    HasWithin(b, at, h, i, f);
  }

  lemma Field16(b: seq<byte>, at: nat, h: seq<byte>, i: nat, v: nat)
    requires HasAt(b, at, h) && HasAt(h, i, Le16(v)) && v < 0x1_0000
    ensures at + i + 2 <= |b| && U16At(b, at + i) == v
  {
    HasWithin(b, at, h, i, Le16(v));
    HasLe16(b, at + i, v);
  }

  lemma Field32(b: seq<byte>, at: nat, h: seq<byte>, i: nat, v: nat)
    requires HasAt(b, at, h) && HasAt(h, i, Le32(v)) && v < 0x1_0000_0000
    ensures at + i + 4 <= |b| && U32At(b, at + i) == v
  {
    hide Le32, U32At;
    HasWithin(b, at, h, i, Le32(v));
    HasLe32(b, at + i, v);
  }

  lemma SliceOf(b: seq<byte>, at: nat, f: seq<byte>)
    requires HasAt(b, at, f)
    ensures at + |f| <= |b| && b[at..at + |f|] == f
  {}

  /** A local header the writer produced reads back to its entry's data. */
  lemma ReadsLocal(b: seq<byte>, at: nat, h: seq<byte>, e: Entry, time: nat, date: nat)
    requires HasAt(b, at, h) && IsLocal(h, e, time, date) && HasAt(b, at + |h|, e.data)
    requires |e.name| <= 0xffff && |e.data| <= MAX_U32
    ensures ReadLocal(b, at, e.name, |e.data|) == Some(e.data)
  {
    hide HasAt, Le16, Le32, U16At, U32At, LittleEndian, Crc32;
    Field32(b, at, h, 0, LOCAL_SIGNATURE);
    Field16(b, at, h, 8, 0);
    Field32(b, at, h, 18, |e.data|);
    Field32(b, at, h, 22, |e.data|);
    Field16(b, at, h, 26, |e.name|);
    Field16(b, at, h, 28, 0);
    FieldIn(b, at, h, 30, e.name);
    SliceOf(b, at + 30, e.name);
    SliceOf(b, at + |h|, e.data);
    FieldIn(b, at, h, 14, LittleEndian(Crc32(e.data)));
  }

  /** A central header the writer produced leads to its entry. */
  lemma ReadsEntry(b: seq<byte>, pos: nat, c: seq<byte>, at: nat, h: seq<byte>, e: Entry, time: nat, date: nat)
    requires HasAt(b, pos, c) && IsCentral(c, e, at, time, date)
    requires HasAt(b, at, h) && IsLocal(h, e, time, date) && HasAt(b, at + |h|, e.data)
    requires |e.name| <= 0xffff && |e.data| <= MAX_U32 && at <= MAX_U32
    ensures ReadEntry(b, pos) == Some(e)
    ensures pos + 46 <= |b| && HeaderLength(b, pos) == 46 + |e.name|
  {
    hide IsCentral;
    ReadsLocal(b, at, h, e, time, date);
    ReadsCentral(b, pos, c, e, at, time, date);
  }

  lemma ReadsCentral(b: seq<byte>, pos: nat, c: seq<byte>, e: Entry, at: nat, time: nat, date: nat)
    requires HasAt(b, pos, c) && IsCentral(c, e, at, time, date)
    requires ReadLocal(b, at, e.name, |e.data|) == Some(e.data)
    requires |e.name| <= 0xffff && |e.data| <= MAX_U32 && at <= MAX_U32
    ensures ReadEntry(b, pos) == Some(e)
    ensures pos + 46 <= |b| && HeaderLength(b, pos) == 46 + |e.name|
  {
    hide HasAt, Le16, Le32, U16At, U32At, LittleEndian, Crc32, IsLocal, ReadLocal;
    Field32(b, pos, c, 0, CENTRAL_SIGNATURE);
    Field16(b, pos, c, 10, 0);
    Field32(b, pos, c, 20, |e.data|);
    Field32(b, pos, c, 24, |e.data|);
    Field16(b, pos, c, 28, |e.name|);
    Field16(b, pos, c, 30, 0);
    Field16(b, pos, c, 32, 0);
    Field32(b, pos, c, 42, at);
    FieldIn(b, pos, c, 46, e.name);
    SliceOf(b, pos + 46, e.name);
    FieldIn(b, pos, c, 16, LittleEndian(Crc32(e.data)));
  }

  // ----------------------------------------------------------- where the parts are

  lemma LocalLength(h: seq<byte>, e: Entry, time: nat, date: nat)
    requires IsLocal(h, e, time, date)
    ensures |h| == 30 + |e.name|
  {}

  lemma CentralHeaderLength(h: seq<byte>, e: Entry, at: nat, time: nat, date: nat)
    requires IsCentral(h, e, at, time, date)
    ensures |h| == 46 + |e.name|
  {}

  lemma EndLength(h: seq<byte>, n: nat, size: nat, at: nat)
    requires IsEnd(h, n, size, at)
    ensures |h| == 22
  {}

  lemma {:induction false} BodyLength(body: seq<seq<byte>>, entries: seq<Entry>, n: nat, i: nat, time: nat, date: nat)
    requires IsBody(body, entries, n, time, date) && i <= n
    ensures |Concat(body[..2 * i])| == LocalOffset(entries, i)
    decreases i
  {
    hide IsLocal;
    if i > 0 {
      var k := i - 1;
      BodyLength(body, entries, n, k, time, date);
      ConcatPrefix(body, 2 * k);
      ConcatPrefix(body, 2 * k + 1);
      LocalLength(body[2 * k], entries[k], time, date);
    }
  }

  lemma {:induction false} DirectoryLength(
      dir: seq<seq<byte>>, entries: seq<Entry>, n: nat, i: nat, time: nat, date: nat)
    requires IsDirectory(dir, entries, n, time, date) && i <= n
    ensures |Concat(dir[..i])| == CentralLength(entries, i)
    decreases i
  {
    hide IsCentral;
    if i > 0 {
      var k := i - 1;
      DirectoryLength(dir, entries, n, k, time, date);
      ConcatPrefix(dir, k);
      CentralHeaderLength(dir[k], entries[k], LocalOffset(entries, k), time, date);
    }
  }

  /** Header and data of entry `i` stand at the entry's offset. */
  lemma BodyPlacement(
      body: seq<seq<byte>>, rest: seq<seq<byte>>, entries: seq<Entry>, n: nat, i: nat, time: nat, date: nat)
    requires IsBody(body, entries, n, time, date) && i < n
    ensures HasAt(Concat(body + rest), LocalOffset(entries, i), body[2 * i])
    ensures HasAt(Concat(body + rest), LocalOffset(entries, i) + |body[2 * i]|, entries[i].data)
  {
    hide IsLocal, HasAt, LocalOffset;
    var parts, j := body + rest, 2 * i;
    BodyLength(body, entries, n, i, time, date);
    hide Concat;
    assert parts[..j] == body[..j] && parts[j] == body[j] && parts[j + 1] == body[j + 1];
    ConcatHas(parts, j);
    ConcatPrefix(parts, j);
    ConcatHas(parts, j + 1);
  }

  /** The central header of entry `i` stands behind the body and the headers before it. */
  lemma DirectoryPlacement(
      body: seq<seq<byte>>, dir: seq<seq<byte>>, rest: seq<seq<byte>>, entries: seq<Entry>, i: nat, time: nat,
      date: nat)
    requires IsBody(body, entries, |entries|, time, date) && IsDirectory(dir, entries, |entries|, time, date)
    requires i < |entries|
    ensures HasAt(Concat(body + (dir + rest)), LocalOffset(entries, |entries|) + CentralLength(entries, i), dir[i])
  {
    hide IsLocal, IsCentral, HasAt, LocalOffset, CentralLength;
    var n := |entries|;
    BodyLength(body, entries, n, n, time, date);
    DirectoryLength(dir, entries, n, i, time, date);
    hide Concat, IsBody;
    var parts := body + (dir + rest);
    assert body[..2 * n] == body;
    assert parts[..2 * n + i] == body + dir[..i] && parts[2 * n + i] == dir[i];
    ConcatAppend(body, dir[..i]);
    ConcatHas(parts, 2 * n + i);
  }

  /** The end record closes the archive. */
  lemma EndPlacement(
      body: seq<seq<byte>>, dir: seq<seq<byte>>, end: seq<byte>, entries: seq<Entry>, time: nat, date: nat)
    requires IsBody(body, entries, |entries|, time, date) && IsDirectory(dir, entries, |entries|, time, date)
    ensures var at := LocalOffset(entries, |entries|) + CentralLength(entries, |entries|);
            var b := Concat(body + (dir + [end]));
            |b| == at + |end| && HasAt(b, at, end)
  {
    hide IsLocal, IsCentral, HasAt, LocalOffset, CentralLength;
    var n := |entries|;
    BodyLength(body, entries, n, n, time, date);
    DirectoryLength(dir, entries, n, n, time, date);
    hide Concat, IsBody, IsDirectory;
    var parts := body + (dir + [end]);
    var last := |body| + |dir|;
    assert body[..2 * n] == body && dir[..n] == dir;
    assert parts[..last] == body + dir && parts[last] == end && parts[..last + 1] == parts;
    ConcatAppend(body, dir);
    ConcatHas(parts, last);
    ConcatPrefix(parts, last);
  }

  /** The central header of entry `i` leads the reader to the entry. */
  lemma ReadsAt(
      body: seq<seq<byte>>, dir: seq<seq<byte>>, end: seq<byte>, entries: seq<Entry>, i: nat, time: nat, date: nat)
    requires IsBody(body, entries, |entries|, time, date) && IsDirectory(dir, entries, |entries|, time, date)
    requires i < |entries| && |entries[i].name| <= 0xffff && Fits(entries, i)
    ensures var b := Concat(body + (dir + [end]));
            var pos := LocalOffset(entries, |entries|) + CentralLength(entries, i);
            pos + 46 <= |b| && ReadEntry(b, pos) == Some(entries[i]) && HeaderLength(b, pos) == 46 + |entries[i].name|
  {
    hide IsLocal, IsCentral, ReadEntry, HeaderLength, HasAt, Concat, LocalOffset, CentralLength;
    var n, b := |entries|, Concat(body + (dir + [end]));
    BodyPlacement(body, dir + [end], entries, n, i, time, date);
    DirectoryPlacement(body, dir, [end], entries, i, time, date);
    assert IsLocal(body[2 * i], entries[i], time, date);
    ReadsEntry(b, LocalOffset(entries, n) + CentralLength(entries, i), dir[i],
               LocalOffset(entries, i), body[2 * i], entries[i], time, date);
  }

  /** From entry `i` on, the directory reads back the remaining entries. */
  lemma {:induction false} ReadsDirectory(
      body: seq<seq<byte>>, dir: seq<seq<byte>>, end: seq<byte>, entries: seq<Entry>, i: nat, time: nat, date: nat)
    requires IsBody(body, entries, |entries|, time, date) && IsDirectory(dir, entries, |entries|, time, date)
    requires i <= |entries|
    requires forall k :: 0 <= k < |entries| ==> |entries[k].name| <= 0xffff && Fits(entries, k)
    ensures var at := LocalOffset(entries, |entries|);
            ReadDirectory(Concat(body + (dir + [end])), at + CentralLength(entries, i), |entries| - i,
              at + CentralLength(entries, |entries|))
              == Some(entries[i..])
    decreases |entries| - i
  {
    hide IsBody, IsDirectory, ReadEntry, HeaderLength, Concat, LocalOffset;
    if i < |entries| {
      assert Fits(entries, i);
      ReadsAt(body, dir, end, entries, i, time, date);
      ReadsDirectory(body, dir, end, entries, i + 1, time, date);
      assert entries[i..] == [entries[i]] + entries[i + 1..];
    }
  }

  // --------------------------------------------------------------- main results

  lemma PartsOf(parts: seq<seq<byte>>, n: nat)
    requires |parts| == 3 * n + 1
    ensures parts == parts[..2 * n] + (parts[2 * n..3 * n] + [parts[3 * n]])
  {}

  /**
   * Reading back what was written gives the entries, in order, if and only if the directory's
   * offset and size fit in 32 bits.
   */
  lemma RoundTrip(parts: seq<seq<byte>>, entries: seq<Entry>, time: nat, date: nat)
    requires IsArchive(parts, entries, time, date) && Refusal(entries).Built?
    ensures ReadZip(Concat(parts)) == Some(entries)
      <==> LocalOffset(entries, |entries|) <= MAX_U32 && CentralLength(entries, |entries|) <= MAX_U32
  {
    hide IsEnd, IsBody, IsDirectory, HasAt, U16At, U32At, ReadDirectory, GoodName, Concat, LocalOffset, CentralLength,
      Fits;
    var n, b := |entries|, Concat(parts);
    var body, dir, end := parts[..2 * n], parts[2 * n..3 * n], parts[3 * n];
    PartsOf(parts, n);
    EndLength(end, n, CentralLength(entries, n), LocalOffset(entries, n));
    EndPlacement(body, dir, end, entries, time, date);
    NamesShort(entries);
    ReadsDirectory(body, dir, end, entries, 0, time, date);
    NoHeaders(entries);
    assert entries[0..] == entries;
    ReadsEnd(b, |b| - 22, end, n, CentralLength(entries, n), LocalOffset(entries, n));
    BothFit(LocalOffset(entries, n), CentralLength(entries, n));
  }

  /** Two values wrapped at 2^32 add up to the sum of the values just when neither was changed. */
  lemma BothFit(a: nat, b: nat)
    ensures a % 0x1_0000_0000 + b % 0x1_0000_0000 == a + b <==> a <= MAX_U32 && b <= MAX_U32
    ensures a <= MAX_U32 ==> a % 0x1_0000_0000 == a
  {}

  lemma NoHeaders(entries: seq<Entry>)
    ensures CentralLength(entries, 0) == 0
  {}

  /** The writer's total is the archive's true length, whatever it is. */
  lemma TotalSizeExact(parts: seq<seq<byte>>, entries: seq<Entry>, time: nat, date: nat)
    requires IsArchive(parts, entries, time, date)
    ensures |Concat(parts)| == LocalOffset(entries, |entries|) + CentralLength(entries, |entries|) + 22
  {
    hide IsEnd, IsBody, IsDirectory, HasAt, Concat;
    var n := |entries|;
    PartsOf(parts, n);
    EndLength(parts[3 * n], n, CentralLength(entries, n), LocalOffset(entries, n));
    EndPlacement(parts[..2 * n], parts[2 * n..3 * n], parts[3 * n], entries, time, date);
  }

  lemma NamesShort(entries: seq<Entry>)
    requires Refusal(entries).Built?
    ensures forall k :: 0 <= k < |entries| ==> |entries[k].name| <= 0xffff && Fits(entries, k)
  {}

  lemma ReadsEnd(b: seq<byte>, end: nat, h: seq<byte>, n: nat, size: nat, at: nat)
    requires HasAt(b, end, h) && IsEnd(h, n, size, at)
    requires n <= 0xffff
    ensures end + 22 <= |b|
    ensures U32At(b, end) == END_SIGNATURE && U16At(b, end + 10) == n && U16At(b, end + 20) == 0
    ensures U32At(b, end + 12) == size % 0x1_0000_0000 && U32At(b, end + 16) == at % 0x1_0000_0000
  {
    hide Le16, Le32, U16At, U32At;
    Field32(b, end, h, 0, END_SIGNATURE);
    Field16(b, end, h, 10, n);
    FieldIn(b, end, h, 12, Le32(size));
    HasLe32(b, end + 12, size);
    FieldIn(b, end, h, 16, Le32(at));
    HasLe32(b, end + 16, at);
    Field16(b, end, h, 20, 0);
  }

  /** Every stored local-header offset is exact, however large the archive gets. */
  lemma OffsetsExact(parts: seq<seq<byte>>, entries: seq<Entry>, i: nat, time: nat, date: nat)
    requires IsArchive(parts, entries, time, date) && Refusal(entries).Built? && i < |entries|
    ensures var c := parts[2 * |entries| + i];
            |c| >= 46 && U32At(c, 42) == LocalOffset(entries, i)
    ensures HasAt(Concat(parts), LocalOffset(entries, i), parts[2 * i])
  {
    hide IsLocal, IsCentral, IsEnd, U32At, GoodName, HasAt, Concat;
    var n := |entries|;
    PartsOf(parts, n);
    BodyPlacement(parts[..2 * n], parts[2 * n..3 * n] + [parts[3 * n]], entries, n, i, time, date);
    assert Fits(entries, i);
    OffsetField(parts[2 * n..3 * n][i], entries[i], LocalOffset(entries, i), time, date);
  }

  lemma OffsetField(c: seq<byte>, e: Entry, at: nat, time: nat, date: nat)
    requires IsCentral(c, e, at, time, date) && at <= MAX_U32
    ensures |c| >= 46 && U32At(c, 42) == at
  {
    hide LittleEndian, Le16, Le32, Crc32, HasAt, U32At;
    HasLe32(c, 42, at);
  }

  /** The end record's own fields wrap at 2^32: they are exact just when the values fit. */
  lemma EndRecordExact(parts: seq<seq<byte>>, entries: seq<Entry>, time: nat, date: nat)
    requires IsArchive(parts, entries, time, date)
    ensures var n := |entries|; var e := parts[3 * n];
      && |e| == 22
      && (U32At(e, 16) == LocalOffset(entries, n) <==> LocalOffset(entries, n) <= MAX_U32)
      && (U32At(e, 12) == CentralLength(entries, n) <==> CentralLength(entries, n) <= MAX_U32)
  {
    hide IsBody, IsDirectory, IsEnd, U32At;
    var n := |entries|;
    EndFields(parts[3 * n], n, CentralLength(entries, n), LocalOffset(entries, n));
  }

  lemma EndFields(h: seq<byte>, n: nat, size: nat, at: nat)
    requires IsEnd(h, n, size, at)
    ensures |h| == 22
    ensures U32At(h, 12) == size % 0x1_0000_0000 && U32At(h, 16) == at % 0x1_0000_0000
  {
    HasLe32(h, 16, at);
    HasLe32(h, 12, size);
  }

  /**
   * The writer's guard looks at where data starts, not at where the directory does: it admits
   * an archive whose end record wraps.
   */
  lemma GuardAdmitsWrap(data: seq<byte>)
    requires |data| == MAX_U32
    ensures var entries := [Entry([97], data)];
      Refusal(entries).Built? && LocalOffset(entries, 1) > MAX_U32
  {
    var entries := [Entry([97], data)];
    assert LocalOffset(entries, 0) == 0;
    assert LocalOffset(entries, 1) == 30 + 1 + |data|;
    assert forall i :: 0 <= i < |entries| ==> GoodName(entries[i].name) && Fits(entries, i);
  }

  // ---------------------------------------------------------------- the octets themselves

  /** Signature, version 2.0, no flags, method "stored", time, date and no extra field. */
  predicate LocalFixed(h: seq<byte>, time: nat, date: nat)
  {
    && HasAt(h, 0, [0x50, 0x4b, 3, 4]) && HasAt(h, 4, [20, 0]) && HasAt(h, 6, [0, 0]) && HasAt(h, 8, [0, 0])
    && HasAt(h, 10, [time % 256, time / 256 % 256]) && HasAt(h, 12, [date % 256, date / 256 % 256])
    && HasAt(h, 28, [0, 0])
  }

  /** The same with both versions, and no extra field, comment, disk number or attributes. */
  predicate CentralFixed(c: seq<byte>, time: nat, date: nat)
  {
    && HasAt(c, 0, [0x50, 0x4b, 1, 2]) && HasAt(c, 4, [20, 0]) && HasAt(c, 6, [20, 0])
    && HasAt(c, 8, [0, 0]) && HasAt(c, 10, [0, 0])
    && HasAt(c, 12, [time % 256, time / 256 % 256]) && HasAt(c, 14, [date % 256, date / 256 % 256])
    && HasAt(c, 30, [0, 0]) && HasAt(c, 32, [0, 0]) && HasAt(c, 34, [0, 0]) && HasAt(c, 36, [0, 0])
    && HasAt(c, 38, [0, 0, 0, 0])
  }

  /** Signature, a single disk, the number of entries twice, and no comment. */
  predicate EndFixed(h: seq<byte>, n: nat)
  {
    && HasAt(h, 0, [0x50, 0x4b, 5, 6]) && HasAt(h, 4, [0, 0]) && HasAt(h, 6, [0, 0])
    && HasAt(h, 8, [n % 256, n / 256 % 256]) && HasAt(h, 10, [n % 256, n / 256 % 256]) && HasAt(h, 20, [0, 0])
  }

  lemma FixedOctets(v: nat)
    ensures Le32(LOCAL_SIGNATURE) == [0x50, 0x4b, 3, 4] && Le32(CENTRAL_SIGNATURE) == [0x50, 0x4b, 1, 2]
    ensures Le32(END_SIGNATURE) == [0x50, 0x4b, 5, 6] && Le32(0) == [0, 0, 0, 0]
    ensures Le16(20) == [20, 0] && Le16(0) == [0, 0] && Le16(v) == [v % 256, v / 256 % 256]
  {}

  lemma FixedParts(
      h: seq<byte>, c: seq<byte>, end: seq<byte>, e: Entry, at: nat, n: nat, size: nat, time: nat, date: nat)
    ensures IsLocal(h, e, time, date) ==> LocalFixed(h, time, date)
    ensures IsCentral(c, e, at, time, date) ==> CentralFixed(c, time, date)
    ensures IsEnd(end, n, size, at) ==> EndFixed(end, n)
  {
    hide Crc32, LittleEndian, HasAt, Le16, Le32;
    FixedOctets(time);
    FixedOctets(date);
    FixedOctets(n);
  }

  /** The octets of an archive's records besides names, sizes, CRCs and offsets. */
  lemma RecordOctets(parts: seq<seq<byte>>, entries: seq<Entry>, i: nat, time: nat, date: nat)
    requires IsArchive(parts, entries, time, date) && i < |entries|
    ensures var n := |entries|;
      LocalFixed(parts[2 * i], time, date) && CentralFixed(parts[2 * n + i], time, date) && EndFixed(parts[3 * n], n)
  {
    hide IsLocal, IsCentral, IsEnd, LocalFixed, CentralFixed, EndFixed;
    var n := |entries|;
    var local, central, end := parts[..2 * n][2 * i], parts[2 * n..3 * n][i], parts[3 * n];
    var e, size := entries[i], CentralLength(entries, n);
    FixedParts(local, central, end, e, LocalOffset(entries, i), n, size, time, date);
    FixedParts(local, central, end, e, LocalOffset(entries, n), n, size, time, date);
  }
}
