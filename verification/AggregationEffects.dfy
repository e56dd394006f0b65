/** What each write of a trigger does to the counters, the cursor and the watermark. */
module AggregationEffects {
  import opened Options
  import opened JsObjects
  import opened StatsRows
  import opened Aggregation

  /** A counter of the archive. */
  datatype Slot =
    | Version(kind: string, plugin: string, part: string)
    | Plugin(kind: string, plugin: string)
    | InSummary(kind: string, plugin: string)

  /** Kind and plugin can be told apart in a key; they need not be ones the worker accepts. */
  predicate SlotOk(s: Slot)
  {
    ColonFree(s.kind) && ColonFree(s.plugin) && (s.InSummary? ==> s.plugin !in INHERITED)
  }

  /** The rows that belong to a slot. */
  function Belongs(s: Slot): (p: Row -> bool)
  {
    (x: Row) => x.kind == s.kind && x.plugin == s.plugin && (s.Version? ==> x.part == s.part)
  }

  function SlotKey(s: Slot): (key: string)
  {
    match s
    case Version(k, p, v) => VersionKey(Row(k, p, v, 0))
    case Plugin(k, p) => PluginKey(Row(k, p, "", 0))
    case InSummary(k, p) => SUMMARY_KEY
  }

  function ReadCell(cells: map<(string, string), Cell>, kind: string, plugin: string): (n: nat)
  {
    if (kind, plugin) in cells && cells[(kind, plugin)].Count? then cells[(kind, plugin)].n else 0
  }

  function ReadSlot(kv: Store, s: Slot): (n: nat)
  {
    if s.InSummary? then ReadCell(ReadSummary(kv), s.kind, s.plugin) else ReadNum(kv, SlotKey(s))
  }

  /** The slot's summary cell has not been turned into text. */
  predicate Clean(kv: Store, s: Slot)
  {
    s.InSummary? ==> (s.kind, s.plugin) !in ReadSummary(kv) || ReadSummary(kv)[(s.kind, s.plugin)].Count?
  }

  // ------------------------------------------------------------------- key families

  predicate StartsWith(s: string, c: char)
  {
    s != "" && s[0] == c
  }

  lemma KeyHeads(r: Row)
    ensures StartsWith(VersionKey(r), 't') && StartsWith(PluginKey(r), 't') && StartsWith(UniqueKey(r), 'u')
  {}

  /** The fixed keys belong to none of the counter families. */
  lemma FixedKeys()
    ensures StartsWith(META_KEY, 'm') && StartsWith(SUMMARY_KEY, 's') && StartsWith(STATE_KEY, 'a') &&
      StartsWith(TUNING_KEY, 'a')
    ensures STATE_KEY != TUNING_KEY
  {
    assert STATE_KEY[4] == 's' && TUNING_KEY[4] == 't';
  }

  lemma PrefixCancels(p: string, a: string, b: string)
    requires p + a == p + b
    ensures a == b
  {
    assert (p + a)[|p|..] == a && (p + b)[|p|..] == b;
  }

  lemma JoinHasColon(a: string, x: string)
    ensures !ColonFree(a + ":" + x)
  {
    assert (a + ":" + x)[|a|] == ':';
  }

  lemma RowLabels(r: Row)
    ensures VersionKey(r) == "total:" + Label(r) && UniqueKey(r) == "uniqd:" + Label(r)
  {
    assert VersionKey(r) == "total:" + Label(r);
    assert UniqueKey(r) == "uniqd:" + Label(r);
  }

  lemma SameKeySameLabel(a: Row, b: Row)
    ensures SameKey(a, b) ==> Label(a) == Label(b)
  {}

  lemma PluginColonFree(p: string)
    requires PluginOk(p)
    ensures ColonFree(p)
  {}

  /** Versioned totals of different rows never share a key. */
  lemma VersionKeyInjective(a: Row, b: Row)
    requires ColonFree(a.kind) && ColonFree(b.kind) && ColonFree(a.plugin) && ColonFree(b.plugin)
    ensures VersionKey(a) == VersionKey(b) <==> SameKey(a, b)
  {
    SameKeySameLabel(a, b);
    RowLabels(a);
    RowLabels(b);
    hide Label, VersionKey, UniqueKey;
    if VersionKey(a) == VersionKey(b) {
      PrefixCancels("total:", Label(a), Label(b));
      LabelInjective(a, b);
    }
  }

  lemma PluginKeyInjective(a: Row, b: Row)
    requires ColonFree(a.kind) && ColonFree(b.kind)
    ensures PluginKey(a) == PluginKey(b) <==> a.kind == b.kind && a.plugin == b.plugin
  {
    if PluginKey(a) == PluginKey(b) {
      assert PluginKey(a) == "total:" + (a.kind + ":" + a.plugin) &&
        PluginKey(b) == "total:" + (b.kind + ":" + b.plugin);
      PrefixCancels("total:", a.kind + ":" + a.plugin, b.kind + ":" + b.plugin);
      JoinInjective(a.kind, a.plugin, b.kind, b.plugin);
    }
  }

  /** A versioned total never shares a key with a per-plugin total. */
  lemma FamiliesDisjoint(a: Row, b: Row)
    requires ColonFree(a.kind) && ColonFree(b.kind) && ColonFree(b.plugin)
    ensures VersionKey(a) != PluginKey(b)
  {
    if VersionKey(a) == PluginKey(b) {
      assert VersionKey(a) == "total:" + (a.kind + ":" + (a.plugin + ":" + a.part));
      assert PluginKey(b) == "total:" + (b.kind + ":" + b.plugin);
      PrefixCancels("total:", a.kind + ":" + (a.plugin + ":" + a.part), b.kind + ":" + b.plugin);
      JoinInjective(a.kind, a.plugin + ":" + a.part, b.kind, b.plugin);
      JoinHasColon(a.plugin, a.part);
    }
  }

  lemma UniqueKeyInjective(a: Row, b: Row)
    requires BucketOk(a) && BucketOk(b)
    ensures UniqueKey(a) == UniqueKey(b) <==> SameKey(a, b)
  {
    SameKeySameLabel(a, b);
    RowLabels(a);
    RowLabels(b);
    hide Label, VersionKey, UniqueKey;
    if UniqueKey(a) == UniqueKey(b) {
      PrefixCancels("uniqd:", Label(a), Label(b));
      KindColonFree(a.kind);
      KindColonFree(b.kind);
      PluginColonFree(a.plugin);
      PluginColonFree(b.plugin);
      LabelInjective(a, b);
    }
  }

  // -------------------------------------------------------------- effect of one write

  /** Counter writes stay in the counter families. */
  predicate InFamily(op: Op)
  {
    (op.Add? ==> StartsWith(op.key, 't')) && (op.Set? ==> StartsWith(op.key, 'u'))
  }

  function OpAdds(op: Op, s: Slot): (n: nat)
  {
    match op
    case Add(key, delta) => if !s.InSummary? && key == SlotKey(s) then delta else 0
    case AddSummary(rows) => if s.InSummary? then SumWhere(rows, Belongs(s)) else 0
    case _ => 0
  }

  lemma {:induction false} CellsAdd(cells: map<(string, string), Cell>, rows: seq<Row>, s: Slot)
    requires SlotOk(s) && s.InSummary?
    requires (s.kind, s.plugin) !in cells || cells[(s.kind, s.plugin)].Count?
    ensures var out := AddCells(cells, rows);
      && ((s.kind, s.plugin) !in out || out[(s.kind, s.plugin)].Count?)
      && ReadCell(out, s.kind, s.plugin) == ReadCell(cells, s.kind, s.plugin) + SumWhere(rows, Belongs(s))
    decreases |rows|
  {
    if rows != [] {
      var next := AddCell(cells, rows[0]);
      assert "__proto__" in INHERITED;
      assert (s.kind, s.plugin) !in next || next[(s.kind, s.plugin)].Count?;
      assert ReadCell(next, s.kind, s.plugin) ==
        ReadCell(cells, s.kind, s.plugin) + if Belongs(s)(rows[0]) then rows[0].n else 0;
      CellsAdd(next, rows[1..], s);
    }
  }

  /** A write adds to a slot exactly what it says, and nothing to any other. */
  lemma ApplyAdds(kv: Store, op: Op, s: Slot)
    requires SlotOk(s) && InFamily(op) && Clean(kv, s)
    ensures Clean(Apply(kv, op), s)
    ensures ReadSlot(Apply(kv, op), s) == ReadSlot(kv, s) + OpAdds(op, s)
  {
    hide AddCells, ReadCell;
    FixedKeys();
    KeyHeads(Row(s.kind, s.plugin, if s.Version? then s.part else "", 0));
    if s.InSummary? && op.AddSummary? { CellsAdd(ReadSummary(kv), op.rows, s); }
  }

  /** What a write does to cursor and watermark. */
  lemma ApplyControl(kv: Store, op: Op)
    requires InFamily(op)
    ensures ReadCursor(Apply(kv, op))
      == match op case SaveCursor(c) => Some(c) case DropCursor => None case _ => ReadCursor(kv)
    ensures Watermark(Apply(kv, op)) == match op case SetWatermark(at) => at case _ => Watermark(kv)
  {
    FixedKeys();
  }

  // ------------------------------------------------------------- effect of many writes

  function Added(ops: seq<Op>, s: Slot): (n: nat)
  {
    if ops == [] then 0 else OpAdds(ops[0], s) + Added(ops[1..], s)
  }

  ghost predicate AllInFamily(ops: seq<Op>)
  {
    forall op :: op in ops ==> InFamily(op)
  }

  lemma {:induction false} AddedAppend(a: seq<Op>, b: seq<Op>, s: Slot)
    ensures Added(a + b, s) == Added(a, s) + Added(b, s)
  {
    if a == [] {
      assert a + b == b;
    } else {
      assert (a + b)[1..] == a[1..] + b;
      AddedAppend(a[1..], b, s);
    }
  }

  lemma {:induction false} ApplyAllAdds(kv: Store, ops: seq<Op>, s: Slot)
    requires SlotOk(s) && AllInFamily(ops) && Clean(kv, s)
    ensures Clean(ApplyAll(kv, ops), s)
    ensures ReadSlot(ApplyAll(kv, ops), s) == ReadSlot(kv, s) + Added(ops, s)
    decreases |ops|
  {
    hide ReadSlot, Clean, Apply, OpAdds, InFamily;
    if ops != [] {
      assert ops[0] in ops;
      ApplyAdds(kv, ops[0], s);
      ApplyAllAdds(Apply(kv, ops[0]), ops[1..], s);
    }
  }

  /** Writes that do not touch the cursor. */
  predicate KeepsCursor(op: Op)
  {
    !op.SaveCursor? && !op.DropCursor?
  }

  lemma {:induction false} ApplyAllKeepsCursor(kv: Store, ops: seq<Op>)
    requires AllInFamily(ops) && forall op :: op in ops ==> KeepsCursor(op)
    ensures ReadCursor(ApplyAll(kv, ops)) == ReadCursor(kv)
    ensures (forall op :: op in ops ==> !op.SetWatermark?) ==> Watermark(ApplyAll(kv, ops)) == Watermark(kv)
    decreases |ops|
  {
    hide Apply, InFamily, ReadCursor, Watermark;
    if ops != [] {
      assert ops[0] in ops;
      ApplyControl(kv, ops[0]);
      ApplyAllKeepsCursor(Apply(kv, ops[0]), ops[1..]);
    }
  }

  lemma HalvingKeepsCounters(kv: Store, s: Slot)
    requires SlotOk(s)
    ensures ReadSlot(HalveChunk(kv), s) == ReadSlot(kv, s) && (Clean(kv, s) ==> Clean(HalveChunk(kv), s))
    ensures Watermark(HalveChunk(kv)) == Watermark(kv)
    ensures ReadCursor(HalveChunk(kv)).Some? <==> ReadCursor(kv).Some?
    ensures ReadCursor(kv).Some? ==>
      var c, d := ReadCursor(kv).value, ReadCursor(HalveChunk(kv)).value;
      d == c.(chunk := d.chunk) && d.chunk == (if c.chunk < 2 * MIN_CHUNK then MIN_CHUNK else c.chunk / 2)
  {
    FixedKeys();
    KeyHeads(Row(s.kind, s.plugin, if s.Version? then s.part else "", 0));
  }
}
