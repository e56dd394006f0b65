/**
 * The lists of a window and the events they stand for, the progress a cursor stands for, and
 * what the planned writes of one trigger add to every counter.
 */
module AggregationLedger {
  import opened StatsRows
  import opened Aggregation
  import opened AggregationEffects

  // --------------------------------------------------------------- tables and events

  /** The lists of a window, from the groups in the order the model happens to form them. */
  function WindowTables(events: seq<Event>, from: nat, to: nat, leq: Order): (t: Tables)
  {
    TablesOf(CountGroups(events, from, to), HourGroups(events, from, to), leq)
  }

  /** Accepted rows that belong to a slot. */
  function Accepted(s: Slot): (p: Row -> bool)
  {
    (x: Row) => CountRowOk(x) && Belongs(s)(x)
  }

  /** The number of accepted events of a slot in (from, to]. */
  function EventSum(events: seq<Event>, from: nat, to: nat, s: Slot): (n: nat)
  {
    SumWhere(EventRows(events, from, to), Accepted(s))
  }

  ghost predicate TablesOk(t: Tables)
  {
    && (forall r :: r in t.counts ==> CountRowOk(r))
    && (forall r :: r in t.totals ==> KindOk(r.kind) && PluginOk(r.plugin))
    && (forall r :: r in t.uniques ==> BucketOk(r))
  }

  /** The window's sum for a slot, read off the lists. */
  function Total(t: Tables, s: Slot): (n: nat)
  {
    SumWhere(if s.Plugin? then t.totals else t.counts, Belongs(s))
  }

  /** The hour labels of the query are dates and times: no colon among the ten date characters. */
  ghost predicate HoursOk(events: seq<Event>)
  {
    forall e :: e in events ==> ColonFree(Day(e.hour))
  }

  lemma {:induction false} SumOfAll(rows: seq<Row>, p: Row -> bool, q: Row -> bool)
    requires forall r :: r in rows ==> p(r) == q(r)
    ensures SumWhere(rows, p) == SumWhere(rows, q)
  {
    if rows != [] {
      assert rows[0] in rows;
      SumOfAll(rows[1..], p, q);
    }
  }

  lemma {:induction false} PerPluginFacts(rows: seq<Row>, s: Slot)
    requires s.Plugin? && forall r :: r in rows ==> CountRowOk(r)
    ensures SumWhere(PerPlugin(rows), Belongs(s)) == SumWhere(rows, Belongs(s))
    ensures forall r :: r in PerPlugin(rows) ==> KindOk(r.kind) && PluginOk(r.plugin)
  {
    if rows != [] {
      assert rows[0] in rows;
      PerPluginFacts(rows[1..], s);
      assert PerPlugin(rows)[1..] == PerPlugin(rows[1..]);
      assert PerPlugin(rows) == [rows[0].(part := "")] + PerPlugin(rows[1..]);
    }
  }

  lemma BelongsOfKey(s: Slot)
    ensures OfKey(Belongs(s)) && OfKey(Accepted(s))
  {}

  lemma {:induction false} TallyKeepsParts(rows: seq<Row>)
    requires forall r :: r in rows ==> KindOk(r.kind) && PluginOk(r.plugin)
    ensures forall r :: r in Tally(rows) ==> KindOk(r.kind) && PluginOk(r.plugin)
  {
    TallyFacts(rows, _ => true);
    forall r | r in Tally(rows)
      ensures KindOk(r.kind) && PluginOk(r.plugin)
    {
      var i :| 0 <= i < |Tally(rows)| && Tally(rows)[i] == r;
      assert HasKey(Tally(rows), r);
      var k :| 0 <= k < |rows| && SameKey(rows[k], r);
      assert rows[k] in rows;
    }
  }

  lemma {:induction false} HourRowsOf(events: seq<Event>, from: nat, to: nat)
    requires HoursOk(events)
    ensures forall r :: r in HourRows(events, from, to) ==> ColonFree(Day(r.part))
  {
    if events != [] {
      assert events[0] in events;
      HourRowsOf(events[1..], from, to);
    }
  }

  lemma HourGroupsOf(events: seq<Event>, from: nat, to: nat)
    requires HoursOk(events)
    ensures DistinctKeys(HourGroups(events, from, to))
    ensures forall r :: r in HourGroups(events, from, to) ==> ColonFree(Day(r.part))
  {
    var rows := HourRows(events, from, to);
    var t, g := Tally(rows), HourGroups(events, from, to);
    TallyFacts(rows, _ => true);
    HourRowsOf(events, from, to);
    forall i, j | 0 <= i < j < |g| ensures !SameKey(g[i], g[j]) { assert !SameKey(t[i], t[j]); }
    forall r | r in g
      ensures ColonFree(Day(r.part))
    {
      var i :| 0 <= i < |g| && g[i] == r;
      assert SameKey(t[i], r) && HasKey(t, r);
      var k :| 0 <= k < |rows| && SameKey(rows[k], r);
      assert rows[k] in rows;
    }
  }

  /** Every pair of answers for a window yields the window's lists. */
  lemma AnswersYieldTables(
      rawCounts: seq<Row>, rawUniques: seq<Row>, events: seq<Event>, from: nat, to: nat, leq: Order)
    requires TotalOrder(leq) && HoursOk(events)
    requires AnswersCounts(rawCounts, events, from, to) && AnswersUniques(rawUniques, events, from, to)
    ensures TablesOf(rawCounts, rawUniques, leq) == WindowTables(events, from, to, leq)
  {
    hide ShapeCounts, ShapeUniques, HourGroups, CountGroups, TotalOrder;
    CountsCanonical(rawCounts, events, from, to, leq);
    HourGroupsOf(events, from, to);
    UniquesCanonical(rawUniques, HourGroups(events, from, to), leq);
  }

  lemma WindowTablesOk(events: seq<Event>, from: nat, to: nat, leq: Order)
    requires TotalOrder(leq) && HoursOk(events)
    ensures TablesOk(WindowTables(events, from, to, leq))
  {
    var groups := CountGroups(events, from, to);
    TallyFacts(EventRows(events, from, to), _ => true);
    KeptLabelsDistinct(groups);
    KeepFacts(groups, CountRowOk, CountRowOk);
    SortFacts(Keep(groups, CountRowOk), leq, _ => true);
    var counts := ShapeCounts(groups, leq);
    PerPluginFacts(counts, Plugin("dl", "x"));
    TallyKeepsParts(PerPlugin(counts));
    var hours := HourGroups(events, from, to);
    HourGroupsOf(events, from, to);
    KeepFacts(hours, BucketOk, BucketOk);
    var kept := Keep(hours, BucketOk);
    DayLabelsDistinct(kept);
    SortFacts(Tally(Days(kept)), leq, _ => true);
  }

  /** The lists carry exactly the window's accepted events. */
  lemma TotalIsEventSum(events: seq<Event>, from: nat, to: nat, leq: Order, s: Slot)
    requires TotalOrder(leq) && HoursOk(events) && SlotOk(s)
    ensures Total(WindowTables(events, from, to, leq), s) == EventSum(events, from, to, s)
  {
    hide TotalOrder, ShapeCounts, Tally, EventRows, ShapeUniques;
    WindowTablesOk(events, from, to, leq);
    var counts := WindowTables(events, from, to, leq).counts;
    BelongsOfKey(s);
    CountsSum(events, from, to, leq, Accepted(s));
    SumOfAll(counts, Accepted(s), Belongs(s));
    if s.Plugin? {
      PerPluginFacts(counts, s);
      TallyFacts(PerPlugin(counts), Belongs(s));
    }
  }

  // --------------------------------------------------------------- progress of a pass

  /** What the rows before the cursor contribute to a slot. */
  function Progress(c: Cursor, t: Tables, s: Slot): (n: nat)
  {
    match s
    case Version(_, _, _) =>
      if c.phase == Counts then SumWhere(t.counts[..Min(c.offset, |t.counts|)], Belongs(s)) else Total(t, s)
    case Plugin(_, _) =>
      if c.phase == Counts then 0
      else if c.phase == PluginTotals then SumWhere(t.totals[..Min(c.offset, |t.totals|)], Belongs(s))
      else Total(t, s)
    case InSummary(_, _) => 0
  }

  /** The slots a phase writes. */
  predicate PhaseWrites(phase: Phase, s: Slot)
  {
    (phase == Counts && s.Version?) || (phase == PluginTotals && s.Plugin?)
  }

  lemma RowOpAdds(phase: Phase, r: Row, s: Slot)
    requires SlotOk(s) && KindOk(r.kind) && PluginOk(r.plugin)
    ensures InFamily(RowOp(phase, r)) && KeepsCursor(RowOp(phase, r)) && !RowOp(phase, r).SetWatermark?
    ensures OpAdds(RowOp(phase, r), s) == if PhaseWrites(phase, s) && Belongs(s)(r) then r.n else 0
  {
    hide VersionKey, PluginKey, UniqueKey;
    KeyHeads(r);
    KindColonFree(r.kind);
    PluginColonFree(r.plugin);
    hide KindOk, PluginOk, ColonFree;
    var x := Row(s.kind, s.plugin, if s.Version? then s.part else "", 0);
    VersionKeyInjective(r, x);
    PluginKeyInjective(r, x);
    FamiliesDisjoint(r, x);
    FamiliesDisjoint(x, r);
  }

  lemma {:induction false} RowOpsAdd(phase: Phase, rows: seq<Row>, s: Slot)
    requires SlotOk(s) && forall r :: r in rows ==> KindOk(r.kind) && PluginOk(r.plugin)
    ensures AllInFamily(RowOps(phase, rows))
    ensures forall op :: op in RowOps(phase, rows) ==> KeepsCursor(op) && !op.SetWatermark?
    ensures Added(RowOps(phase, rows), s) == if PhaseWrites(phase, s) then SumWhere(rows, Belongs(s)) else 0
  {
    hide InFamily, OpAdds, RowOp, PhaseWrites;
    if rows != [] {
      assert rows[0] in rows;
      RowOpAdds(phase, rows[0], s);
      RowOpsAdd(phase, rows[1..], s);
      var ops := RowOps(phase, rows);
      assert ops == [RowOp(phase, rows[0])] + RowOps(phase, rows[1..]);
      assert ops[1..] == RowOps(phase, rows[1..]);
    }
  }

  lemma SliceSum(rows: seq<Row>, c: Cursor, s: Slot)
    requires c.offset <= |rows|
    ensures forall r :: r in Slice(rows, c) ==> r in rows
    ensures SumWhere(rows[..c.offset], Belongs(s)) + SumWhere(Slice(rows, c), Belongs(s))
         == SumWhere(rows[..SliceEnd(|rows|, c)], Belongs(s))
  {
    var end := SliceEnd(|rows|, c);
    assert rows[..end] == rows[..c.offset] + Slice(rows, c);
    SumWhereAppend(rows[..c.offset], Slice(rows, c), Belongs(s));
  }

  ghost predicate Placed(c: Cursor, t: Tables)
  {
    c.offset <= |ListOf(t, c.phase)| && MIN_CHUNK <= c.chunk <= MAX_CHUNK && c.from <= c.to
  }

  /** The rows of a trigger's slice. */
  function SliceOf(c: Cursor, t: Tables): (rows: seq<Row>)
  {
    Slice(ListOf(t, c.phase), c)
  }

  lemma SliceOk(c: Cursor, t: Tables, s: Slot)
    requires TablesOk(t) && Placed(c, t)
    ensures forall r :: r in SliceOf(c, t) ==> KindOk(r.kind) && PluginOk(r.plugin)
  {
    SliceSum(ListOf(t, c.phase), c, s);
  }

  lemma ProgressAdvances(c: Cursor, t: Tables, s: Slot)
    requires Placed(c, t) && !Completes(c, t)
    ensures Placed(NextCursor(c, t), t)
    ensures Progress(NextCursor(c, t), t, s) ==
      Progress(c, t, s) + if PhaseWrites(c.phase, s) then SumWhere(SliceOf(c, t), Belongs(s)) else 0
  {
    hide SumWhere, Belongs;
    var rows := ListOf(t, c.phase);
    SliceSum(rows, c, s);
    assert SumWhere([], Belongs(s)) == 0 by { NoRows(s); }
    assert rows[..|rows|] == rows;
    assert rows[..0] == [];
  }

  lemma NoRows(s: Slot)
    ensures SumWhere([], Belongs(s)) == 0
  {}

  lemma SavingAdds(d: Cursor, s: Slot)
    ensures AllInFamily([SaveCursor(d)]) && Added([SaveCursor(d)], s) == 0
  {
    assert Added([SaveCursor(d)], s) == OpAdds(SaveCursor(d), s) + Added([], s);
  }

  /** A trigger that does not complete the pass carries every slot from the cursor to the next one. */
  lemma PlanAdvances(c: Cursor, t: Tables, s: Slot)
    requires TablesOk(t) && Placed(c, t) && SlotOk(s) && !Completes(c, t)
    ensures AllInFamily(Plan(c, t)) && Placed(NextCursor(c, t), t)
    ensures Progress(c, t, s) + Added(Plan(c, t), s) == Progress(NextCursor(c, t), t, s)
  {
    SliceOk(c, t, s);
    RowOpsAdd(c.phase, SliceOf(c, t), s);
    AddedAppend(RowOps(c.phase, SliceOf(c, t)), [SaveCursor(NextCursor(c, t))], s);
    SavingAdds(NextCursor(c, t), s);
    ProgressAdvances(c, t, s);
    hide Progress, Added, SumWhere, NextCursor, InFamily, PhaseWrites, RowOp, Completes;
  }

  /** The completing trigger leaves every slot with the window's full sum. */
  lemma PlanCompletes(c: Cursor, t: Tables, s: Slot)
    requires TablesOk(t) && Placed(c, t) && SlotOk(s) && Completes(c, t)
    ensures AllInFamily(Plan(c, t))
    ensures Progress(c, t, s) + Added(Plan(c, t), s) == Total(t, s)
  {
    var closing := Closing(c, t);
    SliceOk(c, t, s);
    RowOpsAdd(c.phase, SliceOf(c, t), s);
    AddedAppend(RowOps(c.phase, SliceOf(c, t)), closing, s);
    ClosingAdds(c, t, s);
  }

  lemma ClosingAdds(c: Cursor, t: Tables, s: Slot)
    requires Completes(c, t)
    ensures AllInFamily(Closing(c, t))
    ensures Added(Closing(c, t), s) == if s.InSummary? then Total(t, s) else 0
  {
    var ops := Closing(c, t);
    assert Added(ops[3..], s) == OpAdds(ops[3], s) + Added([], s);
    assert ops[2..][1..] == ops[3..] && ops[1..][1..] == ops[2..];
    assert Added(ops[2..], s) == 0;
    assert Added(ops[1..], s) == 0;
  }
}
