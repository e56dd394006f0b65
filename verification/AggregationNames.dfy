/**
 * Plugins whose id is the name of a property that every plain object inherits: the summary
 * record finds the inherited value instead of a number.
 */
module AggregationNames {
  import opened Options
  import opened JsObjects
  import opened StatsRows
  import opened Aggregation
  import opened AggregationEffects
  import opened AggregationLedger
  import opened AggregationRuns
  import opened AggregationPasses
  import opened AggregationBounds
  import opened AggregationDays

  // ------------------------------------------------------------- inherited property names

  /** A plugin named like an inherited property never gets a number. */
  lemma {:induction false} InheritedNeverCounts(
      cells: map<(string, string), Cell>, rows: seq<Row>, kind: string, plugin: string)
    requires plugin in INHERITED && ((kind, plugin) in cells ==> cells[(kind, plugin)].Text?)
    ensures var out := AddCells(cells, rows); (kind, plugin) in out ==> out[(kind, plugin)].Text?
    decreases |rows|
  {
    hide INHERITED;
    if rows != [] {
      InheritedNeverCounts(AddCell(cells, rows[0]), rows[1..], kind, plugin);
    }
  }

  /**
   * One merge into an absent cell shows a plugin's sum if and only if its name is not inherited,
   * or it has no events.
   */
  lemma MergeExactIff(cells: map<(string, string), Cell>, rows: seq<Row>, kind: string, plugin: string)
    requires ColonFree(kind) && ColonFree(plugin) && (kind, plugin) !in cells
    ensures ReadCell(AddCells(cells, rows), kind, plugin) == SumWhere(rows, Belongs(InSummary(kind, plugin)))
      <==> plugin !in INHERITED || SumWhere(rows, Belongs(InSummary(kind, plugin))) == 0
  {
    hide INHERITED, ColonFree, AddCells, SumWhere;
    if plugin in INHERITED {
      InheritedNeverCounts(cells, rows, kind, plugin);
    } else {
      CellsAdd(cells, rows, InSummary(kind, plugin));
    }
  }

  // ------------------------------------------------------------------------- over whole runs

  /** The summary has no number for the plugin. */
  predicate NoNumber(kv: Store, kind: string, plugin: string)
  {
    var cells := ReadSummary(kv);
    (kind, plugin) in cells ==> cells[(kind, plugin)].Text?
  }

  lemma {:induction false} WritesNoNumber(kv: Store, ops: seq<Op>, kind: string, plugin: string)
    requires AllInFamily(ops) && plugin in INHERITED && NoNumber(kv, kind, plugin)
    ensures NoNumber(ApplyAll(kv, ops), kind, plugin)
    decreases |ops|
  {
    hide INHERITED;
    if ops != [] {
      assert ops[0] in ops;
      WriteNoNumber(kv, ops[0], kind, plugin);
      hide NoNumber, Apply;
      WritesNoNumber(Apply(kv, ops[0]), ops[1..], kind, plugin);
    }
  }

  lemma WriteNoNumber(kv: Store, op: Op, kind: string, plugin: string)
    requires InFamily(op) && plugin in INHERITED && NoNumber(kv, kind, plugin)
    ensures NoNumber(Apply(kv, op), kind, plugin)
  {
    hide INHERITED, AddCells;
    FixedKeys();
    if op.AddSummary? { InheritedNeverCounts(ReadSummary(kv), op.rows, kind, plugin); }
  }

  lemma HalvingNoNumber(kv: Store, kind: string, plugin: string)
    requires NoNumber(kv, kind, plugin)
    ensures NoNumber(HalveChunk(kv), kind, plugin)
  {
    FixedKeys();
  }

  lemma StepNoNumber(
      kv: Store, now: nat, trig: Trigger, events: seq<Event>, leq: Order, kind: string, plugin: string)
    requires TotalOrder(leq) && HoursOk(events) && Sound(kv, now, events, leq) && TriggerOk(kv, now, trig, events)
    requires plugin in INHERITED && NoNumber(kv, kind, plugin)
    ensures NoNumber(Step(kv, trig, leq), kind, plugin)
  {
    hide Plan, ApplyAll, TablesOf, WindowTables, TablesOk, Placed, HalveChunk, TotalOrder, TriggerOk, Sound, InFamily,
      AllInFamily, NoNumber, INHERITED;
    Start(kv, now, trig, events, leq);
    AnySlot(kv);
    var c, t := StartCursor(kv, trig.now), TriggerTables(trig, leq);
    var ops, n := TriggerPlan(kv, trig, leq), Done(kv, trig, leq);
    PlanInFamily(c, t, ANY);
    PrefixInFamily(ops, n);
    WritesNoNumber(kv, ops[..n], kind, plugin);
    HalvingNoNumber(ApplyAll(kv, ops[..n]), kind, plugin);
    assert ops[..|ops|] == ops;
  }

  lemma {:induction false} RunNoNumber(
      kv0: Store, start: nat, trigs: seq<Trigger>, events: seq<Event>, leq: Order, kind: string, plugin: string)
    requires TotalOrder(leq) && HoursOk(events) && Idle(kv0, start) && RunOk(kv0, start, trigs, events, leq)
    requires plugin in INHERITED && NoNumber(kv0, kind, plugin)
    ensures NoNumber(Run(kv0, trigs, leq), kind, plugin)
    decreases |trigs|
  {
    hide NoNumber, INHERITED, Step, TotalOrder, TriggerOk, Sound, HoursOk, Idle;
    if trigs != [] {
      var front, last := trigs[..|trigs| - 1], trigs[|trigs| - 1];
      RunNoNumber(kv0, start, front, events, leq, kind, plugin);
      RunSound(kv0, start, front, events, leq);
      StepNoNumber(Run(kv0, front, leq), Clock(start, front), last, events, leq, kind, plugin);
    }
  }

  /**
   * Over every run from a store without the cell, failures included: the summary cell is the
   * plugin's settled events plus the excess of failed triggers, as for every other counter, if
   * and only if its name is not inherited or there is nothing to count.
   */
  lemma SummaryExactIff(
      kv0: Store, start: nat, trigs: seq<Trigger>, events: seq<Event>, leq: Order, kind: string, plugin: string)
    requires TotalOrder(leq) && HoursOk(events) && Idle(kv0, start) && RunOk(kv0, start, trigs, events, leq)
    requires ColonFree(kind) && ColonFree(plugin) && (kind, plugin) !in ReadSummary(kv0)
    ensures var kv, s := Run(kv0, trigs, leq), InSummary(kind, plugin);
      var due := EventSum(events, Watermark(kv0), Settled(kv), s) + Excess(kv0, trigs, leq, s);
      ReadSlot(kv, s) == due <==> plugin !in INHERITED || due == 0
  {
    hide INHERITED, ColonFree, Run, RunOk, TotalOrder, HoursOk, EventSum, Excess, Settled, Watermark, ReadCursor,
      WindowTables;
    if plugin in INHERITED {
      RunNoNumber(kv0, start, trigs, events, leq, kind, plugin);
    } else {
      BooksBalance(kv0, start, trigs, events, leq, InSummary(kind, plugin));
    }
  }

  /** A completed pass over one accepted event of a plugin called "constructor" leaves the summary without it. */
  lemma ConstructorLost(hour: string, leq: Order) returns (trigs: seq<Trigger>)
    requires TotalOrder(leq) && ColonFree(Day(hour))
    ensures var events, s := [Event(10, "dl", "constructor", "1", hour, "a", 1)], InSummary("dl", "constructor");
      && RunOk(map[], 0, trigs, events, leq) && Windows(map[], trigs, leq) == [(0, 20)]
      && EventSum(events, 0, 20, s) == 1 && ReadSlot(Run(map[], trigs, leq), s) == 0
  {
    var e := Event(10, "dl", "constructor", "1", hour, "a", 1);
    OneEvent(e, InSummary("dl", "constructor"));
    hide TotalOrder, WindowTables, RunOk, Run, Windows, UniqueKey, ReadNum, ReadCursor, Watermark, EventSum;
    EmptyRun([e], leq);
    trigs := CompletedRun(map[], 0, [], 20, [e], leq, Row("dl", "constructor", "", 0));
    assert [] + [(0, 20)] == [(0, 20)];
    RunNoNumber(map[], 0, trigs, [e], leq, "dl", "constructor");
  }

  lemma OneEvent(e: Event, s: Slot)
    requires s == InSummary("dl", "constructor") && e.at == 10
    requires e.kind == "dl" && e.plugin == "constructor" && e.version == "1" && e.weight == 1
    ensures EventSum([e], 0, 20, s) == 1
  {
    var r := Row(e.kind, e.plugin, e.version, e.weight);
    assert [e][1..] == [] && [r][1..] == [];
    assert EventRows([e], 0, 20) == [r] + EventRows([], 0, 20) == [r];
    assert CountRowOk(r) && Belongs(s)(r);
    assert Accepted(s)(r);
    assert SumWhere([r], Accepted(s)) == 1 + SumWhere([], Accepted(s));
  }
}
