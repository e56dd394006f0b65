/** What a pass leaves in the daily keys, and when that is the value of the whole day. */
module AggregationDays {
  import opened Options
  import opened StatsRows
  import opened Aggregation
  import opened AggregationEffects
  import opened AggregationLedger
  import opened AggregationRuns
  import opened AggregationPasses
  import opened AggregationBounds
  import opened DayValues

  // ------------------------------------------------------------------------ daily keys

  /** The first `n` daily-unique keys hold the window's values. */
  ghost predicate Written(kv: Store, rows: seq<Row>, n: nat)
  {
    forall i :: 0 <= i < n && i < |rows| ==> ReadNum(kv, UniqueKey(rows[i])) == rows[i].n
  }

  /** One value per daily key. */
  ghost predicate Functional(rows: seq<Row>)
  {
    (forall r :: r in rows ==> BucketOk(r)) && forall r, q :: r in rows && q in rows && SameKey(r, q) ==> r.n == q.n
  }

  lemma DistinctFunctional(rows: seq<Row>, r: Row, q: Row)
    requires DistinctKeys(rows) && r in rows && q in rows && SameKey(r, q)
    ensures r == q
  {}

  lemma UniquesFunctional(events: seq<Event>, from: nat, to: nat, leq: Order)
    requires TotalOrder(leq) && HoursOk(events)
    ensures Functional(WindowTables(events, from, to, leq).uniques)
  {
    WindowTablesOk(events, from, to, leq);
    var hours := HourGroups(events, from, to);
    HourGroupsOf(events, from, to);
    KeepFacts(hours, BucketOk, BucketOk);
    var kept := Keep(hours, BucketOk);
    DayLabelsDistinct(kept);
    var days := Tally(Days(kept));
    TallyFacts(Days(kept), _ => true);
    SortFacts(days, leq, _ => true);
    var rows := WindowTables(events, from, to, leq).uniques;
    forall r, q | r in rows && q in rows && SameKey(r, q)
      ensures r.n == q.n
    {
      DistinctFunctional(days, r, q);
    }
  }

  lemma SetOneRow(kv: Store, rows: seq<Row>, i: nat)
    requires Functional(rows) && i < |rows| && Written(kv, rows, i)
    ensures Written(Apply(kv, RowOp(Uniques, rows[i])), rows, i + 1)
  {
    hide UniqueKey, BucketOk;
    var out := Apply(kv, RowOp(Uniques, rows[i]));
    forall j | 0 <= j < i + 1
      ensures ReadNum(out, UniqueKey(rows[j])) == rows[j].n
    {
      assert rows[i] in rows && rows[j] in rows;
      UniqueKeyInjective(rows[i], rows[j]);
    }
  }

  lemma {:induction false} SetRows(kv: Store, rows: seq<Row>, a: nat, b: nat)
    requires Functional(rows) && a <= b <= |rows| && Written(kv, rows, a)
    ensures Written(ApplyAll(kv, RowOps(Uniques, rows[a..b])), rows, b)
    decreases b - a
  {
    hide Functional, Written, Apply, RowOp, ApplyAll;
    var ops := RowOps(Uniques, rows[a..b]);
    if a == b {
      assert ops == [];
      ApplyNothing(kv);
    } else {
      SetRows(kv, rows, a, b - 1);
      var m := b - 1 - a;
      assert ops[..m] == RowOps(Uniques, rows[a..b - 1]);
      ApplyOne(kv, ops, m);
      assert ops[..m + 1] == ops;
      assert ops[m] == RowOp(Uniques, rows[b - 1]);
      SetOneRow(ApplyAll(kv, ops[..m]), rows, b - 1);
    }
  }

  lemma {:induction false} OthersKeepWritten(kv: Store, ops: seq<Op>, rows: seq<Row>, n: nat)
    requires AllInFamily(ops) && Written(kv, rows, n) && forall op :: op in ops ==> !op.Set?
    ensures Written(ApplyAll(kv, ops), rows, n)
    decreases |ops|
  {
    if ops != [] {
      assert ops[0] in ops;
      FixedKeys();
      var next := Apply(kv, ops[0]);
      forall i | 0 <= i < n && i < |rows|
        ensures ReadNum(next, UniqueKey(rows[i])) == rows[i].n
      {
        KeyHeads(rows[i]);
      }
      OthersKeepWritten(next, ops[1..], rows, n);
    }
  }

  /** The writes of a trigger in the last phase extend the written prefix by its slice. */
  lemma PlanWrites(kv: Store, c: Cursor, t: Tables, n: nat)
    requires Functional(t.uniques) && Placed(c, t) && c.phase == Uniques && Written(kv, t.uniques, c.offset) &&
      n <= |Plan(c, t)|
    ensures Written(ApplyAll(kv, Plan(c, t)[..n]), t.uniques, c.offset + Min(n, |SliceOf(c, t)|))
  {
    hide Functional, Written, ApplyAll, RowOps, Plan, Closing, SliceOf, AllInFamily, Placed, Min;
    var k := Min(n, |SliceOf(c, t)|);
    PlanPrefix(c, t, n);
    ClosingSetsNothing(c, t, n - k);
    SetRows(kv, t.uniques, c.offset, c.offset + k);
    var rows, rest := RowOps(Uniques, t.uniques[c.offset..c.offset + k]), Closing(c, t)[..n - k];
    ApplyAllAppend(kv, rows, rest);
    OthersKeepWritten(ApplyAll(kv, rows), rest, t.uniques, c.offset + k);
  }

  /** The first writes of a trigger of the last phase: rows of its slice, then closing writes. */
  lemma PlanPrefix(c: Cursor, t: Tables, n: nat)
    requires Placed(c, t) && c.phase == Uniques && n <= |Plan(c, t)|
    ensures var k := Min(n, |SliceOf(c, t)|);
      && c.offset + k <= |t.uniques| && n - k <= |Closing(c, t)|
      && Plan(c, t)[..n] == RowOps(Uniques, t.uniques[c.offset..c.offset + k]) + Closing(c, t)[..n - k]
  {
    hide RowOp, Closing;
    var slice := SliceOf(c, t);
    var k := Min(n, |slice|);
    RowOpsPrefix(slice, k);
    assert slice[..k] == t.uniques[c.offset..c.offset + k];
    hide RowOps;
    JoinPrefix(RowOps(Uniques, slice), Closing(c, t), n);
  }

  lemma RowOpsPrefix(rows: seq<Row>, k: nat)
    requires k <= |rows|
    ensures RowOps(Uniques, rows)[..k] == RowOps(Uniques, rows[..k])
  {
    hide RowOp;
  }

  lemma JoinPrefix(a: seq<Op>, b: seq<Op>, n: nat)
    requires n <= |a| + |b|
    ensures (a + b)[..n] == a[..Min(n, |a|)] + b[..n - Min(n, |a|)]
  {}

  lemma ClosingSetsNothing(c: Cursor, t: Tables, n: nat)
    requires n <= |Closing(c, t)|
    ensures AllInFamily(Closing(c, t)[..n]) && forall op :: op in Closing(c, t)[..n] ==> !op.Set?
  {}

  lemma HalvingKeepsWritten(kv: Store, rows: seq<Row>, n: nat)
    requires Written(kv, rows, n)
    ensures Written(HalveChunk(kv), rows, n)
  {
    FixedKeys();
    forall i | 0 <= i < n && i < |rows|
      ensures ReadNum(HalveChunk(kv), UniqueKey(rows[i])) == rows[i].n
    {
      KeyHeads(rows[i]);
    }
  }

  /** In the last phase the keys before the cursor hold the window's values. */
  ghost predicate DailyOk(kv: Store, events: seq<Event>, leq: Order)
  {
    match ReadCursor(kv)
    case None => true
    case Some(c) => c.phase == Uniques ==> Written(kv, WindowTables(events, c.from, c.to, leq).uniques, c.offset)
  }

  /** What a trigger leaves in the daily keys. */
  lemma StepDaily(kv: Store, now: nat, trig: Trigger, events: seq<Event>, leq: Order)
    requires TotalOrder(leq) && HoursOk(events) && Sound(kv, now, events, leq) && TriggerOk(kv, now, trig, events) &&
      DailyOk(kv, events, leq)
    ensures DailyOk(Step(kv, trig, leq), events, leq)
    ensures var c, t := StartCursor(kv, trig.now), TriggerTables(trig, leq);
      Commits(kv, trig, leq) && Completes(c, t) ==> Written(Step(kv, trig, leq), t.uniques, |t.uniques|)
  {
    Start(kv, now, trig, events, leq);
    AnySlot(kv);
    var c, t := StartCursor(kv, trig.now), TriggerTables(trig, leq);
    UniquesFunctional(events, c.from, c.to, leq);
    DailyWrites(kv, trig, leq, c, t);
    hide ApplyAll, TablesOk, TablesOf, WindowTables, ReadCursor, Watermark, Plan, TotalOrder, SlotOk, Written,
      Functional, Step, TriggerOk, Sound, Completes, Commits;
    if !Commits(kv, trig, leq) {
      DeathControl(kv, now, trig, c, t, events, leq, ANY);
    } else if Completes(c, t) {
      CompletionControl(kv, trig, leq, c, t, ANY);
    } else {
      AdvanceControl(kv, now, trig, c, t, events, leq, ANY);
      NextKeepsWindow(c, t);
    }
  }

  /** The written prefix after a trigger of the last phase, whether it commits or not. */
  lemma DailyWrites(kv: Store, trig: Trigger, leq: Order, c: Cursor, t: Tables)
    requires c == StartCursor(kv, trig.now) && t == TriggerTables(trig, leq) && Functional(t.uniques) && Placed(c, t)
    ensures c.phase == Uniques && Written(kv, t.uniques, c.offset) ==> Written(Step(kv, trig, leq), t.uniques, c.offset)
    ensures c.phase == Uniques && Written(kv, t.uniques, c.offset) && Commits(kv, trig, leq) ==>
      Written(Step(kv, trig, leq), t.uniques, NextCursor(c, t).offset)
    ensures c.phase == Uniques && Completes(c, t) ==> NextCursor(c, t).offset == |t.uniques|
    ensures c.phase != Uniques && NextCursor(c, t).phase == Uniques ==> NextCursor(c, t).offset == 0
  {
    if c.phase == Uniques && Written(kv, t.uniques, c.offset) {
      hide ApplyAll, TablesOf, Plan, Functional, Written, HalveChunk;
      var ops, n := TriggerPlan(kv, trig, leq), Done(kv, trig, leq);
      PlanWrites(kv, c, t, n);
      assert ops[..|ops|] == ops;
      WrittenLess(ApplyAll(kv, ops[..n]), t.uniques, c.offset, c.offset + Min(n, |SliceOf(c, t)|));
      if trig.death.Some? && n < |ops| && trig.death.value.halves {
        HalvingKeepsWritten(ApplyAll(kv, ops[..n]), t.uniques, c.offset);
        HalvingKeepsWritten(ApplyAll(kv, ops[..n]), t.uniques, c.offset + Min(n, |SliceOf(c, t)|));
      }
    }
  }

  lemma WrittenLess(kv: Store, rows: seq<Row>, n: nat, m: nat)
    requires Written(kv, rows, m) && n <= m
    ensures Written(kv, rows, n)
  {}

  lemma {:induction false} RunDaily(kv0: Store, start: nat, trigs: seq<Trigger>, events: seq<Event>, leq: Order)
    requires TotalOrder(leq) && HoursOk(events) && Idle(kv0, start) && RunOk(kv0, start, trigs, events, leq)
    ensures DailyOk(Run(kv0, trigs, leq), events, leq)
    decreases |trigs|
  {
    if trigs != [] {
      hide Step, TotalOrder, TriggerOk, Sound, DailyOk, Completes, Commits, Written;
      var front, last := trigs[..|trigs| - 1], trigs[|trigs| - 1];
      RunDaily(kv0, start, front, events, leq);
      RunSound(kv0, start, front, events, leq);
      StepDaily(Run(kv0, front, leq), Clock(start, front), last, events, leq);
    }
  }

  /**
   * When a pass completes, each daily-unique key of its window holds the window's value,
   * whatever failed on the way.
   */
  lemma DailyKeysHoldWindow(
      kv0: Store, start: nat, trigs: seq<Trigger>, trig: Trigger, events: seq<Event>, leq: Order, r: Row)
    requires TotalOrder(leq) && HoursOk(events) && Idle(kv0, start) && RunOk(kv0, start, trigs, events, leq)
    requires TriggerOk(Run(kv0, trigs, leq), Clock(start, trigs), trig, events)
    requires var c := StartCursor(Run(kv0, trigs, leq), trig.now);
      && Commits(Run(kv0, trigs, leq), trig, leq) && Completes(c, TriggerTables(trig, leq))
      && r in WindowTables(events, c.from, c.to, leq).uniques
    ensures ReadNum(Step(Run(kv0, trigs, leq), trig, leq), UniqueKey(r)) == r.n
  {
    hide Run, RunOk, Step, TotalOrder, TriggerOk, Sound, DailyOk, Completes, Commits, WindowTables, TablesOf,
      UniqueKey, ReadNum;
    RunDaily(kv0, start, trigs, events, leq);
    RunSound(kv0, start, trigs, events, leq);
    var kv := Run(kv0, trigs, leq);
    Start(kv, Clock(start, trigs), trig, events, leq);
    StepDaily(kv, Clock(start, trigs), trig, events, leq);
    var rows := TriggerTables(trig, leq).uniques;
    var i :| 0 <= i < |rows| && rows[i] == r;
  }

  /**
   * When a pass over (from, to] completes, a daily key it wrote holds the day's value over all
   * events in (since, to], for any earlier `since`, if and only if in every hour of the day
   * everyone who came before the window came again within it.
   */
  lemma KeyIsFullDayIff(
      kv0: Store, start: nat, trigs: seq<Trigger>, trig: Trigger, events: seq<Event>, leq: Order, r: Row, since: nat)
    requires TotalOrder(leq) && HoursOk(events) && Idle(kv0, start) && RunOk(kv0, start, trigs, events, leq)
    requires TriggerOk(Run(kv0, trigs, leq), Clock(start, trigs), trig, events)
    requires var c := StartCursor(Run(kv0, trigs, leq), trig.now);
      && Commits(Run(kv0, trigs, leq), trig, leq) && Completes(c, TriggerTables(trig, leq))
      && r in WindowTables(events, c.from, c.to, leq).uniques && since <= c.from
    ensures var c := StartCursor(Run(kv0, trigs, leq), trig.now);
      (ReadNum(Step(Run(kv0, trigs, leq), trig, leq), UniqueKey(r)) == DayValue(events, since, c.to, r))
      <==> SeenAgain(events, since, c.from, c.to, r)
  {
    hide Run, RunOk, Step, TotalOrder, TriggerOk, Completes, Commits, WindowTables, TablesOf, UniqueKey, ReadNum,
      SeenAgain, DayValue, Sound;
    var kv := Run(kv0, trigs, leq);
    var c := StartCursor(kv, trig.now);
    DailyKeysHoldWindow(kv0, start, trigs, trig, events, leq, r);
    RunSound(kv0, start, trigs, events, leq);
    Start(kv, Clock(start, trigs), trig, events, leq);
    RowCarriesDayValue(events, c.from, c.to, leq, r);
    DayValuesAgree(events, since, c.from, c.to, r);
  }

  // ------------------------------------------------------------------- days without visitors

  lemma {:induction false} OthersKeepKey(kv: Store, ops: seq<Op>, key: string)
    requires AllInFamily(ops) && StartsWith(key, 'u') && forall op :: op in ops && op.Set? ==> op.key != key
    ensures ReadNum(ApplyAll(kv, ops), key) == ReadNum(kv, key)
    decreases |ops|
  {
    if ops != [] {
      assert ops[0] in ops;
      FixedKeys();
      OthersKeepKey(Apply(kv, ops[0]), ops[1..], key);
    }
  }

  /** The only plain assignments of a trigger are those for rows of the uniques list. */
  lemma SetsRow(c: Cursor, t: Tables, op: Op) returns (q: Row)
    requires Placed(c, t) && op in Plan(c, t) && op.Set?
    ensures q in t.uniques && op.key == UniqueKey(q)
  {
    hide UniqueKey, Closing;
    ClosingSetsNothing(c, t, |Closing(c, t)|);
    assert Closing(c, t)[..|Closing(c, t)|] == Closing(c, t);
    var rows := SliceOf(c, t);
    assert op in RowOps(c.phase, rows);
    var i :| 0 <= i < |rows| && RowOps(c.phase, rows)[i] == op;
    q := rows[i];
  }

  lemma PlanAvoidsKey(c: Cursor, t: Tables, n: nat, r: Row)
    requires TablesOk(t) && Placed(c, t) && BucketOk(r) && n <= |Plan(c, t)|
    requires forall q :: q in t.uniques ==> !SameKey(q, r)
    ensures forall op :: op in Plan(c, t)[..n] && op.Set? ==> op.key != UniqueKey(r)
  {
    hide Plan, RowOp, UniqueKey, BucketOk, SameKey, Placed;
    forall op | op in Plan(c, t)[..n] && op.Set?
      ensures op.key != UniqueKey(r)
    {
      var q := SetsRow(c, t, op);
      UniqueKeyInjective(q, r);
    }
  }

  /** A trigger whose window holds no visitor of a day leaves the day's key, and the day's value, as they were. */
  lemma UntouchedDay(kv: Store, now: nat, trig: Trigger, events: seq<Event>, leq: Order, r: Row, since: nat)
    requires TotalOrder(leq) && HoursOk(events) && Sound(kv, now, events, leq) && TriggerOk(kv, now, trig, events)
    requires var c := StartCursor(kv, trig.now);
      && BucketOk(r) && since <= c.from
      && forall q :: q in WindowTables(events, c.from, c.to, leq).uniques ==> !SameKey(q, r)
    ensures ReadNum(Step(kv, trig, leq), UniqueKey(r)) == ReadNum(kv, UniqueKey(r))
    ensures var c := StartCursor(kv, trig.now); DayValue(events, since, c.from, r) == DayValue(events, since, c.to, r)
  {
    hide Plan, ApplyAll, TablesOf, WindowTables, TablesOk, Placed, UniqueKey, HalveChunk, TotalOrder, TriggerOk, Sound,
      ReadNum, BucketOk, DayValue, InFamily;
    Start(kv, now, trig, events, leq);
    AnySlot(kv);
    KeyHeads(r);
    var c, t := StartCursor(kv, trig.now), TriggerTables(trig, leq);
    var ops, n := TriggerPlan(kv, trig, leq), Done(kv, trig, leq);
    PlanInFamily(c, t, ANY);
    PrefixInFamily(ops, n);
    PlanAvoidsKey(c, t, n, r);
    OthersKeepKey(kv, ops[..n], UniqueKey(r));
    HalvingKeepsKey(ApplyAll(kv, ops[..n]), r);
    assert ops[..|ops|] == ops;
    AbsentIsQuiet(events, c.from, c.to, leq, r);
    WindowForward(c, t);
    QuietKeepsDayValue(events, since, c.from, c.to, r);
  }

  lemma WindowForward(c: Cursor, t: Tables)
    requires Placed(c, t)
    ensures c.from <= c.to
  {}

  lemma HalvingKeepsKey(kv: Store, r: Row)
    ensures ReadNum(HalveChunk(kv), UniqueKey(r)) == ReadNum(kv, UniqueKey(r))
  {
    FixedKeys();
    KeyHeads(r);
  }

  // -------------------------------------------------------------------------- a divided day

  /** What is left of the current pass. */
  ghost function WorkLeft(kv: Store, now: nat, events: seq<Event>, leq: Order): (n: nat)
  {
    var c := StartCursor(kv, now);
    var t := WindowTables(events, c.from, c.to, leq);
    if c.offset <= |ListOf(t, c.phase)| then Work(c, t) else 0
  }

  lemma RunSnoc(kv: Store, start: nat, trigs: seq<Trigger>, trig: Trigger, events: seq<Event>, leq: Order)
    requires RunOk(kv, start, trigs, events, leq) && TriggerOk(Run(kv, trigs, leq), Clock(start, trigs), trig, events)
    ensures RunOk(kv, start, trigs + [trig], events, leq) && Clock(start, trigs + [trig]) == trig.now
    ensures Run(kv, trigs + [trig], leq) == Step(Run(kv, trigs, leq), trig, leq)
    ensures var c := StartCursor(Run(kv, trigs, leq), trig.now);
      Windows(kv, trigs + [trig], leq) == Windows(kv, trigs, leq) +
        if Commits(Run(kv, trigs, leq), trig, leq) && Completes(c, TriggerTables(trig, leq)) then [(c.from, c.to)]
        else []
  {
    hide Step, TriggerOk, Commits, Completes;
    assert (trigs + [trig])[..|trigs|] == trigs;
  }

  lemma LiveTrigger(kv: Store, clock: nat, now: nat, events: seq<Event>) returns (trig: Trigger)
    requires HoursOk(events) && clock <= now
    ensures TriggerOk(kv, clock, trig, events) && trig.now == now && trig.death == None
  {
    trig := TriggersExist(kv, now, events, None);
  }

  /** From every point of every run the current pass, or a new one, can be completed by triggers that do not fail. */
  lemma {:induction false} FinishPass(
      kv0: Store, start: nat, trigs: seq<Trigger>, now: nat, events: seq<Event>, leq: Order)
      returns (front: seq<Trigger>, last: Trigger)
    requires TotalOrder(leq) && HoursOk(events) && Idle(kv0, start)
    requires RunOk(kv0, start, trigs, events, leq) && Clock(start, trigs) <= now
    ensures RunOk(kv0, start, front, events, leq) && trigs <= front
    ensures TriggerOk(Run(kv0, front, leq), Clock(start, front), last, events) && last.now == now
    ensures var c, d := StartCursor(Run(kv0, trigs, leq), now), StartCursor(Run(kv0, front, leq), now);
      && Commits(Run(kv0, front, leq), last, leq) && Completes(d, TriggerTables(last, leq))
      && d.from == c.from && d.to == c.to && Windows(kv0, front, leq) == Windows(kv0, trigs, leq)
    decreases WorkLeft(Run(kv0, trigs, leq), now, events, leq)
  {
    hide TotalOrder, RunOk, TriggerOk, Commits, Run, Windows, Sound, Step, TablesOf, WindowTables;
    var kv := Run(kv0, trigs, leq);
    last := LiveTrigger(kv, Clock(start, trigs), now, events);
    LiveCommits(kv, last, leq);
    RunSound(kv0, start, trigs, events, leq);
    LiveStep(kv, Clock(start, trigs), last, events, leq);
    front := trigs;
    if !Completes(StartCursor(kv, now), TriggerTables(last, leq)) {
      RunSnoc(kv0, start, trigs, last, events, leq);
      front, last := FinishPass(kv0, start, trigs + [last], now, events, leq);
    }
  }

  lemma LiveStep(kv: Store, clock: nat, trig: Trigger, events: seq<Event>, leq: Order)
    requires TotalOrder(leq) && HoursOk(events) && Sound(kv, clock, events, leq) && TriggerOk(kv, clock, trig, events)
    requires Commits(kv, trig, leq)
    ensures var c, d, now := StartCursor(kv, trig.now), StartCursor(Step(kv, trig, leq), trig.now), trig.now;
      !Completes(c, TriggerTables(trig, leq)) ==>
        && d.from == c.from && d.to == c.to
        && WorkLeft(Step(kv, trig, leq), now, events, leq) < WorkLeft(kv, now, events, leq)
  {
    Start(kv, clock, trig, events, leq);
    AnySlot(kv);
    var c, t := StartCursor(kv, trig.now), TriggerTables(trig, leq);
    hide Step, Completes, NextCursor, WindowTables, TablesOf, TablesOk, Commits, SlotOk, TotalOrder, TriggerOk, Trips,
      Sound;
    if !Completes(c, t) {
      AdvanceControl(kv, clock, trig, c, t, events, leq, ANY);
      NextKeepsWindow(c, t);
      WorkShrinks(c, t);
    }
  }

  /** The one row of a window with a single hour group. */
  lemma SingleHour(events: seq<Event>, from: nat, to: nat, leq: Order, hour: string, k: nat)
    requires TotalOrder(leq) && ColonFree(Day(hour)) && HourGroups(events, from, to) == [Row("dl", "x", hour, k)]
    ensures Row("dl", "x", Day(hour), k) in WindowTables(events, from, to, leq).uniques
  {
    hide HourGroups, TotalOrder, Sort, Tally, DistinctLabels;
    var g := Row("dl", "x", hour, k);
    var r := g.(part := Day(hour));
    assert "x"[0] == 'x' && BucketOk(g);
    assert [g][1..] == [];
    assert Keep([g], BucketOk) == [g];
    assert SumWhere([g], HourOf(r)) == k + SumWhere([], HourOf(r));
    assert g in [g] && HourOf(r)(g);
    TallyMember([g], r);
    DayLabelsDistinct([g]);
    SortFacts(Tally(Days([g])), leq, _ => true);
  }

  lemma SingleHourValue(events: seq<Event>, from: nat, to: nat, hour: string, k: nat, r: Row)
    requires HourGroups(events, from, to) == [Row("dl", "x", hour, k)] && SameKey(r, Row("dl", "x", Day(hour), k))
    ensures DayValue(events, from, to, r) == k
  {
    hide HourGroups;
    var g := Row("dl", "x", hour, k);
    assert [g][1..] == [] && HourOf(r)(g);
    assert SumWhere([g], HourOf(r)) == k + SumWhere([], HourOf(r));
  }

  /** Completing the pass that `trigs` left open, or a new one, as a run. */
  lemma CompletedRun(kv0: Store, start: nat, trigs: seq<Trigger>, now: nat, events: seq<Event>, leq: Order, r: Row)
      returns (all: seq<Trigger>)
    requires TotalOrder(leq) && HoursOk(events) && Idle(kv0, start)
    requires RunOk(kv0, start, trigs, events, leq) && Clock(start, trigs) <= now &&
      ReadCursor(Run(kv0, trigs, leq)) == None
    ensures RunOk(kv0, start, all, events, leq) && Clock(start, all) == now
    ensures var from, kv := Watermark(Run(kv0, trigs, leq)), Run(kv0, all, leq);
      && ReadCursor(kv) == None && Watermark(kv) == now
      && Windows(kv0, all, leq) == Windows(kv0, trigs, leq) + [(from, now)]
      && (r in WindowTables(events, from, now, leq).uniques ==> ReadNum(kv, UniqueKey(r)) == r.n)
  {
    hide TotalOrder, RunOk, TriggerOk, Commits, Run, Windows, Sound, Step, TablesOf, WindowTables, Completes,
      UniqueKey, ReadNum;
    var front, last := FinishPass(kv0, start, trigs, now, events, leq);
    var kv := Run(kv0, front, leq);
    RunSnoc(kv0, start, front, last, events, leq);
    RunSound(kv0, start, front, events, leq);
    CompletingCloses(kv, Clock(start, front), last, events, leq);
    CompletionMark(kv, Clock(start, front), last, events, leq);
    if r in WindowTables(events, Watermark(Run(kv0, trigs, leq)), now, leq).uniques {
      DailyKeysHoldWindow(kv0, start, front, last, events, leq, r);
    }
    all := front + [last];
  }

  lemma CompletionMark(kv: Store, now: nat, trig: Trigger, events: seq<Event>, leq: Order)
    requires TotalOrder(leq) && HoursOk(events) && Sound(kv, now, events, leq) && TriggerOk(kv, now, trig, events)
    requires Commits(kv, trig, leq) && Completes(StartCursor(kv, trig.now), TriggerTables(trig, leq))
    ensures Watermark(Step(kv, trig, leq)) == StartCursor(kv, trig.now).to
  {
    Start(kv, now, trig, events, leq);
    AnySlot(kv);
    hide Step, Watermark, Completes, TablesOf, TablesOk, Commits, SlotOk, TotalOrder, TriggerOk, WindowTables;
    CompletionControl(kv, trig, leq, StartCursor(kv, trig.now), TriggerTables(trig, leq), ANY);
  }

  lemma EmptyRun(events: seq<Event>, leq: Order)
    ensures Idle(map[], 0) && RunOk(map[], 0, [], events, leq) && Run(map[], [], leq) == map[]
    ensures Windows(map[], [], leq) == [] && Clock(0, []) == 0 && Watermark(map[]) == 0
  {}

  /**
   * Two visitors of one hour whose visits fall into different windows: the day's value is two,
   * but after both passes have completed the day's key holds the one the second pass saw.
   */
  lemma DividedDay(hour: string, leq: Order) returns (trigs: seq<Trigger>)
    requires TotalOrder(leq) && ColonFree(Day(hour))
    ensures var events := [Event(10, "dl", "x", "1", hour, "a", 1), Event(30, "dl", "x", "1", hour, "b", 1)];
      var r := Row("dl", "x", Day(hour), 1);
      && RunOk(map[], 0, trigs, events, leq) && Windows(map[], trigs, leq) == [(0, 20), (20, 40)]
      && ReadNum(Run(map[], trigs, leq), UniqueKey(r)) == 1 && DayValue(events, 0, 40, r) == 2
  {
    hide TotalOrder, WindowTables, HourGroups, RunOk, Run, Windows, UniqueKey, ReadNum, DayValue, ReadCursor, Watermark;
    var a, b := Event(10, "dl", "x", "1", hour, "a", 1), Event(30, "dl", "x", "1", hour, "b", 1);
    var events, r := [a, b], Row("dl", "x", Day(hour), 1);
    assert "a"[0] != "b"[0];
    TwoVisitors(a, b, 0, 40);
    LateVisitor(a, b, 20, 40);
    SingleHourValue(events, 0, 40, hour, 2, r);
    SingleHour(events, 20, 40, leq, hour, 1);
    EmptyRun(events, leq);
    var first := CompletedRun(map[], 0, [], 20, events, leq, r);
    trigs := CompletedRun(map[], 0, first, 40, events, leq, r);
    assert [(0, 20)] + [(20, 40)] == [(0, 20), (20, 40)] && [] + [(0, 20)] == [(0, 20)];
  }

  lemma TwoVisitors(a: Event, b: Event, from: nat, to: nat)
    requires from < a.at <= to && from < b.at <= to && a.identity != "" && b.identity != "" && a.identity != b.identity
    requires a.kind == b.kind && a.plugin == b.plugin && a.hour == b.hour
    ensures HourGroups([a, b], from, to) == [Row(a.kind, a.plugin, a.hour, 2)]
  {
    var row := Row(a.kind, a.plugin, a.hour, 0);
    assert [a, b][1..] == [b] && [b][1..] == [];
    assert HourRows([b], from, to) == [row] + HourRows([], from, to);
    assert HourRows([a, b], from, to) == [row, row];
    assert [row][..0] == [] && [row, row][..1] == [row];
    assert Tally([row]) == [row];
    assert Tally([row, row]) == [row];
    assert a in [a, b] && b in [a, b];
    assert Identities([a, b], from, to, row) == {a.identity, b.identity};
  }

  lemma LateVisitor(a: Event, b: Event, from: nat, to: nat)
    requires a.at <= from < b.at <= to && b.identity != ""
    ensures HourGroups([a, b], from, to) == [Row(b.kind, b.plugin, b.hour, 1)]
  {
    var row := Row(b.kind, b.plugin, b.hour, 0);
    assert [a, b][1..] == [b] && [b][1..] == [];
    assert HourRows([b], from, to) == [row] + HourRows([], from, to);
    assert HourRows([a, b], from, to) == [] + HourRows([b], from, to);
    assert [row][..0] == [];
    assert Tally([row]) == [row];
    assert b in [a, b];
    assert Identities([a, b], from, to, row) == {b.identity};
  }
}
