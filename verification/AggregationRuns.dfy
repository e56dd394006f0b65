/**
 * The books of the aggregation over whole runs: what every counter holds after
 * any sequence of triggers, some of which die after any of their writes.
 */
module AggregationRuns {
  import opened Options
  import opened StatsRows
  import opened Aggregation
  import opened AggregationEffects
  import opened AggregationLedger

  // ------------------------------------------------------------------------- runs

  function TriggerTables(trig: Trigger, leq: Order): (t: Tables)
  {
    TablesOf(trig.rawCounts, trig.rawUniques, leq)
  }

  function TriggerPlan(kv: Store, trig: Trigger, leq: Order): (ops: seq<Op>)
  {
    Plan(StartCursor(kv, trig.now), TriggerTables(trig, leq))
  }

  /** How many of its writes a trigger gets done. */
  function Done(kv: Store, trig: Trigger, leq: Order): (n: nat)
    ensures n <= |TriggerPlan(kv, trig, leq)|
  {
    var n := |TriggerPlan(kv, trig, leq)|;
    match trig.death
    case None => n
    case Some(d) => Min(d.after, n)
  }

  /** The index of the write that persists the cursor, or finally deletes it. */
  function CommitIndex(c: Cursor, t: Tables): (i: nat)
  {
    |SliceOf(c, t)| + if Completes(c, t) then 2 else 0
  }

  predicate Commits(kv: Store, trig: Trigger, leq: Order)
  {
    Done(kv, trig, leq) > CommitIndex(StartCursor(kv, trig.now), TriggerTables(trig, leq))
  }

  /** The store after a run. */
  ghost function Run(kv: Store, trigs: seq<Trigger>, leq: Order): (out: Store)
  {
    if trigs == [] then kv else Step(Run(kv, trigs[..|trigs| - 1], leq), trigs[|trigs| - 1], leq)
  }

  ghost function Clock(start: nat, trigs: seq<Trigger>): (now: nat)
  {
    if trigs == [] then start else trigs[|trigs| - 1].now
  }

  /** The trigger comes no earlier than `now` and both queries answer for the window it works on. */
  ghost predicate TriggerOk(kv: Store, now: nat, trig: Trigger, events: seq<Event>)
  {
    var c := StartCursor(kv, trig.now);
    && now <= trig.now
    && AnswersCounts(trig.rawCounts, events, c.from, c.to)
    && AnswersUniques(trig.rawUniques, events, c.from, c.to)
  }

  ghost predicate RunOk(kv: Store, start: nat, trigs: seq<Trigger>, events: seq<Event>, leq: Order)
  {
    trigs == [] ||
    var front, last := trigs[..|trigs| - 1], trigs[|trigs| - 1];
    RunOk(kv, start, front, events, leq) && TriggerOk(Run(kv, front, leq), Clock(start, front), last, events)
  }

  /** What a trigger that died before its commit had already written. */
  function Lost(kv: Store, trig: Trigger, leq: Order, s: Slot): (n: nat)
  {
    if Commits(kv, trig, leq) then 0 else Added(TriggerPlan(kv, trig, leq)[..Done(kv, trig, leq)], s)
  }

  ghost function Excess(kv: Store, trigs: seq<Trigger>, leq: Order, s: Slot): (n: nat)
  {
    if trigs == [] then 0
    else
      var front := trigs[..|trigs| - 1];
      Excess(kv, front, leq, s) + Lost(Run(kv, front, leq), trigs[|trigs| - 1], leq, s)
  }

  /** The time up to which completed passes have counted. */
  function Settled(kv: Store): (t: nat)
  {
    match ReadCursor(kv)
    case Some(c) => c.from
    case None => Watermark(kv)
  }

  /** What the persisted cursor of an unfinished pass vouches for. */
  function Held(kv: Store, events: seq<Event>, leq: Order, s: Slot): (n: nat)
  {
    match ReadCursor(kv)
    case Some(c) => Progress(c, WindowTables(events, c.from, c.to, leq), s)
    case None => 0
  }

  /** Cursor and watermark are consistent and not in the future. */
  ghost predicate Sound(kv: Store, now: nat, events: seq<Event>, leq: Order)
  {
    && Watermark(kv) <= now
    && match ReadCursor(kv)
       case None => true
       case Some(c) =>
         && c.to <= now && Placed(c, WindowTables(events, c.from, c.to, leq))
         && (Watermark(kv) == c.from || (Watermark(kv) == c.to && c.phase == Uniques))
  }

  /** The books of one slot: opening balance, settled events, persisted progress, excess. */
  ghost predicate Balanced(kv0: Store, kv: Store, events: seq<Event>, leq: Order, s: Slot, excess: nat)
  {
    && Clean(kv, s) && Watermark(kv0) <= Settled(kv)
    && ReadSlot(kv, s) == ReadSlot(kv0, s) + EventSum(events, Watermark(kv0), Settled(kv), s) +
      Held(kv, events, leq, s) + excess
  }

  // ----------------------------------------------------------------- one trigger's effect

  /** A trigger whose cursor is consistent, together with the lists it works on. */
  ghost predicate Works(kv: Store, now: nat, trig: Trigger, c: Cursor, t: Tables, events: seq<Event>, leq: Order)
  {
    && c == StartCursor(kv, trig.now) && t == TriggerTables(trig, leq) && t == WindowTables(events, c.from, c.to, leq)
    && TablesOk(t) && Placed(c, t) && c.to <= trig.now && now <= trig.now && c.from == Settled(kv)
    && (ReadCursor(kv).None? ==> c.phase == Counts && c.offset == 0)
    && (Watermark(kv) == c.from || (Watermark(kv) == c.to && c.phase == Uniques))
  }

  lemma Start(kv: Store, now: nat, trig: Trigger, events: seq<Event>, leq: Order)
    requires TotalOrder(leq) && HoursOk(events) && Sound(kv, now, events, leq) && TriggerOk(kv, now, trig, events)
    ensures Works(kv, now, trig, StartCursor(kv, trig.now), TriggerTables(trig, leq), events, leq)
  {
    hide TotalOrder, TablesOk, WindowTables, TablesOf, AnswersCounts, AnswersUniques;
    var c := StartCursor(kv, trig.now);
    AnswersYieldTables(trig.rawCounts, trig.rawUniques, events, c.from, c.to, leq);
    WindowTablesOk(events, c.from, c.to, leq);
  }

  /** Whatever the store and the time, a trigger that meets the assumptions exists. */
  lemma TriggersExist(kv: Store, now: nat, events: seq<Event>, death: Option<Death>) returns (trig: Trigger)
    requires HoursOk(events)
    ensures TriggerOk(kv, now, trig, events) && trig.now == now && trig.death == death
  {
    hide CountGroups, HourGroups;
    var c := StartCursor(kv, now);
    CountGroupsAnswer(events, c.from, c.to);
    HourGroupsOf(events, c.from, c.to);
    trig := Trigger(now, CountGroups(events, c.from, c.to), HourGroups(events, c.from, c.to), death);
  }

  lemma CountGroupsAnswer(events: seq<Event>, from: nat, to: nat)
    ensures AnswersCounts(CountGroups(events, from, to), events, from, to)
  {
    TallyFacts(EventRows(events, from, to), _ => true);
  }

  lemma PrefixInFamily(ops: seq<Op>, n: nat)
    requires AllInFamily(ops) && n <= |ops|
    ensures AllInFamily(ops[..n])
  {}

  /** All writes of a plan stay in their families. */
  lemma PlanInFamily(c: Cursor, t: Tables, s: Slot)
    requires TablesOk(t) && Placed(c, t) && SlotOk(s)
    ensures AllInFamily(Plan(c, t))
  {
    if Completes(c, t) { PlanCompletes(c, t, s); } else { PlanAdvances(c, t, s); }
  }

  /** Slots move by what was written, whether or not the catch block ran. */
  lemma StepAdds(kv: Store, trig: Trigger, leq: Order, s: Slot)
    requires SlotOk(s) && Clean(kv, s) && AllInFamily(TriggerPlan(kv, trig, leq))
    ensures Clean(Step(kv, trig, leq), s)
    ensures ReadSlot(Step(kv, trig, leq), s) ==
      ReadSlot(kv, s) + Added(TriggerPlan(kv, trig, leq)[..Done(kv, trig, leq)], s)
  {
    hide Plan, ApplyAll, Added, ReadSlot, Clean, HalveChunk, InFamily, StartCursor;
    var ops, n := TriggerPlan(kv, trig, leq), Done(kv, trig, leq);
    PrefixInFamily(ops, n);
    ApplyAllAdds(kv, ops[..n], s);
    HalvingKeepsCounters(ApplyAll(kv, ops[..n]), s);
    assert ops[..|ops|] == ops;
  }

  lemma ControlInFamily(op: Op)
    requires !op.Add? && !op.Set?
    ensures InFamily(op)
  {}

  /** Row writes leave cursor and watermark alone. */
  lemma RowsKeepControl(kv: Store, c: Cursor, t: Tables, n: nat, s: Slot)
    requires TablesOk(t) && Placed(c, t) && SlotOk(s) && n <= |SliceOf(c, t)|
    ensures n <= |Plan(c, t)|
    ensures ReadCursor(ApplyAll(kv, Plan(c, t)[..n])) == ReadCursor(kv)
    ensures Watermark(ApplyAll(kv, Plan(c, t)[..n])) == Watermark(kv)
  {
    hide ApplyAll, InFamily, Apply, ReadCursor, Watermark, Closing, RowOp;
    var rows := RowOps(c.phase, SliceOf(c, t));
    SliceOk(c, t, s);
    RowOpsAdd(c.phase, SliceOf(c, t), s);
    assert Plan(c, t)[..n] == rows[..n];
    PrefixInFamily(rows, n);
    ApplyAllKeepsCursor(kv, rows[..n]);
  }

  /** The `k`-th closing write, applied on top of the writes before it. */
  lemma ClosingWrite(kv: Store, c: Cursor, t: Tables, k: nat)
    requires k < |Closing(c, t)|
    ensures var n := |SliceOf(c, t)| + k;
      && n < |Plan(c, t)|
      && ApplyAll(kv, Plan(c, t)[..n + 1]) == Apply(ApplyAll(kv, Plan(c, t)[..n]), Closing(c, t)[k])
      && InFamily(Closing(c, t)[k])
  {
    hide ApplyAll, Apply;
    var n := |SliceOf(c, t)| + k;
    assert Plan(c, t)[n] == Closing(c, t)[k];
    ApplyOne(kv, Plan(c, t), n);
    ControlInFamily(Closing(c, t)[k]);
  }

  /** Writes before the commit leave the cursor alone, and the watermark too unless the pass is completing. */
  lemma BeforeCommit(kv: Store, c: Cursor, t: Tables, n: nat, s: Slot)
    requires TablesOk(t) && Placed(c, t) && SlotOk(s) && n <= CommitIndex(c, t)
    ensures n <= |Plan(c, t)|
    ensures ReadCursor(ApplyAll(kv, Plan(c, t)[..n])) == ReadCursor(kv)
    ensures Watermark(ApplyAll(kv, Plan(c, t)[..n])) == if n > |SliceOf(c, t)| + 1 then c.to else Watermark(kv)
  {
    hide ApplyAll, InFamily, Apply, ReadCursor, Watermark, Plan;
    var first := |SliceOf(c, t)|;
    RowsKeepControl(kv, c, t, Min(n, first), s);
    if n > first {
      ClosingWrite(kv, c, t, 0);
      ApplyControl(ApplyAll(kv, Plan(c, t)[..first]), Closing(c, t)[0]);
      if n > first + 1 {
        ClosingWrite(kv, c, t, 1);
        ApplyControl(ApplyAll(kv, Plan(c, t)[..first + 1]), Closing(c, t)[1]);
      }
    }
  }

  /** The commit of a trigger that does not complete the pass persists the next cursor. */
  lemma AfterAdvance(kv: Store, c: Cursor, t: Tables, s: Slot)
    requires TablesOk(t) && Placed(c, t) && SlotOk(s) && !Completes(c, t)
    ensures |Plan(c, t)| == CommitIndex(c, t) + 1
    ensures ReadCursor(ApplyAll(kv, Plan(c, t))) == Some(NextCursor(c, t))
    ensures Watermark(ApplyAll(kv, Plan(c, t))) == Watermark(kv)
  {
    hide ApplyAll, InFamily, Apply, ReadCursor, Watermark;
    var n := CommitIndex(c, t);
    BeforeCommit(kv, c, t, n, s);
    ClosingWrite(kv, c, t, 0);
    ApplyControl(ApplyAll(kv, Plan(c, t)[..n]), Closing(c, t)[0]);
    assert Plan(c, t)[..n + 1] == Plan(c, t);
  }

  /** The commit of a completing trigger moves the watermark and drops the cursor. */
  lemma AfterCompletion(kv: Store, c: Cursor, t: Tables, n: nat, s: Slot)
    requires TablesOk(t) && Placed(c, t) && SlotOk(s) && Completes(c, t) && CommitIndex(c, t) < n <= |Plan(c, t)|
    ensures ReadCursor(ApplyAll(kv, Plan(c, t)[..n])) == None
    ensures Watermark(ApplyAll(kv, Plan(c, t)[..n])) == c.to
    ensures Added(Plan(c, t)[..n], s) == Added(Plan(c, t), s)
  {
    hide ApplyAll, InFamily, Apply, ReadCursor, Watermark;
    var k := CommitIndex(c, t);
    BeforeCommit(kv, c, t, k, s);
    ClosingWrite(kv, c, t, 2);
    ApplyControl(ApplyAll(kv, Plan(c, t)[..k]), Closing(c, t)[2]);
    var ops := Plan(c, t);
    assert |ops| == k + 2;
    if n == |ops| {
      ClosingWrite(kv, c, t, 3);
      ApplyControl(ApplyAll(kv, ops[..k + 1]), Closing(c, t)[3]);
      assert ops[..n] == ops;
    } else {
      assert ops == ops[..n] + [Closing(c, t)[3]];
      AddedAppend(ops[..n], [Closing(c, t)[3]], s);
      assert Added([Closing(c, t)[3]], s) == OpAdds(Closing(c, t)[3], s) + Added([], s);
    }
  }

  // --------------------------------------------------------------- the books balance

  /** A trigger that commits without completing the pass keeps the books balanced. */
  lemma BalanceAdvance(
      kv0: Store, kv: Store, now: nat, trig: Trigger, c: Cursor, t: Tables, events: seq<Event>, leq: Order, s: Slot,
      x: nat)
    requires Works(kv, now, trig, c, t, events, leq) && SlotOk(s) && Balanced(kv0, kv, events, leq, s, x)
    requires Commits(kv, trig, leq) && !Completes(c, t)
    ensures Balanced(kv0, Step(kv, trig, leq), events, leq, s, x) && Sound(Step(kv, trig, leq), trig.now, events, leq)
    ensures ReadCursor(Step(kv, trig, leq)) == Some(NextCursor(c, t))
  {
    hide ApplyAll, Added, ReadSlot, Clean, WindowTables, TablesOk, TablesOf, EventSum, ReadCursor, Watermark,
      InFamily, Plan, NextCursor, Progress;
    AfterAdvance(kv, c, t, s);
    PlanAdvances(c, t, s);
    StepAdds(kv, trig, leq, s);
    var ops := TriggerPlan(kv, trig, leq);
    assert ops[..|ops|] == ops;
    NextKeepsWindow(c, t);
    StartHolds(kv, c, t, events, leq, s);
  }

  lemma NextKeepsWindow(c: Cursor, t: Tables)
    ensures NextCursor(c, t).from == c.from && NextCursor(c, t).to == c.to
    ensures c.phase == Uniques ==> NextCursor(c, t).phase == Uniques
  {}

  /** Before its first write, a pass holds nothing; a resumed pass holds its progress. */
  lemma StartHolds(kv: Store, c: Cursor, t: Tables, events: seq<Event>, leq: Order, s: Slot)
    requires t == WindowTables(events, c.from, c.to, leq)
    requires ReadCursor(kv) == Some(c) || (ReadCursor(kv) == None && c.phase == Counts && c.offset == 0)
    ensures Held(kv, events, leq, s) == Progress(c, t, s)
  {
    hide WindowTables, ReadCursor;
    assert t.counts[..0] == [];
  }

  /** A trigger that commits the completion of a pass settles the whole window. */
  lemma BalanceCompletion(
      kv0: Store, kv: Store, now: nat, trig: Trigger, c: Cursor, t: Tables, events: seq<Event>, leq: Order, s: Slot,
      x: nat)
    requires TotalOrder(leq) && HoursOk(events)
    requires Works(kv, now, trig, c, t, events, leq) && SlotOk(s) && Balanced(kv0, kv, events, leq, s, x)
    requires Commits(kv, trig, leq) && Completes(c, t)
    ensures Balanced(kv0, Step(kv, trig, leq), events, leq, s, x) && Sound(Step(kv, trig, leq), trig.now, events, leq)
    ensures ReadCursor(Step(kv, trig, leq)) == None && Watermark(Step(kv, trig, leq)) == c.to
  {
    hide ApplyAll, Added, ReadSlot, Clean, WindowTables, TablesOk, TablesOf, EventSum, ReadCursor, Watermark,
      InFamily, Plan, Progress, TotalOrder, Total;
    var ops, n := TriggerPlan(kv, trig, leq), Done(kv, trig, leq);
    AfterCompletion(kv, c, t, n, s);
    PlanCompletes(c, t, s);
    StepAdds(kv, trig, leq, s);
    assert ops[..|ops|] == ops;
    StartHolds(kv, c, t, events, leq, s);
    TotalIsEventSum(events, c.from, c.to, leq, s);
    SplitSum(events, Watermark(kv0), c.from, c.to, s);
    CompletionControl(kv, trig, leq, c, t, s);
  }

  lemma SplitSum(events: seq<Event>, a: nat, b: nat, c: nat, s: Slot)
    requires a <= b <= c
    ensures EventSum(events, a, c, s) == EventSum(events, a, b, s) + EventSum(events, b, c, s)
  {
    EventSumSplits(events, a, b, c, Accepted(s));
  }

  lemma CompletionControl(kv: Store, trig: Trigger, leq: Order, c: Cursor, t: Tables, s: Slot)
    requires c == StartCursor(kv, trig.now) && t == TriggerTables(trig, leq) && TablesOk(t) && Placed(c, t) && SlotOk(s)
    requires Commits(kv, trig, leq) && Completes(c, t)
    ensures ReadCursor(Step(kv, trig, leq)) == None && Watermark(Step(kv, trig, leq)) == c.to
  {
    hide ApplyAll, TablesOk, TablesOf, ReadCursor, Watermark, InFamily, Plan, Added;
    var ops, n := TriggerPlan(kv, trig, leq), Done(kv, trig, leq);
    AfterCompletion(kv, c, t, n, s);
    AfterCompletion(kv, c, t, |ops|, s);
    HalvingKeepsCounters(ApplyAll(kv, ops[..n]), s);
    assert ops[..|ops|] == ops;
  }

  /** The same place in the same pass, with a chunk that is no larger. */
  predicate Resumes(c: Cursor, d: Option<Cursor>)
  {
    d.Some? && d.value == c.(chunk := d.value.chunk) && MIN_CHUNK <= d.value.chunk <= c.chunk
  }

  /** A death before the commit leaves the cursor where it was; only its chunk may be halved. */
  lemma DeathControl(kv: Store, now: nat, trig: Trigger, c: Cursor, t: Tables, events: seq<Event>, leq: Order, s: Slot)
    requires Works(kv, now, trig, c, t, events, leq) && SlotOk(s) && !Commits(kv, trig, leq)
    ensures var out := Step(kv, trig, leq);
      && (ReadCursor(kv) == None ==> ReadCursor(out) == None && Watermark(out) == Watermark(kv))
      && (ReadCursor(kv).Some? ==> c == ReadCursor(kv).value && Resumes(c, ReadCursor(out)))
      && (Watermark(out) == Watermark(kv) || (Watermark(out) == c.to && c.phase == Uniques))
      && (Watermark(out) != Watermark(kv) ==> Completes(c, t) && Done(kv, trig, leq) == CommitIndex(c, t))
  {
    hide ApplyAll, TablesOk, TablesOf, WindowTables, ReadCursor, Watermark, InFamily, Plan, Added;
    var ops, n := TriggerPlan(kv, trig, leq), Done(kv, trig, leq);
    BeforeCommit(kv, c, t, n, s);
    HalvingKeepsCounters(ApplyAll(kv, ops[..n]), s);
    assert |ops| > CommitIndex(c, t) by { PlanLength(c, t); }
  }

  lemma PlanLength(c: Cursor, t: Tables)
    ensures |Plan(c, t)| > CommitIndex(c, t)
  {}

  lemma ChunkIrrelevant(c: Cursor, d: Cursor, t: Tables, s: Slot)
    requires d == c.(chunk := d.chunk)
    ensures Progress(d, t, s) == Progress(c, t, s)
    ensures MIN_CHUNK <= d.chunk <= MAX_CHUNK && Placed(c, t) ==> Placed(d, t)
  {}

  /** A trigger that dies before its commit only adds to the excess. */
  lemma BalanceDeath(
      kv0: Store, kv: Store, now: nat, trig: Trigger, c: Cursor, t: Tables, events: seq<Event>, leq: Order, s: Slot,
      x: nat)
    requires Works(kv, now, trig, c, t, events, leq) && SlotOk(s) && Balanced(kv0, kv, events, leq, s, x)
    requires !Commits(kv, trig, leq) && Watermark(kv) <= now
    ensures Balanced(kv0, Step(kv, trig, leq), events, leq, s, x + Lost(kv, trig, leq, s)) &&
      Sound(Step(kv, trig, leq), trig.now, events, leq)
  {
    hide ApplyAll, Added, ReadSlot, Clean, WindowTables, TablesOk, TablesOf, EventSum, ReadCursor, Watermark,
      InFamily, Plan, Progress, Step;
    DeathControl(kv, now, trig, c, t, events, leq, s);
    PlanInFamily(c, t, s);
    StepAdds(kv, trig, leq, s);
    if ReadCursor(kv).Some? {
      ChunkIrrelevant(c, ReadCursor(Step(kv, trig, leq)).value, t, s);
    }
  }

  /** Every trigger keeps the store sound and the books balanced. */
  lemma StepBalanced(kv0: Store, kv: Store, now: nat, trig: Trigger, events: seq<Event>, leq: Order, s: Slot, x: nat)
    requires TotalOrder(leq) && HoursOk(events) && SlotOk(s)
    requires Sound(kv, now, events, leq) && TriggerOk(kv, now, trig, events) && Balanced(kv0, kv, events, leq, s, x)
    ensures Sound(Step(kv, trig, leq), trig.now, events, leq)
    ensures Balanced(kv0, Step(kv, trig, leq), events, leq, s, x + Lost(kv, trig, leq, s))
  {
    hide Balanced, Works, Step, TotalOrder, TriggerOk, Completes, Commits, TriggerTables, StartCursor, HoursOk, SlotOk,
      Added, TriggerPlan, Done, ReadCursor, Watermark, WindowTables, Placed;
    Start(kv, now, trig, events, leq);
    var c, t := StartCursor(kv, trig.now), TriggerTables(trig, leq);
    if !Commits(kv, trig, leq) {
      BalanceDeath(kv0, kv, now, trig, c, t, events, leq, s, x);
    } else if Completes(c, t) {
      BalanceCompletion(kv0, kv, now, trig, c, t, events, leq, s, x);
    } else {
      BalanceAdvance(kv0, kv, now, trig, c, t, events, leq, s, x);
    }
  }

  // ------------------------------------------------------------------ whole-run results

  /** A store between passes, not ahead of the clock. */
  ghost predicate Idle(kv: Store, start: nat)
  {
    ReadCursor(kv) == None && Watermark(kv) <= start
  }

  lemma OpeningBalance(kv0: Store, events: seq<Event>, leq: Order, s: Slot)
    requires ReadCursor(kv0) == None && Clean(kv0, s)
    ensures Balanced(kv0, kv0, events, leq, s, 0)
  {
    hide ReadCursor, ReadSlot, Clean, Watermark;
    EmptyWindowSum(events, Watermark(kv0), Accepted(s));
  }

  /**
   * Over any run, with deaths after any write, every counter holds exactly its opening
   * value, the events of the settled windows, the persisted progress of the current pass,
   * and what triggers that died before their commit had already written.
   */
  lemma {:induction false} BooksBalance(
      kv0: Store, start: nat, trigs: seq<Trigger>, events: seq<Event>, leq: Order, s: Slot)
    requires TotalOrder(leq) && HoursOk(events) && SlotOk(s) && Clean(kv0, s) && Idle(kv0, start)
    requires RunOk(kv0, start, trigs, events, leq)
    ensures Sound(Run(kv0, trigs, leq), Clock(start, trigs), events, leq)
    ensures Balanced(kv0, Run(kv0, trigs, leq), events, leq, s, Excess(kv0, trigs, leq, s))
    decreases |trigs|
  {
    hide Balanced, Step, TotalOrder, TriggerOk, Lost;
    if trigs == [] {
      OpeningBalance(kv0, events, leq, s);
    } else {
      var front, last := trigs[..|trigs| - 1], trigs[|trigs| - 1];
      BooksBalance(kv0, start, front, events, leq, s);
      StepBalanced(kv0, Run(kv0, front, leq), Clock(start, front), last, events, leq, s, Excess(kv0, front, leq, s));
    }
  }
}
