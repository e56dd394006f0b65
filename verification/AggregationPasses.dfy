/** What the balanced books mean: nothing is under-counted, windows tile time, passes end. */
module AggregationPasses {
  import opened Options
  import opened StatsRows
  import opened Aggregation
  import opened AggregationEffects
  import opened AggregationLedger
  import opened AggregationRuns

  // --------------------------------------------------------------- nothing is under-counted

  /** A watermark that moved before the cursor was dropped is paid for by the excess. */
  ghost predicate Covered(kv: Store, events: seq<Event>, leq: Order, s: Slot, x: nat)
  {
    match ReadCursor(kv)
    case None => true
    case Some(c) => s.InSummary? && Watermark(kv) != c.from ==> x >= Total(WindowTables(events, c.from, c.to, leq), s)
  }

  /** A completing trigger that dies just before dropping its cursor has already written the summary. */
  lemma LateDeathPays(c: Cursor, t: Tables, s: Slot)
    requires TablesOk(t) && Placed(c, t) && SlotOk(s) && Completes(c, t) && s.InSummary?
    ensures CommitIndex(c, t) <= |Plan(c, t)| && Added(Plan(c, t)[..CommitIndex(c, t)], s) >= Total(t, s)
  {
    var rows, closing := RowOps(c.phase, SliceOf(c, t)), Closing(c, t);
    assert Plan(c, t)[..CommitIndex(c, t)] == rows + closing[..2];
    AddedAppend(rows, closing[..2], s);
    assert Added(closing[..2], s) == OpAdds(closing[0], s) + Added(closing[..2][1..], s);
  }

  lemma StepCovered(kv: Store, now: nat, trig: Trigger, events: seq<Event>, leq: Order, s: Slot, x: nat)
    requires TotalOrder(leq) && HoursOk(events) && SlotOk(s)
    requires Sound(kv, now, events, leq) && TriggerOk(kv, now, trig, events) && Clean(kv, s) &&
      Covered(kv, events, leq, s, x)
    ensures Covered(Step(kv, trig, leq), events, leq, s, x + Lost(kv, trig, leq, s))
  {
    Start(kv, now, trig, events, leq);
    var c, t := StartCursor(kv, trig.now), TriggerTables(trig, leq);
    hide ApplyAll, Added, ReadSlot, Clean, WindowTables, TablesOk, TablesOf, ReadCursor, Watermark, Plan, Step,
      Completes, NextCursor, TotalOrder, Total, CommitIndex, TriggerOk, Sound;
    if !Commits(kv, trig, leq) {
      DeathControl(kv, now, trig, c, t, events, leq, s);
      if Completes(c, t) && s.InSummary? { LateDeathPays(c, t, s); }
    } else if Completes(c, t) {
      CompletionControl(kv, trig, leq, c, t, s);
    } else {
      AdvanceControl(kv, now, trig, c, t, events, leq, s);
      NextKeepsWindow(c, t);
    }
  }

  lemma AdvanceControl(
      kv: Store, now: nat, trig: Trigger, c: Cursor, t: Tables, events: seq<Event>, leq: Order, s: Slot)
    requires Works(kv, now, trig, c, t, events, leq) && SlotOk(s) && Commits(kv, trig, leq) && !Completes(c, t)
    ensures ReadCursor(Step(kv, trig, leq)) == Some(NextCursor(c, t)) && Watermark(Step(kv, trig, leq)) == Watermark(kv)
  {
    hide ApplyAll, WindowTables, TablesOk, TablesOf, ReadCursor, Watermark, Plan, NextCursor;
    AfterAdvance(kv, c, t, s);
    var ops := TriggerPlan(kv, trig, leq);
    assert ops[..|ops|] == ops;
  }

  lemma {:induction false} RunCovered(
      kv0: Store, start: nat, trigs: seq<Trigger>, events: seq<Event>, leq: Order, s: Slot)
    requires TotalOrder(leq) && HoursOk(events) && SlotOk(s) && Clean(kv0, s) && Idle(kv0, start)
    requires RunOk(kv0, start, trigs, events, leq)
    ensures Covered(Run(kv0, trigs, leq), events, leq, s, Excess(kv0, trigs, leq, s))
    decreases |trigs|
  {
    hide Covered, Step, TotalOrder, TriggerOk, Lost, Sound, HoursOk, SlotOk, Clean, ReadCursor, Watermark, ReadSlot,
      EventSum, WindowTables;
    if trigs == [] {
      CoveredIdle(kv0, events, leq, s);
    } else {
      var front, last := trigs[..|trigs| - 1], trigs[|trigs| - 1];
      BooksBalance(kv0, start, front, events, leq, s);
      RunCovered(kv0, start, front, events, leq, s);
      StepCovered(Run(kv0, front, leq), Clock(start, front), last, events, leq, s, Excess(kv0, front, leq, s));
    }
  }

  lemma CoveredIdle(kv: Store, events: seq<Event>, leq: Order, s: Slot)
    requires ReadCursor(kv) == None
    ensures Covered(kv, events, leq, s, 0)
  {}

  /** However triggers fail, every counter is at least the number of its events up to the watermark. */
  lemma NeverUnderCounts(kv0: Store, start: nat, trigs: seq<Trigger>, events: seq<Event>, leq: Order, s: Slot)
    requires TotalOrder(leq) && HoursOk(events) && SlotOk(s) && Clean(kv0, s) && Idle(kv0, start)
    requires RunOk(kv0, start, trigs, events, leq)
    ensures var kv := Run(kv0, trigs, leq);
      && Watermark(kv0) <= Watermark(kv)
      && ReadSlot(kv, s) >= ReadSlot(kv0, s) + EventSum(events, Watermark(kv0), Watermark(kv), s)
  {
    hide ReadSlot, Clean, WindowTables, ReadCursor, Watermark, EventSum, TotalOrder, Run, RunOk, Excess, Total;
    BooksBalance(kv0, start, trigs, events, leq, s);
    RunCovered(kv0, start, trigs, events, leq, s);
    var kv := Run(kv0, trigs, leq);
    if ReadCursor(kv).Some? && Watermark(kv) != ReadCursor(kv).value.from {
      var c := ReadCursor(kv).value;
      SplitSum(events, Watermark(kv0), c.from, c.to, s);
      TotalIsEventSum(events, c.from, c.to, leq, s);
    }
  }

  // ------------------------------------------------------------------ no trigger fails

  ghost predicate AllLive(trigs: seq<Trigger>)
  {
    forall i :: 0 <= i < |trigs| ==> trigs[i].death == None
  }

  lemma LiveCommits(kv: Store, trig: Trigger, leq: Order)
    requires trig.death == None
    ensures Commits(kv, trig, leq)
  {
    hide Plan, CommitIndex, TablesOf;
    PlanLength(StartCursor(kv, trig.now), TriggerTables(trig, leq));
  }

  lemma {:induction false} LiveExcess(kv: Store, trigs: seq<Trigger>, leq: Order, s: Slot)
    requires AllLive(trigs)
    ensures Excess(kv, trigs, leq, s) == 0
    decreases |trigs|
  {
    hide Commits, Step, Run;
    if trigs != [] {
      var front := trigs[..|trigs| - 1];
      LiveExcess(kv, front, leq, s);
      LiveCommits(Run(kv, front, leq), trigs[|trigs| - 1], leq);
    }
  }

  /** Without failures, a finished pass leaves exactly what one-shot aggregation would, for every chunking. */
  lemma ChunkedEqualsOneShot(kv0: Store, start: nat, trigs: seq<Trigger>, events: seq<Event>, leq: Order, s: Slot)
    requires TotalOrder(leq) && HoursOk(events) && SlotOk(s) && Clean(kv0, s) && Idle(kv0, start)
    requires RunOk(kv0, start, trigs, events, leq) && AllLive(trigs) && ReadCursor(Run(kv0, trigs, leq)) == None
    ensures var kv := Run(kv0, trigs, leq);
      ReadSlot(kv, s) == ReadSlot(kv0, s) + EventSum(events, Watermark(kv0), Watermark(kv), s)
  {
    hide ReadSlot, Clean, WindowTables, ReadCursor, Watermark, EventSum, TotalOrder, Run, RunOk, Excess;
    BooksBalance(kv0, start, trigs, events, leq, s);
    LiveExcess(kv0, trigs, leq, s);
  }

  // ------------------------------------------------------------------- windows tile time

  /** The windows of the passes a run completes. */
  ghost function Windows(kv: Store, trigs: seq<Trigger>, leq: Order): (ws: seq<(nat, nat)>)
  {
    if trigs == [] then []
    else
      var front, last := trigs[..|trigs| - 1], trigs[|trigs| - 1];
      var c := StartCursor(Run(kv, front, leq), last.now);
      Windows(kv, front, leq) +
      if Commits(Run(kv, front, leq), last, leq) && Completes(c, TriggerTables(last, leq)) then [(c.from, c.to)] else []
  }

  /** Each window starts where the one before it ended. */
  predicate Tiles(ws: seq<(nat, nat)>, from: nat, to: nat)
  {
    if ws == [] then from == to
    else
      var last := ws[|ws| - 1];
      last.0 <= last.1 == to && Tiles(ws[..|ws| - 1], from, last.0)
  }

  lemma TilesExtend(ws: seq<(nat, nat)>, from: nat, mid: nat, to: nat)
    requires Tiles(ws, from, mid) && mid <= to
    ensures Tiles(ws + [(mid, to)], from, to)
  {
    var all := ws + [(mid, to)];
    assert all[..|all| - 1] == ws;
  }

  /** Some slot; the cursor does not depend on which. */
  const ANY := Version("dl", "x", "1")

  lemma AnySlot(kv: Store)
    ensures SlotOk(ANY) && Clean(kv, ANY)
  {
    assert ANY.kind == "dl" && ANY.plugin == "x" && ANY.part == "1";
  }

  lemma RunSound(kv0: Store, start: nat, trigs: seq<Trigger>, events: seq<Event>, leq: Order)
    requires TotalOrder(leq) && HoursOk(events) && Idle(kv0, start) && RunOk(kv0, start, trigs, events, leq)
    ensures Sound(Run(kv0, trigs, leq), Clock(start, trigs), events, leq)
  {
    AnySlot(kv0);
    hide SlotOk, Clean, TotalOrder, RunOk, Run, Sound;
    BooksBalance(kv0, start, trigs, events, leq, ANY);
  }

  /** The windows of completed passes cover the time since the start without gap or overlap. */
  lemma {:induction false} WindowsTile(kv0: Store, start: nat, trigs: seq<Trigger>, events: seq<Event>, leq: Order)
    requires TotalOrder(leq) && HoursOk(events) && Idle(kv0, start) && RunOk(kv0, start, trigs, events, leq)
    ensures Tiles(Windows(kv0, trigs, leq), Watermark(kv0), Settled(Run(kv0, trigs, leq)))
    decreases |trigs|
  {
    hide Step, TotalOrder, TriggerOk, Sound, Watermark, Completes, TablesOf, Commits, Settled, Tiles, Works,
      StartCursor;
    if trigs == [] {
      NoWindows(kv0);
    } else {
      var front, last := trigs[..|trigs| - 1], trigs[|trigs| - 1];
      var kv := Run(kv0, front, leq);
      WindowsTile(kv0, start, front, events, leq);
      RunSound(kv0, start, front, events, leq);
      Start(kv, Clock(start, front), last, events, leq);
      WindowMoves(kv, Clock(start, front), last, events, leq);
      var c := StartCursor(kv, last.now);
      TilesExtend(Windows(kv0, front, leq), Watermark(kv0), c.from, c.to);
      assert Windows(kv0, front, leq) + [] == Windows(kv0, front, leq);
    }
  }

  lemma NoWindows(kv: Store)
    requires ReadCursor(kv) == None
    ensures Tiles([], Watermark(kv), Settled(kv))
  {}

  lemma WindowMoves(kv: Store, now: nat, trig: Trigger, events: seq<Event>, leq: Order)
    requires Works(kv, now, trig, StartCursor(kv, trig.now), TriggerTables(trig, leq), events, leq)
    ensures var c := StartCursor(kv, trig.now);
      && c.from == Settled(kv) && c.from <= c.to
      && Settled(Step(kv, trig, leq))
         == if Commits(kv, trig, leq) && Completes(c, TriggerTables(trig, leq)) then c.to else c.from
  {
    var c, t := StartCursor(kv, trig.now), TriggerTables(trig, leq);
    hide Step, Watermark, ReadCursor, Completes, NextCursor, WindowTables, TablesOf, TablesOk, Commits;
    if !Commits(kv, trig, leq) {
      DeathControl(kv, now, trig, c, t, events, leq, ANY);
    } else if Completes(c, t) {
      CompletionControl(kv, trig, leq, c, t, ANY);
    } else {
      AdvanceControl(kv, now, trig, c, t, events, leq, ANY);
      NextKeepsWindow(c, t);
    }
  }

  /** In tiled windows every instant falls into exactly one. */
  lemma {:induction false} ExactlyOneWindow(ws: seq<(nat, nat)>, from: nat, to: nat, at: nat)
    requires Tiles(ws, from, to)
    ensures from <= to
    ensures from < at <= to <==> exists i :: 0 <= i < |ws| && ws[i].0 < at <= ws[i].1
    ensures forall i, j :: 0 <= i < |ws| && 0 <= j < |ws| && ws[i].0 < at <= ws[i].1 && ws[j].0 < at <= ws[j].1 ==>
      i == j
    decreases |ws|
  {
    if ws != [] {
      var front, last := ws[..|ws| - 1], ws[|ws| - 1];
      ExactlyOneWindow(front, from, last.0, at);
      forall i | 0 <= i < |front| ensures front[i] == ws[i] {}
      if from < at <= last.0 {
        var i :| 0 <= i < |front| && front[i].0 < at <= front[i].1;
        assert ws[i].0 < at <= ws[i].1;
      } else if last.0 < at <= to {
        assert ws[|ws| - 1].0 < at <= ws[|ws| - 1].1;
      }
    }
  }
}
