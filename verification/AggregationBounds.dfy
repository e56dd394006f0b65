/** How long a pass takes, how its chunk adapts, and where the promises stop. */
module AggregationBounds {
  import opened Options
  import opened StatsRows
  import opened Aggregation
  import opened AggregationEffects
  import opened AggregationLedger
  import opened AggregationRuns
  import opened AggregationPasses

  // ------------------------------------------------------------------------ passes end

  /** Triggers enough for `n` rows at the smallest chunk; an empty list takes one too. */
  function Trips(n: nat): (k: nat)
    ensures 1 <= k <= (n + 7) / 8 + 1
  {
    if n == 0 then 1 else (n + 7) / 8
  }

  /** Committed triggers enough to finish from a cursor. */
  function Work(c: Cursor, t: Tables): (k: nat)
    requires c.offset <= |ListOf(t, c.phase)|
    ensures k >= 1
  {
    Trips(|ListOf(t, c.phase)| - c.offset) +
    match c.phase
    case Counts => Trips(|t.totals|) + Trips(|t.uniques|)
    case PluginTotals => Trips(|t.uniques|)
    case Uniques => 0
  }

  /** The bound for a whole pass. */
  function PassBound(t: Tables): (k: nat)
    ensures k <= (|t.counts| + 7) / 8 + (|t.totals| + 7) / 8 + (|t.uniques| + 7) / 8 + 3
  {
    Trips(|t.counts|) + Trips(|t.totals|) + Trips(|t.uniques|)
  }

  lemma TripsShrink(n: nat, chunk: nat)
    requires chunk >= MIN_CHUNK && n > chunk
    ensures Trips(n - chunk) < Trips(n)
  {}

  /** Each committed trigger uses up one of the triggers allowed. */
  lemma WorkShrinks(c: Cursor, t: Tables)
    requires Placed(c, t) && !Completes(c, t)
    ensures Placed(NextCursor(c, t), t) && Work(NextCursor(c, t), t) < Work(c, t)
  {
    hide Trips;
    var n := |ListOf(t, c.phase)| - c.offset;
    if n > c.chunk { TripsShrink(n, c.chunk); }
  }

  ghost function CommitCount(kv: Store, trigs: seq<Trigger>, leq: Order): (n: nat)
    ensures n <= |trigs|
  {
    if trigs == [] then 0
    else
      var front := trigs[..|trigs| - 1];
      CommitCount(kv, front, leq) + if Commits(Run(kv, front, leq), trigs[|trigs| - 1], leq) then 1 else 0
  }

  /** After each trigger the pass is still unfinished. */
  ghost predicate StaysOpen(kv: Store, trigs: seq<Trigger>, leq: Order)
  {
    trigs == [] || (ReadCursor(Run(kv, trigs, leq)).Some? && StaysOpen(kv, trigs[..|trigs| - 1], leq))
  }

  /** The pass over a fixed window, with at most `k` more commits to go. */
  ghost predicate InPass(kv: Store, from: nat, to: nat, k: int, events: seq<Event>, leq: Order)
  {
    ReadCursor(kv).Some? &&
    var c, t := ReadCursor(kv).value, WindowTables(events, from, to, leq);
    c.from == from && c.to == to && Placed(c, t) && Work(c, t) <= k
  }

  lemma WorkOfResumed(c: Cursor, d: Cursor, t: Tables)
    requires Placed(c, t) && Resumes(c, Some(d))
    ensures Placed(d, t) && Work(d, t) == Work(c, t)
  {}

  lemma StepInPass(kv: Store, now: nat, trig: Trigger, k: int, events: seq<Event>, leq: Order)
    requires TotalOrder(leq) && HoursOk(events) && Sound(kv, now, events, leq) && TriggerOk(kv, now, trig, events)
    requires var c := StartCursor(kv, trig.now);
      (ReadCursor(kv).None? && k == PassBound(WindowTables(events, c.from, c.to, leq))) ||
        InPass(kv, c.from, c.to, k, events, leq)
    requires ReadCursor(Step(kv, trig, leq)).Some?
    ensures var c := StartCursor(kv, trig.now);
      && InPass(Step(kv, trig, leq), c.from, c.to, k - if Commits(kv, trig, leq) then 1 else 0, events, leq)
      && (ReadCursor(kv).None? ==> Commits(kv, trig, leq))
  {
    Start(kv, now, trig, events, leq);
    AnySlot(kv);
    var c, t := StartCursor(kv, trig.now), TriggerTables(trig, leq);
    hide Step, Watermark, ReadCursor, Completes, NextCursor, WindowTables, TablesOf, TablesOk, Commits, SlotOk,
      TotalOrder, TriggerOk, Trips;
    if !Commits(kv, trig, leq) {
      DeathControl(kv, now, trig, c, t, events, leq, ANY);
      WorkOfResumed(c, ReadCursor(Step(kv, trig, leq)).value, t);
    } else if !Completes(c, t) {
      AdvanceControl(kv, now, trig, c, t, events, leq, ANY);
      NextKeepsWindow(c, t);
      WorkShrinks(c, t);
    } else {
      CompletionControl(kv, trig, leq, c, t, ANY);
    }
  }

  /** While a pass stays open, every commit brings it closer to its end. */
  lemma {:induction false} OpenPassShrinks(kv0: Store, start: nat, trigs: seq<Trigger>, events: seq<Event>, leq: Order)
    requires TotalOrder(leq) && HoursOk(events) && Idle(kv0, start) && RunOk(kv0, start, trigs, events, leq)
    requires trigs != [] && StaysOpen(kv0, trigs, leq)
    ensures var from, to := Watermark(kv0), trigs[0].now;
      InPass(Run(kv0, trigs, leq), from, to,
        PassBound(WindowTables(events, from, to, leq)) - CommitCount(kv0, trigs, leq), events, leq)
    decreases |trigs|
  {
    hide Step, Watermark, WindowTables, Commits, TotalOrder, TriggerOk, PassBound, Placed, Sound, Work;
    var front, last := trigs[..|trigs| - 1], trigs[|trigs| - 1];
    var kv := Run(kv0, front, leq);
    RunSound(kv0, start, front, events, leq);
    var from, to := Watermark(kv0), trigs[0].now;
    var k := PassBound(WindowTables(events, from, to, leq)) - CommitCount(kv0, front, leq);
    if front != [] { OpenPassShrinks(kv0, start, front, events, leq); }
    StepInPass(kv, Clock(start, front), last, k, events, leq);
  }

  /** A pass cannot stay open once as many triggers have committed as its lists take at the smallest chunk. */
  lemma CannotStayOpen(kv0: Store, start: nat, trigs: seq<Trigger>, events: seq<Event>, leq: Order)
    requires TotalOrder(leq) && HoursOk(events) && Idle(kv0, start) && RunOk(kv0, start, trigs, events, leq)
    requires trigs != []
    requires CommitCount(kv0, trigs, leq) >= PassBound(WindowTables(events, Watermark(kv0), trigs[0].now, leq))
    ensures !StaysOpen(kv0, trigs, leq)
  {
    hide Watermark, WindowTables, TotalOrder, PassBound, RunOk, Run, CommitCount, Placed, StaysOpen;
    if StaysOpen(kv0, trigs, leq) {
      OpenPassShrinks(kv0, start, trigs, events, leq);
    }
  }

  /** The first trigger after which the cursor is gone. */
  lemma {:induction false} FirstClosed(kv: Store, trigs: seq<Trigger>, leq: Order) returns (k: nat)
    requires !StaysOpen(kv, trigs, leq)
    ensures 1 <= k <= |trigs| && ReadCursor(Run(kv, trigs[..k], leq)) == None && StaysOpen(kv, trigs[..k - 1], leq)
    decreases |trigs|
  {
    hide Run, ReadCursor;
    var front := trigs[..|trigs| - 1];
    if StaysOpen(kv, front, leq) {
      assert trigs[..|trigs|] == trigs;
      k := |trigs|;
    } else {
      k := FirstClosed(kv, front, leq);
      assert trigs[..k] == front[..k] && trigs[..k - 1] == front[..k - 1];
    }
  }

  lemma {:induction false} RunOkPrefix(
      kv: Store, start: nat, trigs: seq<Trigger>, events: seq<Event>, leq: Order, k: nat)
    requires RunOk(kv, start, trigs, events, leq) && k <= |trigs|
    ensures RunOk(kv, start, trigs[..k], events, leq)
    decreases |trigs|
  {
    hide TriggerOk, Run;
    if k == |trigs| {
      assert trigs[..k] == trigs;
    } else {
      var front := trigs[..|trigs| - 1];
      RunOkPrefix(kv, start, front, events, leq, k);
      assert trigs[..k] == front[..k];
    }
  }

  /** A trigger that finds a cursor and leaves none has committed the completion of its pass. */
  lemma ClosingCompletes(kv: Store, now: nat, trig: Trigger, events: seq<Event>, leq: Order)
    requires TotalOrder(leq) && HoursOk(events) && Sound(kv, now, events, leq) && TriggerOk(kv, now, trig, events)
    requires ReadCursor(kv).Some? && ReadCursor(Step(kv, trig, leq)) == None
    ensures var c := StartCursor(kv, trig.now);
      && Commits(kv, trig, leq) && Completes(c, TriggerTables(trig, leq)) && Watermark(Step(kv, trig, leq)) == c.to
  {
    Start(kv, now, trig, events, leq);
    AnySlot(kv);
    var c, t := StartCursor(kv, trig.now), TriggerTables(trig, leq);
    hide Step, Watermark, ReadCursor, Completes, NextCursor, WindowTables, TablesOf, TablesOk, Commits, SlotOk,
      TotalOrder, TriggerOk;
    if !Commits(kv, trig, leq) {
      DeathControl(kv, now, trig, c, t, events, leq, ANY);
    } else if !Completes(c, t) {
      AdvanceControl(kv, now, trig, c, t, events, leq, ANY);
    } else {
      CompletionControl(kv, trig, leq, c, t, ANY);
    }
  }

  /** A committed trigger that completes its pass leaves no cursor. */
  lemma CompletingCloses(kv: Store, now: nat, trig: Trigger, events: seq<Event>, leq: Order)
    requires TotalOrder(leq) && HoursOk(events) && Sound(kv, now, events, leq) && TriggerOk(kv, now, trig, events)
    requires Commits(kv, trig, leq) && Completes(StartCursor(kv, trig.now), TriggerTables(trig, leq))
    ensures ReadCursor(Step(kv, trig, leq)) == None
  {
    Start(kv, now, trig, events, leq);
    AnySlot(kv);
    hide Step, ReadCursor, Completes, TablesOf, TablesOk, Commits, SlotOk, TotalOrder, TriggerOk, WindowTables;
    CompletionControl(kv, trig, leq, StartCursor(kv, trig.now), TriggerTables(trig, leq), ANY);
  }

  /** While a pass stays open no window has been completed. */
  lemma {:induction false} OpenPassHasNoWindow(
      kv0: Store, start: nat, trigs: seq<Trigger>, events: seq<Event>, leq: Order)
    requires TotalOrder(leq) && HoursOk(events) && Idle(kv0, start) && RunOk(kv0, start, trigs, events, leq)
    requires StaysOpen(kv0, trigs, leq)
    ensures Windows(kv0, trigs, leq) == []
    decreases |trigs|
  {
    hide Step, ReadCursor, Commits, Completes, TotalOrder, TriggerOk, Sound, TablesOf, Watermark;
    if trigs != [] {
      var front, last := trigs[..|trigs| - 1], trigs[|trigs| - 1];
      var kv := Run(kv0, front, leq);
      OpenPassHasNoWindow(kv0, start, front, events, leq);
      RunSound(kv0, start, front, events, leq);
      if Commits(kv, last, leq) && Completes(StartCursor(kv, last.now), TriggerTables(last, leq)) {
        CompletingCloses(kv, Clock(start, front), last, events, leq);
      }
    }
  }

  /** The run has completed one pass, over (from, to]. */
  ghost predicate Settles(kv0: Store, trigs: seq<Trigger>, leq: Order, from: nat, to: nat)
  {
    var kv := Run(kv0, trigs, leq);
    Windows(kv0, trigs, leq) == [(from, to)] && ReadCursor(kv) == None && Watermark(kv) == to
  }

  lemma FirstCloseSettles(kv0: Store, start: nat, trigs: seq<Trigger>, events: seq<Event>, leq: Order)
    requires TotalOrder(leq) && HoursOk(events) && Idle(kv0, start) && RunOk(kv0, start, trigs, events, leq)
    requires |trigs| > 1 && StaysOpen(kv0, trigs[..|trigs| - 1], leq) && ReadCursor(Run(kv0, trigs, leq)) == None
    ensures Settles(kv0, trigs, leq, Watermark(kv0), trigs[0].now)
  {
    hide Step, ReadCursor, Commits, Completes, TotalOrder, TriggerOk, Sound, TablesOf, Watermark, WindowTables,
      PassBound, Work, Placed;
    var front, last := trigs[..|trigs| - 1], trigs[|trigs| - 1];
    var kv := Run(kv0, front, leq);
    RunSound(kv0, start, front, events, leq);
    OpenPassShrinks(kv0, start, front, events, leq);
    OpenPassHasNoWindow(kv0, start, front, events, leq);
    ClosingCompletes(kv, Clock(start, front), last, events, leq);
    assert front[0] == trigs[0];
  }

  /** A committed first trigger persists the cursor of its pass. */
  lemma OpeningTrigger(kv0: Store, start: nat, trig: Trigger, events: seq<Event>, leq: Order)
    requires TotalOrder(leq) && HoursOk(events) && Idle(kv0, start) && TriggerOk(kv0, start, trig, events)
    requires Commits(kv0, trig, leq)
    ensures ReadCursor(Step(kv0, trig, leq)).Some?
  {
    IdleSound(kv0, start, events, leq);
    Start(kv0, start, trig, events, leq);
    AnySlot(kv0);
    var c, t := StartCursor(kv0, trig.now), TriggerTables(trig, leq);
    hide Step, TablesOf, TablesOk, Commits, SlotOk, TotalOrder, TriggerOk, WindowTables;
    AdvanceControl(kv0, start, trig, c, t, events, leq, ANY);
  }

  lemma IdleSound(kv: Store, now: nat, events: seq<Event>, leq: Order)
    requires Idle(kv, now)
    ensures Sound(kv, now, events, leq)
  {}

  lemma OneTrigger(kv: Store, start: nat, trigs: seq<Trigger>, events: seq<Event>, leq: Order)
    requires trigs != [] && RunOk(kv, start, trigs, events, leq)
    ensures Run(kv, trigs[..1], leq) == Step(kv, trigs[0], leq) && TriggerOk(kv, start, trigs[0], events)
  {
    hide Step, TriggerOk;
    RunOkPrefix(kv, start, trigs, events, leq, 1);
    assert trigs[..1][..0] == [] && trigs[..1][0] == trigs[0];
    assert Run(kv, [], leq) == kv;
  }

  /**
   * With failures anywhere in between, a pass opened by a committed trigger has been completed,
   * over the window that trigger fixed, at the latest when as many triggers have committed as
   * the window's lists take at the smallest chunk.
   */
  lemma PassEnds(kv0: Store, start: nat, trigs: seq<Trigger>, events: seq<Event>, leq: Order) returns (k: nat)
    requires TotalOrder(leq) && HoursOk(events) && Idle(kv0, start) && RunOk(kv0, start, trigs, events, leq)
    requires trigs != [] && Commits(kv0, trigs[0], leq)
    requires CommitCount(kv0, trigs, leq) >= PassBound(WindowTables(events, Watermark(kv0), trigs[0].now, leq))
    ensures 1 < k <= |trigs| && Settles(kv0, trigs[..k], leq, Watermark(kv0), trigs[0].now)
  {
    hide Step, ReadCursor, Watermark, WindowTables, TotalOrder, PassBound, RunOk, Run, CommitCount, StaysOpen, Commits,
      Settles, TriggerOk;
    CannotStayOpen(kv0, start, trigs, events, leq);
    k := FirstClosed(kv0, trigs, leq);
    OneTrigger(kv0, start, trigs, events, leq);
    OpeningTrigger(kv0, start, trigs[0], events, leq);
    RunOkPrefix(kv0, start, trigs, events, leq, k);
    assert trigs[..k][..k - 1] == trigs[..k - 1];
    FirstCloseSettles(kv0, start, trigs[..k], events, leq);
  }

  lemma {:induction false} LiveCommitCount(kv: Store, trigs: seq<Trigger>, leq: Order)
    requires AllLive(trigs)
    ensures CommitCount(kv, trigs, leq) == |trigs|
    decreases |trigs|
  {
    hide Run, Commits;
    if trigs != [] {
      var front := trigs[..|trigs| - 1];
      LiveCommitCount(kv, front, leq);
      LiveCommits(Run(kv, front, leq), trigs[|trigs| - 1], leq);
    }
  }

  /**
   * Without failures a pass over C, P and U rows is completed within ceil(C/8) + ceil(P/8) +
   * ceil(U/8) + 3 triggers.
   */
  lemma LivePassEnds(kv0: Store, start: nat, trigs: seq<Trigger>, events: seq<Event>, leq: Order) returns (k: nat)
    requires TotalOrder(leq) && HoursOk(events) && Idle(kv0, start) && RunOk(kv0, start, trigs, events, leq)
    requires trigs != [] && AllLive(trigs)
    requires var t := WindowTables(events, Watermark(kv0), trigs[0].now, leq);
      |trigs| >= (|t.counts| + 7) / 8 + (|t.totals| + 7) / 8 + (|t.uniques| + 7) / 8 + 3
    ensures 1 < k <= |trigs| && Settles(kv0, trigs[..k], leq, Watermark(kv0), trigs[0].now)
  {
    hide Run, ReadCursor, Watermark, WindowTables, TotalOrder, RunOk, Commits, CommitCount, Settles;
    LiveCommitCount(kv0, trigs, leq);
    LiveCommits(kv0, trigs[0], leq);
    k := PassEnds(kv0, start, trigs, events, leq);
  }

  // ----------------------------------------------------------------------- chunk sizes

  /**
   * Every trigger of a run works with a chunk within 8..400; one that opens a pass takes it from
   * "agg:tuning" if that is in range and else starts at 400. It makes at most chunk + 4 writes.
   */
  lemma ChunkInRange(kv0: Store, start: nat, trigs: seq<Trigger>, events: seq<Event>, leq: Order, now: nat)
    requires TotalOrder(leq) && HoursOk(events) && Idle(kv0, start) && RunOk(kv0, start, trigs, events, leq)
    ensures var kv := Run(kv0, trigs, leq);
      var chunk := StartCursor(kv, now).chunk;
      && 8 <= chunk <= 400
      && (forall t :: |Plan(StartCursor(kv, now), t)| <= chunk + 4)
      && (ReadCursor(kv).None? ==>
           if "agg:tuning" in kv && kv["agg:tuning"].Num? && 8 <= kv["agg:tuning"].n <= 400
           then chunk == kv["agg:tuning"].n else chunk == 400)
  {
    hide Run, ReadCursor, Watermark, WindowTables, TotalOrder, RunOk;
    RunSound(kv0, start, trigs, events, leq);
    forall t
      ensures |Plan(StartCursor(Run(kv0, trigs, leq), now), t)| <= StartCursor(Run(kv0, trigs, leq), now).chunk + 4
    {
      WritesBounded(StartCursor(Run(kv0, trigs, leq), now), t);
    }
  }

  lemma WritesBounded(c: Cursor, t: Tables)
    ensures |Plan(c, t)| <= c.chunk + 4
  {
    hide RowOp;
  }

  /** Math.max(8, Math.floor(chunk / 2)) */
  function Halved(chunk: nat): (n: nat)
  {
    if chunk < 16 then 8 else chunk / 2
  }

  /**
   * A failed trigger is retried with half its chunk if and only if the catch block runs and
   * a cursor had been persisted: the first trigger of a pass is retried unchanged.
   */
  lemma RetryChunk(kv: Store, now: nat, trig: Trigger, events: seq<Event>, leq: Order, later: nat)
    requires TotalOrder(leq) && HoursOk(events) && Sound(kv, now, events, leq) && TriggerOk(kv, now, trig, events)
    requires !Commits(kv, trig, leq)
    ensures var used, retry := StartCursor(kv, trig.now).chunk, StartCursor(Step(kv, trig, leq), later).chunk;
      retry == if ReadCursor(kv).Some? && trig.death.value.halves then Halved(used) else used
  {
    Start(kv, now, trig, events, leq);
    AnySlot(kv);
    var c, t := StartCursor(kv, trig.now), TriggerTables(trig, leq);
    hide ApplyAll, TablesOk, TablesOf, WindowTables, ReadCursor, Watermark, InFamily, Plan, TotalOrder, SlotOk,
      ReadChunk, HalveChunk, CommitIndex;
    var ops, n := TriggerPlan(kv, trig, leq), Done(kv, trig, leq);
    PlanLength(c, t);
    BeforeCommit(kv, c, t, n, ANY);
    HalvingKeepsCounters(ApplyAll(kv, ops[..n]), ANY);
    HalvingWithoutCursor(ApplyAll(kv, ops[..n]));
    TuningKept(kv, c, t, n, ANY);
  }

  lemma HalvingWithoutCursor(kv: Store)
    ensures ReadCursor(kv) == None ==> HalveChunk(kv) == kv
  {}

  lemma {:induction false} ApplyAllKeepsTuning(kv: Store, ops: seq<Op>)
    requires AllInFamily(ops) && forall op :: op in ops ==> !op.SaveTuning?
    ensures ReadChunk(ApplyAll(kv, ops)) == ReadChunk(kv)
    decreases |ops|
  {
    if ops != [] {
      assert ops[0] in ops;
      FixedKeys();
      ApplyAllKeepsTuning(Apply(kv, ops[0]), ops[1..]);
    }
  }

  /** Nothing before the commit touches the chunk size for the next pass. */
  lemma TuningKept(kv: Store, c: Cursor, t: Tables, n: nat, s: Slot)
    requires TablesOk(t) && Placed(c, t) && SlotOk(s) && n <= CommitIndex(c, t)
    ensures n <= |Plan(c, t)| && ReadChunk(ApplyAll(kv, Plan(c, t)[..n])) == ReadChunk(kv)
  {
    hide ApplyAll, InFamily, ReadChunk, TablesOk, SlotOk, RowOps;
    var ops := Plan(c, t);
    PlanLength(c, t);
    PlanInFamily(c, t, s);
    PrefixInFamily(ops, n);
    forall op | op in ops[..n]
      ensures !op.SaveTuning?
    {
      var i :| 0 <= i < n && ops[i] == op;
    }
    ApplyAllKeepsTuning(kv, ops[..n]);
  }

  /** The completing trigger's last write sets the chunk the next pass starts with. */
  lemma TuningSaved(kv: Store, c: Cursor, t: Tables)
    requires Completes(c, t) && MIN_CHUNK <= c.chunk <= MAX_CHUNK
    ensures ReadChunk(ApplyAll(kv, Plan(c, t))) == GrownChunk(c.chunk)
  {
    hide ApplyAll;
    var ops := Plan(c, t);
    var n := |ops| - 1;
    PlanLength(c, t);
    ApplyOne(kv, ops, n);
    assert ops[..n + 1] == ops && ops[n] == SaveTuning(GrownChunk(c.chunk));
  }

  /**
   * Every trigger that finishes leaves a larger chunk for the next one, up to 400: one more within
   * a pass, a quarter more, rounded up, for the next pass.
   */
  lemma ChunkCreepsUp(kv: Store, now: nat, trig: Trigger, events: seq<Event>, leq: Order, later: nat)
    requires TotalOrder(leq) && HoursOk(events) && Sound(kv, now, events, leq) && TriggerOk(kv, now, trig, events)
    requires trig.death == None
    ensures var used, next := StartCursor(kv, trig.now).chunk, StartCursor(Step(kv, trig, leq), later).chunk;
      && (used < next <= 400 || used == next == 400)
      && (if !Completes(StartCursor(kv, trig.now), TriggerTables(trig, leq)) then used < 400 ==> next == used + 1
          else if used < 320 then 4 * next - 4 < 5 * used <= 4 * next
          else next == 400)
  {
    hide ApplyAll, TablesOk, TablesOf, WindowTables, ReadCursor, Watermark, Plan, TotalOrder, SlotOk, ReadChunk,
      TriggerOk, Sound, Commits, Completes, HoursOk;
    Start(kv, now, trig, events, leq);
    AnySlot(kv);
    LiveCommits(kv, trig, leq);
    var c, t := StartCursor(kv, trig.now), TriggerTables(trig, leq);
    if Completes(c, t) {
      CompletionControl(kv, trig, leq, c, t, ANY);
      TuningSaved(kv, c, t);
    } else {
      AdvanceControl(kv, now, trig, c, t, events, leq, ANY);
    }
  }

  // ----------------------------------------------------------------- passes that do not open

  /** No trigger of the run commits. */
  ghost predicate NeverCommits(kv: Store, trigs: seq<Trigger>, leq: Order)
  {
    trigs == [] ||
    var front, last := trigs[..|trigs| - 1], trigs[|trigs| - 1];
    NeverCommits(kv, front, leq) && !Commits(Run(kv, front, leq), last, leq)
  }

  /** Two stores from which every trigger starts alike. */
  ghost predicate StartAlike(a: Store, b: Store)
  {
    ReadCursor(a) == ReadCursor(b) && Watermark(a) == Watermark(b) && ReadChunk(a) == ReadChunk(b)
  }

  lemma AlikeTriggers(a: Store, b: Store, trig: Trigger, leq: Order, s: Slot)
    requires StartAlike(a, b)
    ensures StartCursor(a, trig.now) == StartCursor(b, trig.now) &&
      TriggerPlan(a, trig, leq) == TriggerPlan(b, trig, leq)
    ensures Commits(a, trig, leq) == Commits(b, trig, leq) && Lost(a, trig, leq, s) == Lost(b, trig, leq, s)
  {
    hide Plan, Added, TablesOf, CommitIndex;
  }

  /** A trigger that dies before opening a pass leaves cursor, watermark and chunk as they were. */
  lemma StillbornTrigger(kv: Store, now: nat, trig: Trigger, events: seq<Event>, leq: Order)
    requires TotalOrder(leq) && HoursOk(events) && Idle(kv, now) && TriggerOk(kv, now, trig, events)
    requires !Commits(kv, trig, leq)
    ensures StartAlike(Step(kv, trig, leq), kv)
  {
    IdleSound(kv, now, events, leq);
    Start(kv, now, trig, events, leq);
    AnySlot(kv);
    RetryChunk(kv, now, trig, events, leq, 0);
    var c, t := StartCursor(kv, trig.now), TriggerTables(trig, leq);
    hide Step, Watermark, ReadCursor, WindowTables, TablesOf, TablesOk, Commits, SlotOk, TotalOrder, TriggerOk,
      ReadChunk;
    DeathControl(kv, now, trig, c, t, events, leq, ANY);
  }

  /**
   * As long as the first trigger of a pass keeps dying before its commit, watermark, chunk and
   * offset never move: every retry plans the same writes, and all it wrote stays as excess.
   */
  lemma {:induction false} StalledRun(
      kv0: Store, start: nat, trigs: seq<Trigger>, events: seq<Event>, leq: Order, s: Slot, next: Trigger)
    requires TotalOrder(leq) && HoursOk(events) && SlotOk(s) && Clean(kv0, s) && Idle(kv0, start)
    requires RunOk(kv0, start, trigs, events, leq) && NeverCommits(kv0, trigs, leq)
    ensures StartAlike(Run(kv0, trigs, leq), kv0) && Idle(Run(kv0, trigs, leq), Clock(start, trigs))
    ensures TriggerPlan(Run(kv0, trigs, leq), next, leq) == TriggerPlan(kv0, next, leq)
    ensures ReadSlot(Run(kv0, trigs, leq), s) == ReadSlot(kv0, s) + Excess(kv0, trigs, leq, s)
  {
    hide TotalOrder, RunOk, Run, Commits, TriggerPlan, NeverCommits, EventSum, Watermark, ReadCursor, ReadSlot, Clean,
      Excess;
    StalledStart(kv0, start, trigs, events, leq);
    AlikeTriggers(Run(kv0, trigs, leq), kv0, next, leq, s);
    BooksBalance(kv0, start, trigs, events, leq, s);
    NothingYet(events, Watermark(kv0), s);
  }

  lemma NothingYet(events: seq<Event>, at: nat, s: Slot)
    ensures EventSum(events, at, at, s) == 0
  {
    EmptyWindowSum(events, at, Accepted(s));
  }

  lemma {:induction false} StalledStart(kv0: Store, start: nat, trigs: seq<Trigger>, events: seq<Event>, leq: Order)
    requires TotalOrder(leq) && HoursOk(events) && Idle(kv0, start)
    requires RunOk(kv0, start, trigs, events, leq) && NeverCommits(kv0, trigs, leq)
    ensures StartAlike(Run(kv0, trigs, leq), kv0) && Idle(Run(kv0, trigs, leq), Clock(start, trigs))
    decreases |trigs|
  {
    hide Step, TotalOrder, TriggerOk, Commits, Watermark, ReadCursor, ReadChunk;
    if trigs != [] {
      var front, last := trigs[..|trigs| - 1], trigs[|trigs| - 1];
      StalledStart(kv0, start, front, events, leq);
      StillbornTrigger(Run(kv0, front, leq), Clock(start, front), last, events, leq);
      TriggerLater(Run(kv0, front, leq), Clock(start, front), last, events);
    }
  }

  lemma TriggerLater(kv: Store, now: nat, trig: Trigger, events: seq<Event>)
    requires TriggerOk(kv, now, trig, events)
    ensures now <= trig.now
  {}

  /** The same dying first trigger, `m` times over: each time it adds the same rows once more. */
  lemma {:induction false} RetriesAddUp(
      kv0: Store, start: nat, trig: Trigger, m: nat, events: seq<Event>, leq: Order, s: Slot)
    requires TotalOrder(leq) && HoursOk(events) && SlotOk(s) && Clean(kv0, s) && Idle(kv0, start)
    requires TriggerOk(kv0, start, trig, events) && !Commits(kv0, trig, leq)
    ensures var trigs := seq(m, _ => trig);
      && RunOk(kv0, start, trigs, events, leq) && NeverCommits(kv0, trigs, leq)
      && StartAlike(Run(kv0, trigs, leq), kv0)
      && ReadSlot(Run(kv0, trigs, leq), s) == ReadSlot(kv0, s) + m * Lost(kv0, trig, leq, s)
  {
    RetriesRun(kv0, start, trig, m, events, leq, s);
    var trigs := seq(m, _ => trig);
    hide TotalOrder, RunOk, Run, Commits, NeverCommits, ReadSlot, Clean, Excess, Lost, TriggerOk, StartAlike;
    StalledRun(kv0, start, trigs, events, leq, s, trig);
  }

  lemma {:induction false} RetriesRun(
      kv0: Store, start: nat, trig: Trigger, m: nat, events: seq<Event>, leq: Order, s: Slot)
    requires TotalOrder(leq) && HoursOk(events) && Idle(kv0, start)
    requires TriggerOk(kv0, start, trig, events) && !Commits(kv0, trig, leq)
    ensures var trigs := seq(m, _ => trig);
      && RunOk(kv0, start, trigs, events, leq) && NeverCommits(kv0, trigs, leq)
      && Excess(kv0, trigs, leq, s) == m * Lost(kv0, trig, leq, s)
  {
    hide TotalOrder, Commits, Lost, Step;
    var trigs := seq(m, _ => trig);
    if m > 0 {
      var front := seq(m - 1, _ => trig);
      assert trigs[..m - 1] == front;
      RetriesRun(kv0, start, trig, m - 1, events, leq, s);
      StalledStart(kv0, start, front, events, leq);
      AlikeTriggers(Run(kv0, front, leq), kv0, trig, leq, s);
      OneMore(m, Lost(kv0, trig, leq, s));
    }
  }

  lemma OneMore(m: nat, n: nat)
    requires m > 0
    ensures m * n == (m - 1) * n + n
  {}

  // ----------------------------------------------------------------- a pass in a longer run

  lemma {:induction false} RunAppend(kv: Store, a: seq<Trigger>, b: seq<Trigger>, leq: Order)
    ensures Run(kv, a + b, leq) == Run(Run(kv, a, leq), b, leq)
    decreases |b|
  {
    hide Step;
    if b == [] {
      assert a + b == a;
    } else {
      assert (a + b)[..|a + b| - 1] == a + b[..|b| - 1];
      RunAppend(kv, a, b[..|b| - 1], leq);
    }
  }

  lemma {:induction false} RunOkAppend(
      kv: Store, start: nat, a: seq<Trigger>, b: seq<Trigger>, events: seq<Event>, leq: Order)
    ensures RunOk(kv, start, a + b, events, leq)
      <==> RunOk(kv, start, a, events, leq) && RunOk(Run(kv, a, leq), Clock(start, a), b, events, leq)
    decreases |b|
  {
    hide TriggerOk, Step;
    if b == [] {
      assert a + b == a;
    } else {
      var front := b[..|b| - 1];
      assert (a + b)[..|a + b| - 1] == a + front;
      RunOkAppend(kv, start, a, front, events, leq);
      RunAppend(kv, a, front, leq);
    }
  }

  /**
   * However often a pass failed to open, it is completed over the window of the trigger that
   * opens it, at the latest when that trigger and later ones have committed often enough.
   */
  lemma PassEndsAfterStall(
      kv0: Store, start: nat, stalled: seq<Trigger>, trigs: seq<Trigger>, events: seq<Event>, leq: Order)
      returns (k: nat)
    requires TotalOrder(leq) && HoursOk(events) && Idle(kv0, start)
    requires RunOk(kv0, start, stalled + trigs, events, leq) && NeverCommits(kv0, stalled, leq)
    requires var kv := Run(kv0, stalled, leq);
      && trigs != [] && Commits(kv, trigs[0], leq)
      && CommitCount(kv, trigs, leq) >= PassBound(WindowTables(events, Watermark(kv0), trigs[0].now, leq))
    ensures 1 < k <= |trigs| && var kv := Run(kv0, stalled + trigs[..k], leq);
      ReadCursor(kv) == None && Watermark(kv) == trigs[0].now
    ensures Settles(Run(kv0, stalled, leq), trigs[..k], leq, Watermark(kv0), trigs[0].now)
  {
    hide TotalOrder, RunOk, Run, Commits, CommitCount, PassBound, WindowTables, Watermark, ReadCursor, NeverCommits,
      ReadChunk;
    RunOkAppend(kv0, start, stalled, trigs, events, leq);
    StalledStart(kv0, start, stalled, events, leq);
    k := PassEnds(Run(kv0, stalled, leq), Clock(start, stalled), trigs, events, leq);
    RunAppend(kv0, stalled, trigs[..k], leq);
  }
}
