/** The rolling limit over whole runs of requests and alarms. */
module RateRuns {
  import opened Options
  import opened Limiter

  datatype Event = Request(now: nat) | AlarmFires(now: nat)

  /** Storage, and every time a request was admitted. */
  datatype State = State(rate: seq<int>, alarmAt: Option<int>, admitted: seq<int>)

  const EMPTY := State([], None, [])

  function Step(s: State, e: Event): (out: State)
  {
    match e
    case Request(now) =>
      var r := Consume(s.rate, now, LIMIT, WINDOW);
      var alarm := AlarmAfter(s.alarmAt, r);
      if r.allowed then State(r.timestamps, alarm, s.admitted + [now]) else State(s.rate, alarm, s.admitted)
    case AlarmFires(now) => State([], None, s.admitted)
  }

  function Run(events: seq<Event>): (s: State)
  {
    if events == [] then EMPTY else Step(Run(events[..|events| - 1]), events[|events| - 1])
  }

  function Clock(events: seq<Event>): (now: nat)
  {
    if events == [] then 0 else events[|events| - 1].now
  }

  /** The clock never goes back, and an alarm fires only when one is set and due. */
  ghost predicate RunOk(events: seq<Event>)
  {
    events == [] ||
    var front, last := events[..|events| - 1], events[|events| - 1];
    && RunOk(front) && Clock(front) <= last.now
    && (last.AlarmFires? ==> Run(front).alarmAt.Some? && Run(front).alarmAt.value <= last.now)
  }

  /** How many admissions fall into (after, upTo]. */
  function Within(ts: seq<int>, after: int, upTo: int): (n: nat)
  {
    if ts == [] then 0
    else Within(ts[..|ts| - 1], after, upTo) + if after < ts[|ts| - 1] <= upTo then 1 else 0
  }

  // ------------------------------------------------------------------------ counting

  lemma {:induction false} ActiveCount(ts: seq<int>, after: int, upTo: int)
    requires forall i :: 0 <= i < |ts| ==> ts[i] <= upTo
    ensures |Active(ts, after)| == Within(ts, after, upTo)
    decreases |ts|
  {
    if ts != [] { ActiveCount(ts[..|ts| - 1], after, upTo); }
  }

  lemma {:induction false} ActiveOf(ts: seq<int>, after: int)
    requires Sorted(ts)
    ensures Sorted(Active(ts, after)) && (forall i :: 0 <= i < |Active(ts, after)| ==>
      Active(ts, after)[i] > after && Active(ts, after)[i] in ts)
    ensures ts != [] && ts[|ts| - 1] > after ==>
      Active(ts, after) != [] && Active(ts, after)[|Active(ts, after)| - 1] == ts[|ts| - 1]
    decreases |ts|
  {
    if ts != [] {
      var front, last := ts[..|ts| - 1], ts[|ts| - 1];
      ActiveOf(front, after);
      var before, out := Active(front, after), Active(ts, after);
      forall i | 0 <= i < |before|
        ensures before[i] > after && before[i] in ts && before[i] <= last
      {
        var k :| 0 <= k < |front| && front[k] == before[i];
        assert ts[k] == before[i];
      }
      hide Active;
      assert out == before || (last > after && out == before + [last]);
    }
  }

  lemma {:induction false} WithinShrinks(ts: seq<int>, after: int, later: int, upTo: int)
    requires after <= later
    ensures Within(ts, later, upTo) <= Within(ts, after, upTo)
    decreases |ts|
  {
    if ts != [] { WithinShrinks(ts[..|ts| - 1], after, later, upTo); }
  }

  lemma {:induction false} ActiveTwice(ts: seq<int>, after: int, later: int)
    requires after <= later
    ensures Active(Active(ts, after), later) == Active(ts, later)
    decreases |ts|
  {
    if ts != [] {
      var front, last := ts[..|ts| - 1], ts[|ts| - 1];
      ActiveTwice(front, after, later);
      ActiveSnoc(Active(front, after), last, later);
      assert Active(front, after) + [] == Active(front, after) && Active(front, later) + [] == Active(front, later);
    }
  }

  lemma ActiveSnoc(ts: seq<int>, t: int, after: int)
    ensures Active(ts + [t], after) == Active(ts, after) + if t > after then [t] else []
  {
    assert (ts + [t])[..|ts|] == ts;
  }

  lemma {:induction false} NoneActive(ts: seq<int>, after: int)
    requires forall i :: 0 <= i < |ts| ==> ts[i] <= after
    ensures Active(ts, after) == []
    decreases |ts|
  {
    if ts != [] { NoneActive(ts[..|ts| - 1], after); }
  }

  // ------------------------------------------------------------------------ invariant

  /** From now on the storage and the whole history have the same active timestamps. */
  ghost predicate Remembers(s: State, now: nat)
  {
    forall after: int :: after >= now - WINDOW ==> Active(s.rate, after) == Active(s.admitted, after)
  }

  ghost predicate InOrder(s: State, now: nat)
  {
    Sorted(s.admitted) && forall i :: 0 <= i < |s.admitted| ==> 0 <= s.admitted[i] <= now
  }

  /** A set alarm lies one second beyond the last admission's window. */
  ghost predicate AlarmLate(s: State)
  {
    match s.alarmAt
    case None => true
    case Some(t) =>
      && s.admitted != [] && s.admitted[|s.admitted| - 1] > 0
      && t == s.admitted[|s.admitted| - 1] + 3_601_000
  }

  ghost predicate Kept(s: State, now: nat)
  {
    Remembers(s, now) && InOrder(s, now) && AlarmLate(s)
  }

  /** What a request answers, in terms of the whole history. */
  lemma RequestAnswer(s: State, clock: nat, now: nat)
    requires Kept(s, clock) && clock <= now
    ensures var r, active := Consume(s.rate, now, LIMIT, WINDOW), Active(s.admitted, now - WINDOW);
      && (r.allowed <==> |active| < LIMIT) && Sorted(active)
      && r.timestamps == active + (if r.allowed then [now as int] else [])
      && r.resetAt == Some((active + [now])[0] + WINDOW)
  {
    hide Sorted, SortTimes, Active, AlarmLate, Remembers;
    RememberedAt(s, clock, now - WINDOW);
    ActiveOf(s.admitted, now - WINDOW);
    SortedStays(Active(s.admitted, now - WINDOW));
  }

  lemma RememberedAt(s: State, clock: nat, after: int)
    requires Remembers(s, clock) && after >= clock - WINDOW
    ensures Active(s.rate, after) == Active(s.admitted, after)
  {}

  lemma StepRemembers(s: State, clock: nat, e: Event)
    requires Kept(s, clock) && clock <= e.now && (e.AlarmFires? ==> s.alarmAt.Some? && s.alarmAt.value <= e.now)
    ensures Remembers(Step(s, e), e.now)
  {
    forall after: int | after >= e.now - WINDOW
      ensures Active(Step(s, e).rate, after) == Active(Step(s, e).admitted, after)
    {
      StepRemembersAt(s, clock, e, after);
    }
  }

  lemma StepRemembersAt(s: State, clock: nat, e: Event, after: int)
    requires Kept(s, clock) && clock <= e.now && (e.AlarmFires? ==> s.alarmAt.Some? && s.alarmAt.value <= e.now)
    requires after >= e.now - WINDOW
    ensures Active(Step(s, e).rate, after) == Active(Step(s, e).admitted, after)
  {
    hide Consume, AlarmAfter, Sorted, Remembers, Active;
    if e.AlarmFires? {
      LastIsLatest(s, clock);
      NoneActive(s.admitted, after);
      NoneActive([], after);
    } else {
      RequestAnswer(s, clock, e.now);
      RememberedAt(s, clock, after);
      ActiveTwice(s.admitted, e.now - WINDOW, after);
      ActiveSnoc(Active(s.admitted, e.now - WINDOW), e.now, after);
      ActiveSnoc(s.admitted, e.now, after);
    }
  }

  lemma LastIsLatest(s: State, now: nat)
    requires InOrder(s, now) && s.admitted != []
    ensures forall i :: 0 <= i < |s.admitted| ==> s.admitted[i] <= s.admitted[|s.admitted| - 1]
  {}

  lemma StepInOrder(s: State, clock: nat, e: Event)
    requires InOrder(s, clock) && clock <= e.now
    ensures InOrder(Step(s, e), e.now)
  {
    hide Consume, AlarmAfter;
  }

  lemma StepAlarm(s: State, clock: nat, e: Event)
    requires Kept(s, clock) && clock <= e.now
    ensures AlarmLate(Step(s, e))
  {
    hide Consume, Active, Sorted, Remembers;
    if e.Request? {
      RequestAnswer(s, clock, e.now);
      LastActive(s.admitted, e.now - WINDOW);
    }
  }

  lemma LastActive(ts: seq<int>, after: int)
    requires Sorted(ts)
    ensures Active(ts, after) != [] ==> ts != [] && Active(ts, after)[|Active(ts, after)| - 1] == ts[|ts| - 1]
  {
    ActiveOf(ts, after);
    if ts != [] && ts[|ts| - 1] <= after { NoneActive(ts, after); }
  }

  /** Every run keeps the history's active timestamps, so no alarm ever discards one. */
  lemma {:induction false} RunKeeps(events: seq<Event>)
    requires RunOk(events)
    ensures Kept(Run(events), Clock(events))
    decreases |events|
  {
    hide Step, Remembers, InOrder, AlarmLate;
    if events == [] {
      EmptyKept();
    } else {
      var front, last := events[..|events| - 1], events[|events| - 1];
      RunKeeps(front);
      StepRemembers(Run(front), Clock(front), last);
      StepInOrder(Run(front), Clock(front), last);
      StepAlarm(Run(front), Clock(front), last);
    }
  }

  lemma EmptyKept()
    ensures Kept(EMPTY, 0)
  {}

  // ---------------------------------------------------------------------- main results

  /** A request is refused exactly when eight admissions are still active. */
  lemma RefusedExactly(events: seq<Event>, now: nat)
    requires RunOk(events) && Clock(events) <= now
    ensures Consume(Run(events).rate, now, LIMIT, WINDOW).allowed <==>
      Within(Run(events).admitted, now - 3_600_000, now) < 8
  {
    hide Consume, RunOk;
    RunKeeps(events);
    RequestAnswer(Run(events), Clock(events), now);
    ActiveCount(Run(events).admitted, now - WINDOW, now);
  }

  /** After a request the alarm is set for one second after the last admission leaves its window. */
  lemma AlarmExact(events: seq<Event>, now: nat)
    requires RunOk(events + [Request(now)]) && now > 0
    ensures var s := Run(events + [Request(now)]);
      s.admitted != [] && (s.admitted[|s.admitted| - 1] > 0 ==>
        s.alarmAt == Some(s.admitted[|s.admitted| - 1] + 3_601_000))
  {
    hide Step, Kept;
    var all := events + [Request(now)];
    assert all[..|all| - 1] == events;
    RunKeeps(events);
    StepSetsAlarm(Run(events), Clock(events), now);
  }

  lemma StepSetsAlarm(s: State, clock: nat, now: nat)
    requires Kept(s, clock) && clock <= now && now > 0
    ensures var t := Step(s, Request(now));
      t.admitted != [] && (t.admitted[|t.admitted| - 1] > 0 ==>
        t.alarmAt == Some(t.admitted[|t.admitted| - 1] + 3_601_000))
  {
    hide Consume, Active, Sorted, Remembers;
    RequestAnswer(s, clock, now);
    LastActive(s.admitted, now - WINDOW);
  }

  /** An alarm never discards an active timestamp. */
  lemma AlarmHarmless(events: seq<Event>, now: nat)
    requires RunOk(events + [AlarmFires(now)])
    ensures Active(Run(events).rate, now - WINDOW) == [] && Active(Run(events).admitted, now - WINDOW) == []
  {
    var all := events + [AlarmFires(now)];
    assert all[..|all| - 1] == events;
    RunKeeps(all);
    RunKeeps(events);
    assert Run(all).admitted == Run(events).admitted && Run(all).rate == [];
  }

  lemma WithinSnoc(ts: seq<int>, t: int, after: int, upTo: int)
    ensures Within(ts + [t], after, upTo) == Within(ts, after, upTo) + if after < t <= upTo then 1 else 0
  {
    assert (ts + [t])[..|ts|] == ts;
  }

  lemma {:induction false} WithinUpTo(ts: seq<int>, after: int, upTo: int, more: int)
    requires upTo <= more && forall i :: 0 <= i < |ts| ==> ts[i] <= upTo
    ensures Within(ts, after, more) == Within(ts, after, upTo)
    decreases |ts|
  {
    if ts != [] { WithinUpTo(ts[..|ts| - 1], after, upTo, more); }
  }

  /** Every window of length W, open on the left, holds at most eight admissions. */
  lemma {:induction false} AtMostEight(events: seq<Event>, t: int)
    requires RunOk(events)
    ensures Within(Run(events).admitted, t - 3_600_000, t) <= 8
    decreases |events|
  {
    hide Consume, AlarmAfter;
    if events != [] {
      var front, last := events[..|events| - 1], events[|events| - 1];
      AtMostEight(front, t);
      var s := Run(front);
      if last.Request? && Consume(s.rate, last.now, LIMIT, WINDOW).allowed {
        WithinSnoc(s.admitted, last.now, t - WINDOW, t);
        if last.now <= t {
          RefusedExactly(front, last.now);
          RunKeeps(front);
          WithinShrinks(s.admitted, last.now - WINDOW, t - WINDOW, t);
          WithinUpTo(s.admitted, last.now - WINDOW, last.now, t);
        }
      }
    }
  }

  /** After a refusal, and until another admission, a request is admitted if and only if `resetAt` has come. */
  lemma ResetIsEarliest(events: seq<Event>, now: nat, more: seq<Event>, later: nat)
    requires RunOk(events) && Clock(events) <= now <= later && RunOk(more) && Clock(more) <= later
    requires Run(more).admitted == Run(events).admitted
    requires !Consume(Run(events).rate, now, LIMIT, WINDOW).allowed
    ensures var reset := Consume(Run(events).rate, now, LIMIT, WINDOW).resetAt;
      reset.Some? && (Consume(Run(more).rate, later, LIMIT, WINDOW).allowed <==> later >= reset.value)
  {
    hide Consume, RunOk, Run, Active, Sorted, Within, Remembers, AlarmLate;
    var ts := Run(events).admitted;
    RunKeeps(events);
    RunKeeps(more);
    RequestAnswer(Run(events), Clock(events), now);
    RequestAnswer(Run(more), Clock(more), later);
    var active := Active(ts, now - WINDOW);
    AtMostEight(events, now);
    ActiveCount(ts, now - WINDOW, now);
    ActiveTwice(ts, now - WINDOW, later - WINDOW);
    SomeLeave(active, later - WINDOW);
  }

  lemma {:induction false} SomeLeave(ts: seq<int>, after: int)
    requires Sorted(ts) && ts != []
    ensures |Active(ts, after)| < |ts| <==> ts[0] <= after
    ensures |Active(ts, after)| <= |ts|
    decreases |ts|
  {
    if |ts| > 1 { SomeLeave(ts[..|ts| - 1], after); } else { assert ts[..0] == []; }
  }

  /** `remaining` is what the window still has room for after the request. */
  lemma RemainingIsRoom(events: seq<Event>, now: nat)
    requires RunOk(events) && Clock(events) <= now
    ensures var r, after := Consume(Run(events).rate, now, LIMIT, WINDOW), Step(Run(events), Request(now));
      r.remaining + Within(after.admitted, now - 3_600_000, now) == 8
  {
    hide RunOk, Run;
    var s := Run(events);
    RunKeeps(events);
    RequestAnswer(s, Clock(events), now);
    ActiveCount(s.admitted, now - WINDOW, now);
    WithinSnoc(s.admitted, now, now - WINDOW, now);
    AtMostEight(events, now);
    hide Active, Within, Sorted, Remembers;
  }

  lemma {:induction false} WithinSplits(ts: seq<int>, a: int, b: int, c: int)
    requires a <= b <= c
    ensures Within(ts, a, c) == Within(ts, a, b) + Within(ts, b, c)
    decreases |ts|
  {
    if ts != [] { WithinSplits(ts[..|ts| - 1], a, b, c); }
  }

  /**
   * A window closed on both sides holds at most sixteen admissions, and more than eight only if
   * some came at its very start.
   */
  lemma ClosedWindow(events: seq<Event>, t: int)
    requires RunOk(events)
    ensures Within(Run(events).admitted, t - WINDOW - 1, t) <= 2 * LIMIT
    ensures Within(Run(events).admitted, t - WINDOW - 1, t) > LIMIT ==>
      Within(Run(events).admitted, t - WINDOW - 1, t - WINDOW) > 0
  {
    hide RunOk, Run;
    var ts := Run(events).admitted;
    AtMostEight(events, t);
    AtMostEight(events, t - WINDOW);
    WithinSplits(ts, t - WINDOW - 1, t - WINDOW, t);
    WithinSplits(ts, t - WINDOW - WINDOW, t - WINDOW - 1, t - WINDOW);
  }

  function Repeat<T>(x: T, n: nat): (xs: seq<T>)
  {
    if n == 0 then [] else Repeat(x, n - 1) + [x]
  }

  /** Eight requests at `t`, then `n` exactly W later. */
  function TwoBursts(t: nat, n: nat): (events: seq<Event>)
  {
    Repeat(Request(t), LIMIT) + Repeat(Request(t + WINDOW), n)
  }

  /** What one more request adds to a run and its history. */
  lemma RunSnoc(events: seq<Event>, now: nat)
    requires RunOk(events) && Clock(events) <= now
    ensures RunOk(events + [Request(now)]) && Clock(events + [Request(now)]) == now
    ensures Run(events + [Request(now)]).admitted ==
      Run(events).admitted + if Within(Run(events).admitted, now - WINDOW, now) < LIMIT then [now as int] else []
  {
    hide Within, Consume;
    assert (events + [Request(now)])[..|events|] == events;
    RefusedExactly(events, now);
  }

  /** Sixteen are reached: eight requests at once and eight more exactly W later are all admitted. */
  lemma ClosedWindowHoldsSixteen(t: nat)
    requires t > 0
    ensures RunOk(TwoBursts(t, LIMIT)) && Within(Run(TwoBursts(t, LIMIT)).admitted, t - 1, t + WINDOW) == 2 * LIMIT
  {
    hide RunOk, Run;
    SecondBurst(t, LIMIT);
  }

  lemma {:induction false} SecondBurst(t: nat, n: nat)
    requires n <= LIMIT && t > 0
    ensures var events := TwoBursts(t, n);
      && RunOk(events) && Clock(events) <= t + WINDOW
      && Within(Run(events).admitted, t, t + WINDOW) == n
      && Within(Run(events).admitted, t - 1, t + WINDOW) == LIMIT + n
  {
    hide RunOk, Run, Within, Clock;
    if n == 0 {
      assert TwoBursts(t, 0) == Repeat(Request(t), LIMIT);
      Burst(t, LIMIT);
      BurstWithin(t, LIMIT);
    } else {
      SecondBurst(t, n - 1);
      var front := TwoBursts(t, n - 1);
      assert TwoBursts(t, n) == front + [Request(t + WINDOW)];
      RunSnoc(front, t + WINDOW);
      WithinSnoc(Run(front).admitted, t + WINDOW, t, t + WINDOW);
      WithinSnoc(Run(front).admitted, t + WINDOW, t - 1, t + WINDOW);
    }
  }

  lemma NoEvents()
    ensures RunOk([]) && Clock([]) == 0 && Run([]) == EMPTY
  {}

  lemma {:induction false} Burst(t: nat, n: nat)
    requires n <= LIMIT && t > 0
    ensures var events := Repeat(Request(t), n);
      RunOk(events) && Clock(events) <= t && Run(events).admitted == Repeat(t as int, n)
  {
    hide RunOk, Run, Within, Clock;
    if n == 0 {
      NoEvents();
    } else {
      Burst(t, n - 1);
      BurstWithin(t, n - 1);
      RunSnoc(Repeat(Request(t), n - 1), t);
    }
  }

  lemma {:induction false} BurstWithin(t: nat, n: nat)
    ensures var ts := Repeat(t as int, n);
      Within(ts, t, t + WINDOW) == 0 && Within(ts, t - WINDOW, t) == n && Within(ts, t - 1, t + WINDOW) == n
  {
    if n > 0 {
      BurstWithin(t, n - 1);
      var front := Repeat(t as int, n - 1);
      WithinSnoc(front, t, t, t + WINDOW);
      WithinSnoc(front, t, t - WINDOW, t);
      WithinSnoc(front, t, t - 1, t + WINDOW);
    }
  }
}
