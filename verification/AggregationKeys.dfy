/**
 * What a reader of the archive finds under the keys themselves: counters by the text of their
 * key, counted over the recorded events by the patterns the worker accepts.
 */
module AggregationKeys {
  import opened Options
  import opened JsObjects
  import opened StatsRows
  import opened Aggregation
  import opened AggregationEffects
  import opened AggregationLedger
  import opened AggregationRuns
  import opened AggregationPasses
  import opened AggregationDays
  import opened DayValues

  // ------------------------------------------------------------------------ accepted events

  /** A pattern of the form ^[A-Za-z0-9...]{1,most}$ */
  predicate Matches(s: string, most: nat, extra: string)
  {
    1 <= |s| <= most && forall c :: c in s ==> 'A' <= c <= 'Z' || 'a' <= c <= 'z' || '0' <= c <= '9' || c in extra
  }

  predicate AcceptedName(kind: string, plugin: string)
  {
    kind in {"dl", "inst", "updt"} && Matches(plugin, 64, "._-")
  }

  predicate AcceptedEvent(e: Event)
  {
    AcceptedName(e.kind, e.plugin) && Matches(e.version, 32, ".+-")
  }

  /** The accepted events of a kind and plugin in (from, to], of one version or of all. */
  function Weight(
      events: seq<Event>, from: nat, to: nat, kind: string, plugin: string, version: Option<string>): (n: nat)
  {
    if events == [] then 0
    else
      var e := events[0];
      (if from < e.at <= to && AcceptedEvent(e) && e.kind == kind && e.plugin == plugin &&
         (version.None? || e.version == version.value) then e.weight else 0) +
        Weight(events[1..], from, to, kind, plugin, version)
  }

  lemma PatternOk(s: string)
    ensures PluginOk(s) <==> Matches(s, 64, "._-")
    ensures VersionOk(s) <==> Matches(s, 32, ".+-")
  {
    forall i | 0 <= i < |s| ensures s[i] in s {}
  }

  lemma AcceptedIff(e: Event)
    ensures CountRowOk(Row(e.kind, e.plugin, e.version, e.weight)) <==> AcceptedEvent(e)
    ensures BucketOk(Row(e.kind, e.plugin, e.hour, 0)) <==> AcceptedName(e.kind, e.plugin)
  {
    PatternOk(e.plugin);
    PatternOk(e.version);
    hide PluginOk, VersionOk, Matches;
  }

  /** The slot that counts a kind and plugin, of one version or of all. */
  function SlotFor(kind: string, plugin: string, version: Option<string>): (s: Slot)
  {
    if version.None? then Plugin(kind, plugin) else Version(kind, plugin, version.value)
  }

  lemma {:induction false} WeightIsSum(
      events: seq<Event>, from: nat, to: nat, kind: string, plugin: string, version: Option<string>, s: Slot)
    requires s == SlotFor(kind, plugin, version) || (version.None? && s == InSummary(kind, plugin))
    ensures Weight(events, from, to, kind, plugin, version) == EventSum(events, from, to, s)
  {
    hide CountRowOk, AcceptedEvent;
    if events != [] {
      var e := events[0];
      WeightIsSum(events[1..], from, to, kind, plugin, version, s);
      AcceptedIff(e);
      var r := Row(e.kind, e.plugin, e.version, e.weight);
      var rest := EventRows(events[1..], from, to);
      assert CountRowOk(r) <==> AcceptedEvent(e);
      assert Belongs(s)(r) <==> e.kind == kind && e.plugin == plugin && (version.None? || e.version == version.value);
      assert Accepted(s)(r) <==> CountRowOk(r) && Belongs(s)(r);
      if from < e.at <= to {
        assert EventRows(events, from, to) == [r] + rest && ([r] + rest)[1..] == rest;
      } else {
        assert EventRows(events, from, to) == rest;
      }
    }
  }

  // ------------------------------------------------------------------------------- totals

  /** The text of the key of a total. */
  function TotalText(kind: string, plugin: string, version: Option<string>): (key: string)
  {
    "total:" + kind + ":" + plugin + if version.None? then "" else ":" + version.value
  }

  lemma SlotText(kv: Store, kind: string, plugin: string, version: Option<string>)
    ensures ReadSlot(kv, SlotFor(kind, plugin, version)) == ReadNum(kv, TotalText(kind, plugin, version))
  {
    match version {
      case None =>
        assert TotalText(kind, plugin, version) == "total:" + kind + ":" + plugin;
      case Some(v) =>
        assert TotalText(kind, plugin, version) == "total:" + kind + ":" + plugin + ":" + v;
    }
  }

  /** The time in "meta:last-success"; the epoch if there is none. */
  function LastSuccess(kv: Store): (t: nat)
  {
    if "meta:last-success" in kv && kv["meta:last-success"].Stamp? then kv["meta:last-success"].at else 0
  }

  /** The number under a kind and plugin in "summary". */
  function Shown(kv: Store, kind: string, plugin: string): (n: nat)
  {
    if "summary" in kv && kv["summary"].Summary? && (kind, plugin) in kv["summary"].cells &&
       kv["summary"].cells[(kind, plugin)].Count? then kv["summary"].cells[(kind, plugin)].n
    else 0
  }

  /**
   * After every run that has no pass open, failures included, every total has grown by the accepted
   * events since the last success the run started from, plus what failed triggers wrote and lost.
   */
  lemma TotalsByName(
      kv0: Store, start: nat, trigs: seq<Trigger>, events: seq<Event>, leq: Order, kind: string, plugin: string,
      version: Option<string>)
    requires TotalOrder(leq) && HoursOk(events) && Idle(kv0, start) && RunOk(kv0, start, trigs, events, leq)
    requires ColonFree(kind) && ColonFree(plugin) && "agg:state" !in Run(kv0, trigs, leq)
    ensures var kv, s, key := Run(kv0, trigs, leq), SlotFor(kind, plugin, version), TotalText(kind, plugin, version);
      ReadNum(kv, key) == ReadNum(kv0, key) + Excess(kv0, trigs, leq, s) +
        Weight(events, LastSuccess(kv0), LastSuccess(kv), kind, plugin, version)
    ensures AllLive(trigs) ==> Excess(kv0, trigs, leq, SlotFor(kind, plugin, version)) == 0
  {
    var s := SlotFor(kind, plugin, version);
    SlotText(kv0, kind, plugin, version);
    SlotText(Run(kv0, trigs, leq), kind, plugin, version);
    hide ReadSlot, ReadNum, Run, RunOk, TotalOrder, HoursOk, ColonFree, Excess, EventSum, WindowTables, AllLive;
    BooksBalance(kv0, start, trigs, events, leq, s);
    if AllLive(trigs) { LiveExcess(kv0, trigs, leq, s); }
    WeightIsSum(events, LastSuccess(kv0), LastSuccess(Run(kv0, trigs, leq)), kind, plugin, version, s);
  }

  /** The same for the summary's number of every plugin whose name is not inherited. */
  lemma SummaryByName(
      kv0: Store, start: nat, trigs: seq<Trigger>, events: seq<Event>, leq: Order, kind: string, plugin: string)
    requires TotalOrder(leq) && HoursOk(events) && Idle(kv0, start) && RunOk(kv0, start, trigs, events, leq)
    requires ColonFree(kind) && ColonFree(plugin) && "agg:state" !in Run(kv0, trigs, leq)
    requires plugin !in INHERITED && Clean(kv0, InSummary(kind, plugin))
    ensures var kv, s := Run(kv0, trigs, leq), InSummary(kind, plugin);
      Shown(kv, kind, plugin) == Shown(kv0, kind, plugin) + Excess(kv0, trigs, leq, s) +
        Weight(events, LastSuccess(kv0), LastSuccess(kv), kind, plugin, None)
    ensures AllLive(trigs) ==> Excess(kv0, trigs, leq, InSummary(kind, plugin)) == 0
  {
    var s := InSummary(kind, plugin);
    hide Run, RunOk, TotalOrder, HoursOk, ColonFree, Excess, EventSum, WindowTables, AllLive, INHERITED;
    BooksBalance(kv0, start, trigs, events, leq, s);
    if AllLive(trigs) { LiveExcess(kv0, trigs, leq, s); }
    WeightIsSum(events, LastSuccess(kv0), LastSuccess(Run(kv0, trigs, leq)), kind, plugin, None, s);
  }

  // ------------------------------------------------------------------------- daily uniques

  /** The hours of a day and the identities seen in them, in (from, to]. */
  function Visits(events: seq<Event>, from: nat, to: nat, kind: string, plugin: string, day: string)
    : (pairs: set<(string, string)>)
  {
    set e | e in events && from < e.at <= to && e.identity != "" && e.kind == kind && e.plugin == plugin &&
      |e.hour| >= 10 && e.hour[..10] == day :: (e.hour, e.identity)
  }

  lemma DayIs(hour: string, day: string)
    requires |day| == 10
    ensures Day(hour) == day <==> |hour| >= 10 && hour[..10] == day
  {}

  /** The same pairs, for the hours of a list. */
  function VisitsOf(rows: seq<Row>, events: seq<Event>, from: nat, to: nat, r: Row): (pairs: set<(string, string)>)
  {
    if rows == [] then {}
    else
      var ids := if HourOf(r)(rows[0]) then Identities(events, from, to, rows[0]) else {};
      (set i | i in ids :: (rows[0].part, i)) + VisitsOf(rows[1..], events, from, to, r)
  }

  lemma {:induction false} VisitsOfMember(
      rows: seq<Row>, events: seq<Event>, from: nat, to: nat, r: Row, hour: string, i: string)
    ensures (hour, i) in VisitsOf(rows, events, from, to, r) <==>
      exists x :: x in rows && HourOf(r)(x) && x.part == hour && i in Identities(events, from, to, x)
  {
    hide Identities, HourOf;
    if rows != [] {
      VisitsOfMember(rows[1..], events, from, to, r, hour, i);
      assert rows == [rows[0]] + rows[1..];
    }
  }

  lemma PairUp(ids: set<string>, hour: string)
    ensures |set i | i in ids :: (hour, i)| == |ids|
    decreases |ids|
  {
    if ids != {} {
      var x :| x in ids;
      PairUp(ids - {x}, hour);
      assert (set i | i in ids :: (hour, i)) == (set i | i in ids - {x} :: (hour, i)) + {(hour, x)};
    }
  }

  lemma {:induction false} SumIsVisits(rows: seq<Row>, events: seq<Event>, from: nat, to: nat, r: Row)
    requires DistinctKeys(rows) && forall x :: x in rows ==> x.n == |Identities(events, from, to, x)|
    ensures SumWhere(rows, HourOf(r)) == |VisitsOf(rows, events, from, to, r)|
  {
    if rows != [] {
      var x, rest := rows[0], rows[1..];
      assert x in rows;
      TailDistinct(rows);
      hide DistinctKeys, Identities;
      SumIsVisits(rest, events, from, to, r);
      if HourOf(r)(x) {
        var ids := Identities(events, from, to, x);
        assert rows[1..] == rest;
        var here, there := set i | i in ids :: (x.part, i), VisitsOf(rest, events, from, to, r);
        PairUp(ids, x.part);
        forall q | q in here
          ensures q !in there
        {
          VisitsOfMember(rest, events, from, to, r, q.0, q.1);
        }
        assert |here + there| == |here| + |there|;
      }
    }
  }

  /** A day's value counts each identity once in each hour of the day. */
  lemma DayValueIsVisits(events: seq<Event>, from: nat, to: nat, r: Row)
    requires |r.part| == 10
    ensures DayValue(events, from, to, r) == |Visits(events, from, to, r.kind, r.plugin, r.part)|
  {
    hide Identities, SumWhere, DistinctKeys, HasKey, Tally, HourRows, Counted, VisitsOf;
    var keys := Tally(HourRows(events, from, to));
    var rows := HourGroups(events, from, to);
    TallyFacts(HourRows(events, from, to), _ => true);
    CountedDistinct(keys, events, from, to);
    forall x | x in rows ensures x.n == |Identities(events, from, to, x)| { CountedMember(keys, events, from, to, x); }
    SumIsVisits(rows, events, from, to, r);
    var a, b := VisitsOf(rows, events, from, to, r), Visits(events, from, to, r.kind, r.plugin, r.part);
    forall q
      ensures q in a <==> q in b
    {
      SameVisits(events, from, to, r, q.0, q.1);
    }
    assert a == b;
  }

  lemma SameVisits(events: seq<Event>, from: nat, to: nat, r: Row, hour: string, i: string)
    requires |r.part| == 10
    ensures (hour, i) in VisitsOf(HourGroups(events, from, to), events, from, to, r) <==>
      (hour, i) in Visits(events, from, to, r.kind, r.plugin, r.part)
  {
    hide Identities, HourGroups, Visits, VisitsOf, Day;
    var rows, h := HourGroups(events, from, to), HourRow(r, hour);
    VisitsOfMember(rows, events, from, to, r, hour, i);
    HourVisits(events, from, to, r, hour, i);
    DayIs(hour, r.part);
    GroupOfHour(events, from, to, h, i);
    assert forall x :: HourOf(r)(x) && x.part == hour <==> SameKey(x, h) && Day(hour) == r.part;
  }

  /** A seen identity has a group of its hour, and only such groups list it. */
  lemma GroupOfHour(events: seq<Event>, from: nat, to: nat, h: Row, i: string)
    ensures i in Identities(events, from, to, h) <==>
      exists x :: x in HourGroups(events, from, to) && SameKey(x, h) && i in Identities(events, from, to, x)
  {
    hide Identities, Tally, HourRows, Counted, HasKey;
    var keys := Tally(HourRows(events, from, to));
    if i in Identities(events, from, to, h) {
      GroupExists(events, from, to, h);
      TallyFacts(HourRows(events, from, to), _ => true);
      var x := h.(n := |Identities(events, from, to, h)|);
      SameIdentities(events, from, to, x, h);
      SameKeyHas(keys, x, h);
      CountedMember(keys, events, from, to, x);
      assert x in HourGroups(events, from, to) && SameKey(x, h);
    }
    forall x | x in HourGroups(events, from, to) && SameKey(x, h)
      ensures Identities(events, from, to, x) == Identities(events, from, to, h)
    {
      SameIdentities(events, from, to, x, h);
    }
  }

  lemma SameKeyHas(rows: seq<Row>, a: Row, b: Row)
    requires SameKey(a, b)
    ensures HasKey(rows, a) <==> HasKey(rows, b)
  {
    if HasKey(rows, a) {
      var i :| 0 <= i < |rows| && SameKey(rows[i], a);
      assert SameKey(rows[i], b);
    }
    if HasKey(rows, b) {
      var i :| 0 <= i < |rows| && SameKey(rows[i], b);
      assert SameKey(rows[i], a);
    }
  }

  lemma HourVisits(events: seq<Event>, from: nat, to: nat, r: Row, hour: string, i: string)
    ensures (hour, i) in Visits(events, from, to, r.kind, r.plugin, r.part) <==>
      |hour| >= 10 && hour[..10] == r.part && i in Identities(events, from, to, HourRow(r, hour))
  {}

  /** The text of a daily key. */
  function DayText(kind: string, plugin: string, day: string): (key: string)
  {
    "uniqd:" + kind + ":" + plugin + ":" + day
  }

  /** Two hours of a plugin share a daily key just when their first ten characters agree. */
  lemma HoursShareKey(kind: string, plugin: string, a: string, b: string)
    requires |a| >= 10 && |b| >= 10
    ensures UniqueKey(Row(kind, plugin, Day(a), 0)) == UniqueKey(Row(kind, plugin, Day(b), 0)) <==> a[..10] == b[..10]
  {
    var head := "uniqd:" + kind + ":" + plugin + ":";
    DayIs(a, a[..10]);
    DayIs(b, b[..10]);
    if UniqueKey(Row(kind, plugin, Day(a), 0)) == UniqueKey(Row(kind, plugin, Day(b), 0)) {
      PrefixCancels(head, a[..10], b[..10]);
    }
  }

  /**
   * When a pass over (from, to] completes, whatever failed on the way, the key of every day with an
   * accepted visit in the window holds the number of its visits, each identity once in each hour.
   */
  lemma DaysByName(
      kv0: Store, start: nat, trigs: seq<Trigger>, trig: Trigger, events: seq<Event>, leq: Order, kind: string,
      plugin: string, day: string)
    requires TotalOrder(leq) && HoursOk(events) && Idle(kv0, start) && RunOk(kv0, start, trigs, events, leq)
    requires TriggerOk(Run(kv0, trigs, leq), Clock(start, trigs), trig, events)
    requires Commits(Run(kv0, trigs, leq), trig, leq) &&
      Completes(StartCursor(Run(kv0, trigs, leq), trig.now), TriggerTables(trig, leq))
    requires |day| == 10 && AcceptedName(kind, plugin)
    ensures var c := StartCursor(Run(kv0, trigs, leq), trig.now);
      var seen := Visits(events, c.from, c.to, kind, plugin, day);
      seen != {} ==> ReadNum(Step(Run(kv0, trigs, leq), trig, leq), DayText(kind, plugin, day)) == |seen|
  {
    hide TotalOrder, HoursOk, RunOk, Run, TriggerOk, Commits, Completes, StartCursor, TriggerTables, Step, ReadNum,
      WindowTables, HourGroups, Visits, Idle;
    var c := StartCursor(Run(kv0, trigs, leq), trig.now);
    var r := Row(kind, plugin, day, 0);
    var seen := Visits(events, c.from, c.to, kind, plugin, day);
    if seen != {} {
      var q := VisitedRow(events, c.from, c.to, leq, r);
      DailyKeysHoldWindow(kv0, start, trigs, trig, events, leq, q);
      RowCarriesDayValue(events, c.from, c.to, leq, q);
      DayValueIsVisits(events, c.from, c.to, q);
    }
  }

  lemma VisitedRow(events: seq<Event>, from: nat, to: nat, leq: Order, r: Row) returns (q: Row)
    requires TotalOrder(leq) && HoursOk(events) && |r.part| == 10 && AcceptedName(r.kind, r.plugin)
    requires Visits(events, from, to, r.kind, r.plugin, r.part) != {}
    ensures q in WindowTables(events, from, to, leq).uniques && SameKey(q, r)
  {
    PatternOk(r.plugin);
    hide TotalOrder, HoursOk, HourGroups, WindowTables, Identities, PluginOk, Matches;
    var v :| v in Visits(events, from, to, r.kind, r.plugin, r.part);
    HourVisits(events, from, to, r, v.0, v.1);
    DayIs(v.0, r.part);
    GroupOfHour(events, from, to, HourRow(r, v.0), v.1);
    var h :| h in HourGroups(events, from, to) && SameKey(h, HourRow(r, v.0));
    VisitedHasRow(events, from, to, leq, r, h);
    q :| q in WindowTables(events, from, to, leq).uniques && SameKey(q, r);
  }
}
