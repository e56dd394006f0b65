/**
 * The unique count of a day over a window: the sum, over the hours of the day, of the distinct
 * identities seen in the hour. When do two windows that end together agree on it?
 */
module DayValues {
  import opened StatsRows
  import opened AggregationLedger

  /** The unique count of the day `r` (its kind, plugin and day) over the events in (from, to]. */
  function DayValue(events: seq<Event>, from: nat, to: nat, r: Row): (n: nat)
  {
    SumWhere(HourGroups(events, from, to), HourOf(r))
  }

  /** The hour `hour` of the plugin of `r`. */
  function HourRow(r: Row, hour: string): (h: Row)
  {
    Row(r.kind, r.plugin, hour, 0)
  }

  /** In every hour of the day, whoever came in (since, from] came again in (from, to]. */
  ghost predicate SeenAgain(events: seq<Event>, since: nat, from: nat, to: nat, r: Row)
  {
    forall hour :: Day(hour) == r.part ==>
      Identities(events, since, from, HourRow(r, hour)) <= Identities(events, from, to, HourRow(r, hour))
  }

  // -------------------------------------------------------------------- groups of an hour

  lemma {:induction false} GroupExists(events: seq<Event>, from: nat, to: nat, r: Row)
    ensures HasKey(HourRows(events, from, to), r) <==> Identities(events, from, to, r) != {}
  {
    if events == [] {
      assert !HasKey([], r);
    } else {
      var e, rest := events[0], events[1..];
      GroupExists(rest, from, to, r);
      assert events == [e] + rest;
      var head := if from < e.at <= to && e.identity != "" then [Row(e.kind, e.plugin, e.hour, 0)] else [];
      assert HourRows(events, from, to) == head + HourRows(rest, from, to);
      HasKeyAppend(head, HourRows(rest, from, to), r);
      var counts := from < e.at <= to && e.identity != "" && e.kind == r.kind && e.plugin == r.plugin &&
        e.hour == r.part;
      if head != [] { assert head[0] == Row(e.kind, e.plugin, e.hour, 0); }
      assert counts ==> SameKey(head[0], r);
      IdentitiesCons(e, rest, from, to, r);
    }
  }

  lemma HasKeyAppend(a: seq<Row>, b: seq<Row>, r: Row)
    ensures HasKey(a + b, r) <==> HasKey(a, r) || HasKey(b, r)
  {
    var all := a + b;
    if HasKey(a, r) {
      var i :| 0 <= i < |a| && SameKey(a[i], r);
      assert SameKey(all[i], r);
    }
    if HasKey(b, r) {
      var i :| 0 <= i < |b| && SameKey(b[i], r);
      assert SameKey(all[|a| + i], r);
    }
    if HasKey(all, r) {
      var i :| 0 <= i < |all| && SameKey(all[i], r);
      if i < |a| { assert SameKey(a[i], r); } else { assert SameKey(b[i - |a|], r); }
    }
  }

  lemma IdentitiesCons(e: Event, rest: seq<Event>, from: nat, to: nat, r: Row)
    ensures var counts := from < e.at <= to && e.identity != "" && e.kind == r.kind && e.plugin == r.plugin &&
      e.hour == r.part;
      Identities([e] + rest, from, to, r) == (if counts then {e.identity} else {}) + Identities(rest, from, to, r)
  {
    var events := [e] + rest;
    forall x | x in rest ensures x in events {}
    assert e in events;
  }

  /** A row is in a counted list just when its key is and it carries the number of identities. */
  lemma CountedMember(keys: seq<Row>, events: seq<Event>, from: nat, to: nat, r: Row)
    ensures r in Counted(keys, events, from, to) <==> HasKey(keys, r) && r.n == |Identities(events, from, to, r)|
  {
    var out := Counted(keys, events, from, to);
    if r in out {
      var i :| 0 <= i < |out| && out[i] == r;
      SameIdentities(events, from, to, keys[i], r);
      assert SameKey(keys[i], r);
    }
    if HasKey(keys, r) && r.n == |Identities(events, from, to, r)| {
      var i :| 0 <= i < |keys| && SameKey(keys[i], r);
      SameIdentities(events, from, to, keys[i], r);
      assert out[i] == r;
    }
  }

  lemma SameIdentities(events: seq<Event>, from: nat, to: nat, a: Row, b: Row)
    requires SameKey(a, b)
    ensures Identities(events, from, to, a) == Identities(events, from, to, b)
  {}

  lemma CountedDistinct(keys: seq<Row>, events: seq<Event>, from: nat, to: nat)
    requires DistinctKeys(keys)
    ensures DistinctKeys(Counted(keys, events, from, to))
  {
    var out := Counted(keys, events, from, to);
    forall i, j | 0 <= i < j < |out| ensures !SameKey(out[i], out[j]) { assert !SameKey(keys[i], keys[j]); }
  }

  predicate Positive(r: Row)
  {
    r.n > 0
  }

  function AndPositive(p: Row -> bool): (q: Row -> bool)
  {
    (x: Row) => p(x) && Positive(x)
  }

  lemma {:induction false} ZerosAddNothing(rows: seq<Row>, p: Row -> bool)
    ensures SumWhere(rows, p) == SumWhere(rows, AndPositive(p))
  {
    if rows != [] { ZerosAddNothing(rows[1..], p); }
  }

  /** Counting over any list of distinct hours that contains the window's hours gives the same sums. */
  lemma MoreHours(keys: seq<Row>, events: seq<Event>, from: nat, to: nat, p: Row -> bool)
    requires DistinctKeys(keys) && forall x :: HasKey(HourRows(events, from, to), x) ==> HasKey(keys, x)
    ensures SumWhere(Counted(keys, events, from, to), p) == SumWhere(HourGroups(events, from, to), p)
  {
    hide Counted, Identities, HourRows, Tally, SumWhere, Keep;
    var hours := HourRows(events, from, to);
    var all, groups := Counted(keys, events, from, to), Counted(Tally(hours), events, from, to);
    assert groups == HourGroups(events, from, to);
    TallyFacts(hours, _ => true);
    CountedDistinct(keys, events, from, to);
    CountedDistinct(Tally(hours), events, from, to);
    KeepFacts(all, Positive, AndPositive(p));
    forall x
      ensures x in Keep(all, Positive) <==> x in groups
    {
      CountedMember(keys, events, from, to, x);
      CountedMember(Tally(hours), events, from, to, x);
      GroupExists(events, from, to, x);
    }
    SameRowsSameSum(Keep(all, Positive), groups, p);
    PositiveSum(all, p);
  }

  lemma PositiveSum(rows: seq<Row>, p: Row -> bool)
    ensures SumWhere(Keep(rows, Positive), p) == SumWhere(rows, p)
  {
    KeepFacts(rows, Positive, AndPositive(p));
    ZerosAddNothing(rows, p);
    ZerosAddNothing(Keep(rows, Positive), p);
  }

  // ----------------------------------------------------------------- comparing two windows

  /** Sums of rows that lie below others, key by key, agree just when the rows do. */
  lemma {:induction false} SumsAgree(x: seq<Row>, y: seq<Row>, p: Row -> bool)
    requires OfKey(p) && |x| == |y| && forall i :: 0 <= i < |x| ==> SameKey(x[i], y[i]) && x[i].n <= y[i].n
    ensures SumWhere(x, p) <= SumWhere(y, p)
    ensures SumWhere(x, p) == SumWhere(y, p) <==> forall i :: 0 <= i < |x| && p(x[i]) ==> x[i].n == y[i].n
    decreases |x|
  {
    if x != [] {
      var a, b := x[1..], y[1..];
      SumsAgree(a, b, p);
      assert SameKey(x[0], y[0]) && p(x[0]) == p(y[0]);
      if forall i :: 0 <= i < |x| && p(x[i]) ==> x[i].n == y[i].n {
        forall i | 0 <= i < |a| && p(a[i]) ensures a[i].n == b[i].n { assert x[i + 1].n == y[i + 1].n; }
      }
      if SumWhere(x, p) == SumWhere(y, p) {
        forall i | 0 <= i < |x| && p(x[i]) ensures x[i].n == y[i].n { if i > 0 { assert a[i - 1].n == b[i - 1].n; } }
      }
    }
  }

  lemma IdentitiesSplit(events: seq<Event>, since: nat, from: nat, to: nat, r: Row)
    requires since <= from <= to
    ensures Identities(events, since, to, r) == Identities(events, since, from, r) + Identities(events, from, to, r)
  {}

  lemma SubsetSize(a: set<string>, b: set<string>)
    requires a <= b
    ensures |a| <= |b| && (|a| == |b| <==> a == b)
  {
    assert b == a + (b - a);
  }

  /** One hour: the later window counts as many identities as the longer one just when everyone came again. */
  lemma HourAgrees(events: seq<Event>, since: nat, from: nat, to: nat, r: Row)
    requires since <= from <= to
    ensures |Identities(events, from, to, r)| <= |Identities(events, since, to, r)|
    ensures |Identities(events, from, to, r)| == |Identities(events, since, to, r)|
      <==> Identities(events, since, from, r) <= Identities(events, from, to, r)
  {
    hide Identities;
    IdentitiesSplit(events, since, from, to, r);
    SubsetSize(Identities(events, from, to, r), Identities(events, since, to, r));
  }

  /** Whoever counts in the later window counts in the longer one. */
  lemma LongerHasKey(events: seq<Event>, since: nat, from: nat, to: nat, x: Row)
    requires since <= from <= to && HasKey(HourRows(events, from, to), x)
    ensures HasKey(HourRows(events, since, to), x)
  {
    hide Identities, HourRows;
    GroupExists(events, from, to, x);
    GroupExists(events, since, to, x);
    IdentitiesSplit(events, since, from, to, x);
  }

  /** Every hour of the day counts as many identities in the later window as in the longer one. */
  ghost predicate HoursAgree(events: seq<Event>, since: nat, from: nat, to: nat, keys: seq<Row>, r: Row)
  {
    forall i :: 0 <= i < |keys| && HourOf(r)(keys[i]) ==>
      |Identities(events, from, to, keys[i])| == |Identities(events, since, to, keys[i])|
  }

  lemma HoursAgreeIff(events: seq<Event>, since: nat, from: nat, to: nat, keys: seq<Row>, r: Row)
    requires since <= from <= to && forall x :: HasKey(HourRows(events, since, to), x) ==> HasKey(keys, x)
    ensures HoursAgree(events, since, from, to, keys, r) <==> SeenAgain(events, since, from, to, r)
  {
    hide Identities, HourRows;
    if HoursAgree(events, since, from, to, keys, r) {
      forall hour | Day(hour) == r.part
        ensures Identities(events, since, from, HourRow(r, hour)) <= Identities(events, from, to, HourRow(r, hour))
      {
        var h := HourRow(r, hour);
        GroupExists(events, since, to, h);
        IdentitiesSplit(events, since, from, to, h);
        if HasKey(keys, h) {
          var i :| 0 <= i < |keys| && SameKey(keys[i], h);
          HourAgrees(events, since, from, to, keys[i]);
          KeyIdentities(events, since, from, to, keys[i], h);
        }
      }
    }
    if SeenAgain(events, since, from, to, r) {
      forall i | 0 <= i < |keys| && HourOf(r)(keys[i])
        ensures |Identities(events, from, to, keys[i])| == |Identities(events, since, to, keys[i])|
      {
        var h := HourRow(r, keys[i].part);
        HourAgrees(events, since, from, to, keys[i]);
        KeyIdentities(events, since, from, to, keys[i], h);
      }
    }
  }

  lemma KeyIdentities(events: seq<Event>, since: nat, from: nat, to: nat, a: Row, b: Row)
    requires SameKey(a, b)
    ensures Identities(events, since, from, a) == Identities(events, since, from, b)
    ensures Identities(events, from, to, a) == Identities(events, from, to, b)
  {
    SameIdentities(events, since, from, a, b);
    SameIdentities(events, from, to, a, b);
  }

  lemma HourOfKey(r: Row)
    ensures OfKey(HourOf(r))
  {}

  /**
   * A window that ends with a longer one gives the same value to a day if and only if, hour by
   * hour, everyone came again.
   */
  lemma DayValuesAgree(events: seq<Event>, since: nat, from: nat, to: nat, r: Row)
    requires since <= from <= to
    ensures DayValue(events, from, to, r) <= DayValue(events, since, to, r)
    ensures DayValue(events, from, to, r) == DayValue(events, since, to, r) <==> SeenAgain(events, since, from, to, r)
  {
    hide Identities, HourRows, Tally, HourGroups, SumWhere, SeenAgain;
    var hours := HourRows(events, since, to);
    var keys := Tally(hours);
    TallyFacts(hours, _ => true);
    forall x | HasKey(HourRows(events, from, to), x)
      ensures HasKey(keys, x)
    {
      LongerHasKey(events, since, from, to, x);
    }
    MoreHours(keys, events, from, to, HourOf(r));
    MoreHours(keys, events, since, to, HourOf(r));
    var x, y := Counted(keys, events, from, to), Counted(keys, events, since, to);
    forall i | 0 <= i < |keys|
      ensures SameKey(x[i], y[i]) && x[i].n <= y[i].n && SameKey(x[i], keys[i])
    {
      HourAgrees(events, since, from, to, keys[i]);
    }
    HourOfKey(r);
    SumsAgree(x, y, HourOf(r));
    HoursAgreeIff(events, since, from, to, keys, r);
  }

  /** A day's row in a window's list carries the day's value over the window. */
  lemma RowCarriesDayValue(events: seq<Event>, from: nat, to: nat, leq: Order, r: Row)
    requires TotalOrder(leq) && HoursOk(events)
    ensures r in WindowTables(events, from, to, leq).uniques ==> r.n == DayValue(events, from, to, r)
  {
    hide TotalOrder, HourGroups, Tally, Sort, SumWhere;
    var hours := HourGroups(events, from, to);
    HourGroupsOf(events, from, to);
    WindowTablesOk(events, from, to, leq);
    KeepFacts(hours, BucketOk, BucketOk);
    var kept := Keep(hours, BucketOk);
    DayLabelsDistinct(kept);
    SortFacts(Tally(Days(kept)), leq, _ => true);
    TallyMember(kept, r);
    if r in WindowTables(events, from, to, leq).uniques {
      assert BucketOk(r);
      KeepFacts(hours, BucketOk, HourOf(r));
    }
  }

  /** Nobody came in (from, to] in any hour of the day. */
  ghost predicate Quiet(events: seq<Event>, from: nat, to: nat, r: Row)
  {
    forall hour :: Day(hour) == r.part ==> Identities(events, from, to, HourRow(r, hour)) == {}
  }

  /** A day with a visitor in the window has a row in the window's list. */
  lemma VisitedHasRow(events: seq<Event>, from: nat, to: nat, leq: Order, r: Row, h: Row)
    requires TotalOrder(leq) && HoursOk(events) && BucketOk(r)
    requires h in HourGroups(events, from, to) && HourOf(r)(h)
    ensures exists q :: q in WindowTables(events, from, to, leq).uniques && SameKey(q, r)
  {
    hide TotalOrder, HourGroups, Tally, Sort, SumWhere, BucketOk;
    var hours := HourGroups(events, from, to);
    HourGroupsOf(events, from, to);
    KeepFacts(hours, BucketOk, BucketOk);
    var kept := Keep(hours, BucketOk);
    DayLabelsDistinct(kept);
    SortFacts(Tally(Days(kept)), leq, _ => true);
    BucketOfPlugin(r, h);
    var q := r.(n := SumWhere(kept, HourOf(r)));
    SumOfAll(kept, HourOf(r), HourOf(q));
    assert h in kept && HourOf(q)(h);
    TallyMember(kept, q);
    assert SameKey(q, r);
  }

  /** A day that is in no row of the window's list was quiet. */
  lemma AbsentIsQuiet(events: seq<Event>, from: nat, to: nat, leq: Order, r: Row)
    requires TotalOrder(leq) && HoursOk(events) && BucketOk(r)
    requires forall q :: q in WindowTables(events, from, to, leq).uniques ==> !SameKey(q, r)
    ensures Quiet(events, from, to, r)
  {
    hide TotalOrder, HourGroups, Identities, BucketOk, WindowTables;
    forall hour | Day(hour) == r.part
      ensures Identities(events, from, to, HourRow(r, hour)) == {}
    {
      var h := HourRow(r, hour).(n := |Identities(events, from, to, HourRow(r, hour))|);
      SameIdentities(events, from, to, HourRow(r, hour), h);
      GroupMember(events, from, to, h);
      if h in HourGroups(events, from, to) { VisitedHasRow(events, from, to, leq, r, h); }
    }
  }

  lemma BucketOfPlugin(r: Row, h: Row)
    requires BucketOk(r) && h.kind == r.kind && h.plugin == r.plugin
    ensures BucketOk(h)
  {}

  lemma GroupMember(events: seq<Event>, from: nat, to: nat, h: Row)
    ensures h in HourGroups(events, from, to)
      <==> Identities(events, from, to, h) != {} && h.n == |Identities(events, from, to, h)|
  {
    hide Identities, HourRows, Tally, Counted;
    var hours := HourRows(events, from, to);
    TallyFacts(hours, _ => true);
    CountedMember(Tally(hours), events, from, to, h);
    GroupExists(events, from, to, h);
  }

  /** A quiet stretch does not change the value of the day. */
  lemma QuietKeepsDayValue(events: seq<Event>, since: nat, from: nat, to: nat, r: Row)
    requires since <= from <= to && Quiet(events, from, to, r)
    ensures DayValue(events, since, from, r) == DayValue(events, since, to, r)
  {
    hide Identities, HourRows, Tally, HourGroups, SumWhere;
    var hours := HourRows(events, since, to);
    var keys := Tally(hours);
    TallyFacts(hours, _ => true);
    forall x | HasKey(HourRows(events, since, from), x)
      ensures HasKey(keys, x)
    {
      GroupExists(events, since, from, x);
      GroupExists(events, since, to, x);
      IdentitiesSplit(events, since, from, to, x);
    }
    MoreHours(keys, events, since, from, HourOf(r));
    MoreHours(keys, events, since, to, HourOf(r));
    var x, y := Counted(keys, events, since, from), Counted(keys, events, since, to);
    forall i | 0 <= i < |keys|
      ensures SameKey(x[i], y[i]) && x[i].n <= y[i].n && SameKey(x[i], keys[i])
      ensures HourOf(r)(keys[i]) ==> x[i].n == y[i].n
    {
      IdentitiesSplit(events, since, from, to, keys[i]);
      SubsetSize(Identities(events, since, from, keys[i]), Identities(events, since, to, keys[i]));
      SameIdentities(events, from, to, keys[i], HourRow(keys[i], keys[i].part));
      if HourOf(r)(keys[i]) { assert HourRow(keys[i], keys[i].part) == HourRow(r, keys[i].part); }
    }
    HourOfKey(r);
    SumsAgree(x, y, HourOf(r));
  }
}
