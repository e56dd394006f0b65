/**
 * The rows the plugin-statistics worker aggregates (deploy/plugin-stats-worker/worker.ts):
 * what the analytics query returns, how the worker filters, merges and sorts it,
 * and why the resulting list does not depend on the order the query answered in.
 */
module StatsRows {
  import opened Texts

  /** `part` is a version in a count row and a day (or hour label) in a uniques row. */
  datatype Row = Row(kind: string, plugin: string, part: string, n: nat)

  /** One recorded event: `hour` is the label the query gives the hour of `at`. */
  datatype Event = Event(at: nat, kind: string, plugin: string, version: string, hour: string, identity: string,
    weight: nat)

  // ------------------------------------------------------------------ accepted rows

  predicate KindOk(kind: string)
  {
    kind == "dl" || kind == "inst" || kind == "updt"
  }

  predicate AlphaNumeric(c: char)
  {
    'A' <= c <= 'Z' || 'a' <= c <= 'z' || '0' <= c <= '9'
  }

  /** PLUGIN_ID_PATTERN */
  predicate PluginOk(id: string)
  {
    1 <= |id| <= 64 && forall i :: 0 <= i < |id| ==> AlphaNumeric(id[i]) || id[i] == '.' || id[i] == '_' || id[i] == '-'
  }

  /** VERSION_PATTERN */
  predicate VersionOk(v: string)
  {
    1 <= |v| <= 32 && forall i :: 0 <= i < |v| ==> AlphaNumeric(v[i]) || v[i] == '.' || v[i] == '+' || v[i] == '-'
  }

  predicate ColonFree(s: string)
  {
    forall i :: 0 <= i < |s| ==> s[i] != ':'
  }

  predicate SameKey(a: Row, b: Row)
  {
    a.kind == b.kind && a.plugin == b.plugin && a.part == b.part
  }

  function Label(r: Row): (s: string)
  {
    r.kind + ":" + r.plugin + ":" + r.part
  }

  /** A colon-free head is determined by the joined string. */
  lemma JoinInjective(a: string, x: string, b: string, y: string)
    requires ColonFree(a) && ColonFree(b)
    requires a + ":" + x == b + ":" + y
    ensures a == b && x == y
  {
    HeadOf(a, x, b, y, ':');
  }

  lemma KindColonFree(k: string)
    requires KindOk(k)
    ensures ColonFree(k)
  {}

  /** Labels of colon-free rows identify their keys. */
  lemma LabelInjective(a: Row, b: Row)
    requires ColonFree(a.kind) && ColonFree(a.plugin) && ColonFree(b.kind) && ColonFree(b.plugin)
    requires Label(a) == Label(b)
    ensures SameKey(a, b)
  {
    assert Label(a) == a.kind + ":" + (a.plugin + ":" + a.part);
    assert Label(b) == b.kind + ":" + (b.plugin + ":" + b.part);
    JoinInjective(a.kind, a.plugin + ":" + a.part, b.kind, b.plugin + ":" + b.part);
    JoinInjective(a.plugin, a.part, b.plugin, b.part);
  }

  // ------------------------------------------------------------- merging by key

  /** Map.set(key, (Map.get(key) ?? 0) + n): insertion order is kept. */
  function AddRow(acc: seq<Row>, r: Row): (rows: seq<Row>)
  {
    if acc == [] then [r]
    else if SameKey(acc[0], r) then [acc[0].(n := acc[0].n + r.n)] + acc[1..]
    else [acc[0]] + AddRow(acc[1..], r)
  }

  /** The rows merged by key, each key where it first occurred. */
  function Tally(rows: seq<Row>): (t: seq<Row>)
    decreases |rows|
  {
    if rows == [] then [] else AddRow(Tally(rows[..|rows| - 1]), rows[|rows| - 1])
  }

  ghost predicate DistinctKeys(rows: seq<Row>)
  {
    forall i, j :: 0 <= i < j < |rows| ==> !SameKey(rows[i], rows[j])
  }

  ghost predicate HasKey(rows: seq<Row>, r: Row)
  {
    exists i :: 0 <= i < |rows| && SameKey(rows[i], r)
  }

  /** Sum of `n` over the rows whose key satisfies `p`. */
  function SumWhere(rows: seq<Row>, p: Row -> bool): (s: nat)
  {
    if rows == [] then 0 else (if p(rows[0]) then rows[0].n else 0) + SumWhere(rows[1..], p)
  }

  /** `p` looks at a row's key only. */
  ghost predicate OfKey(p: Row -> bool)
  {
    forall a, b :: SameKey(a, b) ==> p(a) == p(b)
  }

  lemma {:induction false} AddRowFacts(acc: seq<Row>, r: Row, p: Row -> bool)
    requires DistinctKeys(acc) && OfKey(p)
    ensures DistinctKeys(AddRow(acc, r))
    ensures SumWhere(AddRow(acc, r), p) == SumWhere(acc, p) + (if p(r) then r.n else 0)
    ensures forall x :: HasKey(AddRow(acc, r), x) <==> HasKey(acc, x) || SameKey(r, x)
  {
    if acc == [] {
      assert AddRow(acc, r)[0] == r;
      assert AddRow(acc, r)[1..] == [];
      forall x ensures HasKey([r], x) <==> SameKey(r, x) { if SameKey(r, x) { assert SameKey([r][0], x); } }
    } else {
      var out := AddRow(acc, r);
      var head, tail := acc[0], acc[1..];
      if SameKey(head, r) {
        var h := head.(n := head.n + r.n);
        assert out == [h] + tail && out[1..] == tail;
        assert SameKey(h, head);
        assert p(h) == p(head) == p(r);
        HeadKey(acc);
        HeadKey(out);
        forall i, j | 0 <= i < j < |out| ensures !SameKey(out[i], out[j]) { assert !SameKey(acc[i], acc[j]); }
      } else {
        AddRowFacts(tail, r, p);
        var t := AddRow(tail, r);
        assert out == [head] + t && out[1..] == t;
        HeadKey(acc);
        HeadKey(out);
        forall k | 0 <= k < |tail| ensures !SameKey(tail[k], head) { assert !SameKey(acc[0], acc[k + 1]); }
        assert !HasKey(t, head);
        forall j | 0 <= j < |t| ensures !SameKey(head, t[j]) { assert SameKey(t[j], head) ==> HasKey(t, head); }
        ConsDistinct(head, t);
      }
    }
  }

  lemma HeadKey(rows: seq<Row>)
    requires rows != []
    ensures forall x :: HasKey(rows, x) <==> SameKey(rows[0], x) || HasKey(rows[1..], x)
  {
    forall x
      ensures HasKey(rows, x) <==> SameKey(rows[0], x) || HasKey(rows[1..], x)
    {
      if HasKey(rows, x) {
        var k :| 0 <= k < |rows| && SameKey(rows[k], x);
        if k > 0 { assert SameKey(rows[1..][k - 1], x); }
      }
      if HasKey(rows[1..], x) {
        var k :| 0 <= k < |rows[1..]| && SameKey(rows[1..][k], x);
        assert SameKey(rows[k + 1], x);
      }
    }
  }

  lemma {:induction false} SumWhereAppend(a: seq<Row>, b: seq<Row>, p: Row -> bool)
    ensures SumWhere(a + b, p) == SumWhere(a, p) + SumWhere(b, p)
  {
    if a == [] {
      assert a + b == b;
    } else {
      assert (a + b)[1..] == a[1..] + b;
      SumWhereAppend(a[1..], b, p);
    }
  }

  /** Merging keeps the keys, makes them distinct and preserves every sum by key. */
  lemma {:induction false} TallyFacts(rows: seq<Row>, p: Row -> bool)
    requires OfKey(p)
    ensures DistinctKeys(Tally(rows))
    ensures SumWhere(Tally(rows), p) == SumWhere(rows, p)
    ensures forall x :: HasKey(Tally(rows), x) <==> HasKey(rows, x)
    decreases |rows|
  {
    if rows == [] {
      assert Tally(rows) == rows;
    } else {
      var front, last := rows[..|rows| - 1], rows[|rows| - 1];
      TallyFacts(front, p);
      hide OfKey, DistinctKeys, HasKey, SameKey, SumWhere, AddRow;
      AddRowFacts(Tally(front), last, p);
      assert rows == front + [last];
      SumWhereAppend(front, [last], p);
      SumOfOne(last, p);
      LastKey(front, last);
    }
  }

  lemma SumOfOne(r: Row, p: Row -> bool)
    ensures SumWhere([r], p) == if p(r) then r.n else 0
  {
    assert [r][1..] == [];
  }

  lemma LastKey(rows: seq<Row>, r: Row)
    ensures forall x :: HasKey(rows + [r], x) <==> HasKey(rows, x) || SameKey(r, x)
  {
    hide SameKey;
    var all := rows + [r];
    forall x
      ensures HasKey(all, x) <==> HasKey(rows, x) || SameKey(r, x)
    {
      if HasKey(all, x) {
        var k :| 0 <= k < |all| && SameKey(all[k], x);
        if k < |rows| { assert SameKey(rows[k], x); }
      }
      if HasKey(rows, x) {
        var k :| 0 <= k < |rows| && SameKey(rows[k], x);
        assert SameKey(all[k], x);
      }
      if SameKey(r, x) { assert SameKey(all[|rows|], x); }
    }
  }

  // -------------------------------------------------------------------- sorting

  /** A comparison of labels. */
  type Order = (string, string) -> bool

  /** The comparator: any total order on labels. */
  ghost predicate TotalOrder(leq: Order)
  {
    && (forall a, b :: leq(a, b) || leq(b, a))
    && (forall a, b :: leq(a, b) && leq(b, a) ==> a == b)
    && (forall a, b, c :: leq(a, b) && leq(b, c) ==> leq(a, c))
  }

  function Insert(r: Row, rows: seq<Row>, leq: Order): (out: seq<Row>)
  {
    if rows == [] || leq(Label(r), Label(rows[0])) then [r] + rows else [rows[0]] + Insert(r, rows[1..], leq)
  }

  /** Array.sort by label. */
  function Sort(rows: seq<Row>, leq: Order): (out: seq<Row>)
  {
    if rows == [] then [] else Insert(rows[0], Sort(rows[1..], leq), leq)
  }

  predicate Below(a: Row, b: Row, leq: Order)
  {
    leq(Label(a), Label(b)) && Label(a) != Label(b)
  }

  /** Strictly ascending labels. */
  ghost predicate Ascending(rows: seq<Row>, leq: Order)
  {
    rows == [] || ((forall x :: x in rows[1..] ==> Below(rows[0], x, leq)) && Ascending(rows[1..], leq))
  }

  ghost predicate DistinctLabels(rows: seq<Row>)
  {
    rows == [] || ((forall x :: x in rows[1..] ==> Label(x) != Label(rows[0])) && DistinctLabels(rows[1..]))
  }

  lemma {:induction false} InsertMember(r: Row, rows: seq<Row>, leq: Order, x: Row)
    ensures x in Insert(r, rows, leq) <==> x == r || x in rows
  {
    if rows != [] && !leq(Label(r), Label(rows[0])) {
      InsertMember(r, rows[1..], leq, x);
      assert rows == [rows[0]] + rows[1..];
    }
  }

  lemma {:induction false} InsertSum(r: Row, rows: seq<Row>, leq: Order, p: Row -> bool)
    ensures SumWhere(Insert(r, rows, leq), p) == SumWhere(rows, p) + if p(r) then r.n else 0
  {
    hide Label;
    var out := Insert(r, rows, leq);
    if rows == [] || leq(Label(r), Label(rows[0])) {
      assert out[1..] == rows;
    } else {
      InsertSum(r, rows[1..], leq, p);
      assert out[1..] == Insert(r, rows[1..], leq);
    }
  }

  lemma {:induction false} InsertAscending(r: Row, rows: seq<Row>, leq: Order)
    requires TotalOrder(leq) && Ascending(rows, leq) && forall x :: x in rows ==> Label(x) != Label(r)
    ensures Ascending(Insert(r, rows, leq), leq)
  {
    hide Label;
    var out := Insert(r, rows, leq);
    if rows == [] || leq(Label(r), Label(rows[0])) {
      assert out[1..] == rows;
      forall x | x in rows ensures Below(r, x, leq) { assert x == rows[0] || x in rows[1..]; }
    } else {
      var head, tail := rows[0], rows[1..];
      InsertAscending(r, tail, leq);
      assert out[1..] == Insert(r, tail, leq);
      assert Below(head, r, leq);
      forall x | x in out[1..] ensures Below(head, x, leq) { InsertMember(r, tail, leq, x); }
    }
  }

  lemma InsertFacts(r: Row, rows: seq<Row>, leq: Order, p: Row -> bool)
    requires TotalOrder(leq) && Ascending(rows, leq) && forall x :: x in rows ==> Label(x) != Label(r)
    ensures var out := Insert(r, rows, leq);
      && Ascending(out, leq)
      && (forall x :: x in out <==> x == r || x in rows)
      && SumWhere(out, p) == SumWhere(rows, p) + (if p(r) then r.n else 0)
  {
    hide Label, TotalOrder, Ascending, Insert, SumWhere;
    InsertAscending(r, rows, leq);
    forall x ensures x in Insert(r, rows, leq) <==> x == r || x in rows { InsertMember(r, rows, leq, x); }
    InsertSum(r, rows, leq, p);
  }

  /** Sorting distinct labels orders them, keeps the rows and keeps every sum. */
  lemma {:induction false} SortFacts(rows: seq<Row>, leq: Order, p: Row -> bool)
    requires TotalOrder(leq) && DistinctLabels(rows)
    ensures var out := Sort(rows, leq);
      && Ascending(out, leq)
      && (forall x :: x in out <==> x in rows)
      && SumWhere(out, p) == SumWhere(rows, p)
  {
    hide Label, Insert;
    if rows != [] {
      SortFacts(rows[1..], leq, p);
      InsertFacts(rows[0], Sort(rows[1..], leq), leq, p);
      assert rows == [rows[0]] + rows[1..];
    }
  }

  lemma SomeMember(rows: seq<Row>)
    ensures rows != [] ==> exists x :: x in rows
  {
    if rows != [] { assert rows[0] in rows; }
  }

  /** Two ascending lists of the same rows are the same list. */
  lemma {:induction false} AscendingUnique(a: seq<Row>, b: seq<Row>, leq: Order)
    requires TotalOrder(leq) && Ascending(a, leq) && Ascending(b, leq)
    requires forall x :: x in a <==> x in b
    ensures a == b
  {
    hide Label;
    SomeMember(a);
    SomeMember(b);
    if a == [] || b == [] {
    } else {
      assert a[0] in a && b[0] in b;
      assert a == [a[0]] + a[1..] && b == [b[0]] + b[1..];
      assert a[0] == b[0];
      forall x
        ensures x in a[1..] <==> x in b[1..]
      {
        assert x in a[1..] ==> Below(a[0], x, leq);
        assert x in b[1..] ==> Below(b[0], x, leq);
        assert x in a <==> x == a[0] || x in a[1..];
        assert x in b <==> x == b[0] || x in b[1..];
      }
      AscendingUnique(a[1..], b[1..], leq);
    }
  }

  /** Whatever order the rows arrive in, the sorted list is the same. */
  lemma SortCanonical(a: seq<Row>, b: seq<Row>, leq: Order)
    requires TotalOrder(leq) && DistinctLabels(a) && DistinctLabels(b)
    requires forall x :: x in a <==> x in b
    ensures Sort(a, leq) == Sort(b, leq)
  {
    SortFacts(a, leq, _ => true);
    SortFacts(b, leq, _ => true);
    AscendingUnique(Sort(a, leq), Sort(b, leq), leq);
  }

  // --------------------------------------------------------- what the query answers

  /** Rows of the events in (from, to], one per event. */
  function EventRows(events: seq<Event>, from: nat, to: nat): (rows: seq<Row>)
  {
    if events == [] then []
    else
      var e := events[0];
      (if from < e.at <= to then [Row(e.kind, e.plugin, e.version, e.weight)] else []) +
        EventRows(events[1..], from, to)
  }

  /** GROUP BY kind, plugin, version with SUM: in some order, which the API does not promise. */
  function CountGroups(events: seq<Event>, from: nat, to: nat): (rows: seq<Row>)
  {
    Tally(EventRows(events, from, to))
  }

  /** `raw` answers the counts query: the groups of the window, each once, in any order. */
  ghost predicate AnswersCounts(raw: seq<Row>, events: seq<Event>, from: nat, to: nat)
  {
    DistinctKeys(raw) && forall r :: r in raw <==> r in CountGroups(events, from, to)
  }

  predicate CountRowOk(r: Row)
  {
    KindOk(r.kind) && PluginOk(r.plugin) && VersionOk(r.part)
  }

  function Keep(rows: seq<Row>, ok: Row -> bool): (out: seq<Row>)
  {
    if rows == [] then [] else (if ok(rows[0]) then [rows[0]] else []) + Keep(rows[1..], ok)
  }

  /** fetchWindowCounts: filter, then sort by label. */
  function ShapeCounts(raw: seq<Row>, leq: Order): (rows: seq<Row>)
  {
    Sort(Keep(raw, CountRowOk), leq)
  }

  lemma {:induction false} KeepMember(rows: seq<Row>, ok: Row -> bool, r: Row)
    ensures r in Keep(rows, ok) <==> r in rows && ok(r)
  {
    if rows != [] {
      KeepMember(rows[1..], ok, r);
      assert rows == [rows[0]] + rows[1..];
    }
  }

  lemma {:induction false} KeepSum(rows: seq<Row>, ok: Row -> bool, p: Row -> bool)
    requires forall r :: p(r) ==> ok(r)
    ensures SumWhere(Keep(rows, ok), p) == SumWhere(rows, p)
  {
    if rows != [] {
      var rest := Keep(rows[1..], ok);
      KeepSum(rows[1..], ok, p);
      if ok(rows[0]) {
        assert Keep(rows, ok)[1..] == rest;
      } else {
        assert Keep(rows, ok) == rest;
      }
    }
  }

  lemma ConsDistinct(r: Row, rows: seq<Row>)
    requires DistinctKeys(rows) && forall x :: x in rows ==> !SameKey(r, x)
    ensures DistinctKeys([r] + rows)
  {
    hide SameKey;
    var out := [r] + rows;
    forall i, j | 0 <= i < j < |out|
      ensures !SameKey(out[i], out[j])
    {
      assert out[j] == rows[j - 1];
      if i > 0 { assert out[i] == rows[i - 1]; }
    }
  }

  lemma {:induction false} KeepDistinct(rows: seq<Row>, ok: Row -> bool)
    requires DistinctKeys(rows)
    ensures DistinctKeys(Keep(rows, ok))
  {
    hide DistinctKeys, SameKey;
    if rows == [] {
      assert Keep(rows, ok) == rows;
    } else {
      TailDistinct(rows);
      KeepDistinct(rows[1..], ok);
      var rest := Keep(rows[1..], ok);
      forall x | x in rest
        ensures !SameKey(rows[0], x)
      {
        KeepMember(rows[1..], ok, x);
      }
      if ok(rows[0]) {
        ConsDistinct(rows[0], rest);
      } else {
        assert Keep(rows, ok) == rest;
      }
    }
  }

  lemma KeepFacts(rows: seq<Row>, ok: Row -> bool, p: Row -> bool)
    requires forall r :: p(r) ==> ok(r)
    ensures forall r :: r in Keep(rows, ok) <==> r in rows && ok(r)
    ensures DistinctKeys(rows) ==> DistinctKeys(Keep(rows, ok))
    ensures SumWhere(Keep(rows, ok), p) == SumWhere(rows, p)
  {
    hide DistinctKeys, Keep, SumWhere;
    forall r ensures r in Keep(rows, ok) <==> r in rows && ok(r) { KeepMember(rows, ok, r); }
    if DistinctKeys(rows) { KeepDistinct(rows, ok); }
    KeepSum(rows, ok, p);
  }

  lemma TailDistinct(rows: seq<Row>)
    requires rows != [] && DistinctKeys(rows)
    ensures DistinctKeys(rows[1..])
    ensures forall x :: x in rows[1..] ==> !SameKey(rows[0], x)
  {
    var t := rows[1..];
    forall i, j | 0 <= i < j < |t| ensures !SameKey(t[i], t[j]) { assert !SameKey(rows[i + 1], rows[j + 1]); }
    forall x | x in t
      ensures !SameKey(rows[0], x)
    {
      var k :| 0 <= k < |t| && t[k] == x;
      assert !SameKey(rows[0], rows[k + 1]);
    }
  }

  predicate ColonFreeRow(r: Row)
  {
    ColonFree(r.kind) && ColonFree(r.plugin) && ColonFree(r.part)
  }

  lemma {:induction false} KeysMakeLabelsDistinct(rows: seq<Row>)
    requires DistinctKeys(rows) && forall r :: r in rows ==> ColonFreeRow(r)
    ensures DistinctLabels(rows)
  {
    if rows != [] {
      TailDistinct(rows);
      assert rows[0] in rows;
      forall x | x in rows[1..]
        ensures Label(x) != Label(rows[0])
      {
        assert x in rows;
        if Label(x) == Label(rows[0]) { LabelInjective(x, rows[0]); }
      }
      KeysMakeLabelsDistinct(rows[1..]);
    }
  }

  lemma CountRowColonFree(r: Row)
    requires CountRowOk(r)
    ensures ColonFreeRow(r)
  {}

  /** The rows of the window in canonical order. */
  function CountsOf(events: seq<Event>, from: nat, to: nat, leq: Order): (rows: seq<Row>)
  {
    ShapeCounts(CountGroups(events, from, to), leq)
  }

  lemma KeptLabelsDistinct(raw: seq<Row>)
    requires DistinctKeys(raw)
    ensures DistinctLabels(Keep(raw, CountRowOk))
  {
    KeepFacts(raw, CountRowOk, CountRowOk);
    forall r | r in Keep(raw, CountRowOk)
      ensures ColonFreeRow(r)
    {
      CountRowColonFree(r);
    }
    KeysMakeLabelsDistinct(Keep(raw, CountRowOk));
  }

  /** The cursor is an offset into a list that every answer to the query yields alike. */
  lemma CountsCanonical(raw: seq<Row>, events: seq<Event>, from: nat, to: nat, leq: Order)
    requires TotalOrder(leq) && AnswersCounts(raw, events, from, to)
    ensures ShapeCounts(raw, leq) == CountsOf(events, from, to, leq)
  {
    var groups := CountGroups(events, from, to);
    TallyFacts(EventRows(events, from, to), _ => true);
    KeptLabelsDistinct(raw);
    KeptLabelsDistinct(groups);
    KeepFacts(raw, CountRowOk, CountRowOk);
    KeepFacts(groups, CountRowOk, CountRowOk);
    SortCanonical(Keep(raw, CountRowOk), Keep(groups, CountRowOk), leq);
  }

  /** Sums over the shaped rows are sums over the window's accepted events. */
  lemma CountsSum(events: seq<Event>, from: nat, to: nat, leq: Order, p: Row -> bool)
    requires TotalOrder(leq) && OfKey(p) && forall r :: p(r) ==> CountRowOk(r)
    ensures SumWhere(CountsOf(events, from, to, leq), p) == SumWhere(EventRows(events, from, to), p)
  {
    var groups := CountGroups(events, from, to);
    TallyFacts(EventRows(events, from, to), p);
    KeptLabelsDistinct(groups);
    KeepFacts(groups, CountRowOk, p);
    SortFacts(Keep(groups, CountRowOk), leq, p);
  }

  /** Consecutive windows split the events between them. */
  lemma {:induction false} EventSumSplits(events: seq<Event>, a: nat, b: nat, c: nat, p: Row -> bool)
    requires a <= b <= c
    ensures SumWhere(EventRows(events, a, c), p) ==
      SumWhere(EventRows(events, a, b), p) + SumWhere(EventRows(events, b, c), p)
  {
    if events != [] {
      EventSumSplits(events[1..], a, b, c, p);
      var e := events[0];
      var one := [Row(e.kind, e.plugin, e.version, e.weight)];
      SumWhereAppend(if a < e.at <= c then one else [], EventRows(events[1..], a, c), p);
      SumWhereAppend(if a < e.at <= b then one else [], EventRows(events[1..], a, b), p);
      SumWhereAppend(if b < e.at <= c then one else [], EventRows(events[1..], b, c), p);
    }
  }

  lemma {:induction false} EmptyWindowSum(events: seq<Event>, a: nat, p: Row -> bool)
    ensures SumWhere(EventRows(events, a, a), p) == 0
  {
    if events != [] {
      EmptyWindowSum(events[1..], a, p);
      assert EventRows(events, a, a) == EventRows(events[1..], a, a);
    }
  }

  // ----------------------------------------------------------------- daily uniques

  /** The distinct identities seen for a kind, plugin and hour in (from, to]. */
  function Identities(events: seq<Event>, from: nat, to: nat, r: Row): (ids: set<string>)
  {
    set e | e in events && from < e.at <= to && e.identity != "" && e.kind == r.kind && e.plugin == r.plugin &&
      e.hour == r.part
      :: e.identity
  }

  function HourRows(events: seq<Event>, from: nat, to: nat): (rows: seq<Row>)
  {
    if events == [] then []
    else
      var e := events[0];
      (if from < e.at <= to && e.identity != "" then [Row(e.kind, e.plugin, e.hour, 0)] else []) +
        HourRows(events[1..], from, to)
  }

  function Counted(rows: seq<Row>, events: seq<Event>, from: nat, to: nat): (out: seq<Row>)
    ensures |out| == |rows| && forall i :: 0 <= i < |rows| ==> SameKey(out[i], rows[i])
  {
    seq(|rows|, i requires 0 <= i < |rows| => rows[i].(n := |Identities(events, from, to, rows[i])|))
  }

  /** GROUP BY kind, plugin, hour with count(DISTINCT identity), in some order. */
  function HourGroups(events: seq<Event>, from: nat, to: nat): (rows: seq<Row>)
  {
    Counted(Tally(HourRows(events, from, to)), events, from, to)
  }

  ghost predicate AnswersUniques(raw: seq<Row>, events: seq<Event>, from: nat, to: nat)
  {
    DistinctKeys(raw) && forall r :: r in raw <==> r in HourGroups(events, from, to)
  }

  predicate BucketOk(r: Row)
  {
    KindOk(r.kind) && PluginOk(r.plugin)
  }

  /** The first ten characters of an hour label. */
  function Day(hour: string): (day: string)
  {
    if |hour| <= 10 then hour else hour[..10]
  }

  function Days(rows: seq<Row>): (out: seq<Row>)
    ensures |out| == |rows|
  {
    if rows == [] then [] else [rows[0].(part := Day(rows[0].part))] + Days(rows[1..])
  }

  /** fetchDailyUniques: filter, merge the hours of a day, sort by label. */
  function ShapeUniques(raw: seq<Row>, leq: Order): (rows: seq<Row>)
  {
    Sort(Tally(Days(Keep(raw, BucketOk))), leq)
  }

  /** Splitting a merge key gives back kind, plugin and day. */
  lemma SplitLabel(r: Row)
    requires ColonFreeRow(r)
    ensures Split(Label(r), ':') == [r.kind, r.plugin, r.part]
  {
    hide Split;
    assert Label(r) == r.kind + ":" + (r.plugin + ":" + r.part);
    SplitOf(r.kind, ':', r.plugin + ":" + r.part);
    SplitOf(r.plugin, ':', r.part);
    SplitOf(r.part, ':', "");
  }

  /** Rows with the key of `r`. */
  function KeyIs(r: Row): (p: Row -> bool)
  {
    (x: Row) => SameKey(r, x)
  }

  /** Hour rows that belong to the day row `r`. */
  function HourOf(r: Row): (p: Row -> bool)
  {
    (x: Row) => x.kind == r.kind && x.plugin == r.plugin && Day(x.part) == r.part
  }

  /** In a merged list a row is present just when its key is and its sum is. */
  lemma {:induction false} MemberBySum(rows: seq<Row>, r: Row)
    requires DistinctKeys(rows)
    ensures !HasKey(rows, r) ==> SumWhere(rows, KeyIs(r)) == 0
    ensures r in rows <==> HasKey(rows, r) && SumWhere(rows, KeyIs(r)) == r.n
  {
    if rows != [] {
      TailDistinct(rows);
      MemberBySum(rows[1..], r);
      HeadKey(rows);
      assert rows == [rows[0]] + rows[1..];
      if SameKey(rows[0], r) {
        assert !HasKey(rows[1..], r) by {
          forall k | 0 <= k < |rows[1..]| ensures !SameKey(rows[1..][k], r) { assert rows[1..][k] in rows[1..]; }
        }
        assert r !in rows[1..];
      }
    }
  }

  lemma RemoveAt(b: seq<Row>, i: nat)
    requires i < |b| && DistinctKeys(b)
    ensures DistinctKeys(b[..i] + b[i + 1..])
    ensures forall x :: x in b[..i] + b[i + 1..] <==> x in b && !SameKey(x, b[i])
  {
    var rest := b[..i] + b[i + 1..];
    forall j, k | 0 <= j < k < |rest|
      ensures !SameKey(rest[j], rest[k])
    {
      var j', k' := if j < i then j else j + 1, if k < i then k else k + 1;
      assert rest[j] == b[j'] && rest[k] == b[k'] && j' < k';
    }
    forall x | x in rest
      ensures x in b && !SameKey(x, b[i])
    {
      var k :| 0 <= k < |rest| && rest[k] == x;
      var k' := if k < i then k else k + 1;
      assert x == b[k'];
      assert if k' < i then !SameKey(b[k'], b[i]) else !SameKey(b[i], b[k']);
    }
  }

  lemma SumWithout(b: seq<Row>, i: nat, p: Row -> bool)
    requires i < |b|
    ensures SumWhere(b, p) == SumWhere(b[..i] + b[i + 1..], p) + (if p(b[i]) then b[i].n else 0)
  {
    hide SumWhere;
    var l, r := b[..i], b[i + 1..];
    assert b == l + ([b[i]] + r);
    SumWhereAppend(l, [b[i]] + r, p);
    SumWhereAppend(l, r, p);
    SumWhereCons(b[i], r, p);
  }

  lemma SumWhereCons(x: Row, rows: seq<Row>, p: Row -> bool)
    ensures SumWhere([x] + rows, p) == (if p(x) then x.n else 0) + SumWhere(rows, p)
  {
    assert ([x] + rows)[1..] == rows;
  }

  /** Lists of the same rows under distinct keys have the same sums. */
  lemma {:induction false} SameRowsSameSum(a: seq<Row>, b: seq<Row>, p: Row -> bool)
    requires DistinctKeys(a) && DistinctKeys(b) && forall x :: x in a <==> x in b
    ensures SumWhere(a, p) == SumWhere(b, p)
    decreases |a|
  {
    SomeMember(b);
    if a != [] {
      assert a[0] in b;
      var i :| 0 <= i < |b| && b[i] == a[0];
      RemoveAt(b, i);
      SumWithout(b, i, p);
      TailDistinct(a);
      assert a == [a[0]] + a[1..];
      var rest := b[..i] + b[i + 1..];
      forall x
        ensures x in a[1..] <==> x in rest
      {
        assert x in a <==> x == a[0] || x in a[1..];
        assert x in b ==> x in a;
        assert x in a[1..] ==> !SameKey(a[0], x);
      }
      SameRowsSameSum(a[1..], rest, p);
    }
  }

  lemma {:induction false} DaysKeys(rows: seq<Row>, r: Row)
    ensures HasKey(Days(rows), r) <==> exists x :: x in rows && HourOf(r)(x)
    ensures SumWhere(Days(rows), KeyIs(r))
         == SumWhere(rows, HourOf(r))
  {
    if rows != [] {
      DaysKeys(rows[1..], r);
      HeadKey(Days(rows));
      assert Days(rows)[1..] == Days(rows[1..]);
      assert rows == [rows[0]] + rows[1..];
    }
  }

  /** Two answers to the uniques query are shaped into the same list. */
  lemma UniquesCanonical(a: seq<Row>, b: seq<Row>, leq: Order)
    requires TotalOrder(leq) && DistinctKeys(a) && DistinctKeys(b) && forall x :: x in a <==> x in b
    requires forall x :: x in a ==> ColonFree(Day(x.part))
    ensures ShapeUniques(a, leq) == ShapeUniques(b, leq)
  {
    var ka, kb := Keep(a, BucketOk), Keep(b, BucketOk);
    KeepFacts(a, BucketOk, BucketOk);
    KeepFacts(b, BucketOk, BucketOk);
    TallyFacts(Days(ka), _ => true);
    TallyFacts(Days(kb), _ => true);
    forall r
      ensures r in Tally(Days(ka)) <==> r in Tally(Days(kb))
    {
      TallyMember(ka, r);
      TallyMember(kb, r);
      SameRowsSameSum(ka, kb, HourOf(r));
    }
    DayLabelsDistinct(ka);
    DayLabelsDistinct(kb);
    SortCanonical(Tally(Days(ka)), Tally(Days(kb)), leq);
  }

  /** A day's row carries the sum of its hours. */
  lemma TallyMember(rows: seq<Row>, r: Row)
    ensures r in Tally(Days(rows)) <==>
      && (exists x :: x in rows && HourOf(r)(x))
      && SumWhere(rows, HourOf(r)) == r.n
  {
    TallyFacts(Days(rows), KeyIs(r));
    MemberBySum(Tally(Days(rows)), r);
    DaysKeys(rows, r);
  }

  lemma DayLabelsDistinct(rows: seq<Row>)
    requires forall x :: x in rows ==> BucketOk(x) && ColonFree(Day(x.part))
    ensures DistinctLabels(Tally(Days(rows)))
    ensures forall r :: r in Tally(Days(rows)) ==> BucketOk(r) && ColonFreeRow(r)
  {
    hide Tally, Days, DistinctKeys, HasKey, SumWhere;
    TallyFacts(Days(rows), _ => true);
    forall r | r in Tally(Days(rows))
      ensures BucketOk(r) && ColonFreeRow(r)
    {
      TallyMember(rows, r);
      KindColonFree(r.kind);
    }
    KeysMakeLabelsDistinct(Tally(Days(rows)));
  }
}
