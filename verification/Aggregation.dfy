/**
 * runAggregation of deploy/plugin-stats-worker/worker.ts: a resumable, chunked
 * pass over one time window of plugin events, kept in a string-keyed store.
 * Timestamps are whole seconds since the epoch; counters are natural numbers.
 */
module Aggregation {
  import opened Options
  import opened JsObjects
  import opened StatsRows

  datatype Phase = Counts | PluginTotals | Uniques

  /** AggState */
  datatype Cursor = Cursor(from: nat, to: nat, phase: Phase, offset: nat, chunk: nat)

  /** A summary cell is a number until a non-number was added into it. */
  datatype Cell = Count(n: nat) | Text

  datatype Value = Num(n: nat) | Saved(cursor: Cursor) | Stamp(at: nat) | Summary(cells: map<(string, string), Cell>)

  type Store = map<string, Value>

  const META_KEY := "meta:last-success"
  const SUMMARY_KEY := "summary"
  const STATE_KEY := "agg:state"
  const TUNING_KEY := "agg:tuning"
  const MIN_CHUNK: nat := 8
  const MAX_CHUNK: nat := 400

  // ------------------------------------------------------------------------- keys

  function VersionKey(r: Row): (s: string)
  {
    "total:" + r.kind + ":" + r.plugin + ":" + r.part
  }

  function PluginKey(r: Row): (s: string)
  {
    "total:" + r.kind + ":" + r.plugin
  }

  function UniqueKey(r: Row): (s: string)
  {
    "uniqd:" + r.kind + ":" + r.plugin + ":" + r.part
  }

  // ---------------------------------------------------------------- reading the store

  /** Number.parseInt(value ?? "0", 10) || 0 */
  function ReadNum(kv: Store, key: string): (n: nat)
  {
    if key in kv && kv[key].Num? then kv[key].n else 0
  }

  function ReadCursor(kv: Store): (c: Option<Cursor>)
  {
    if STATE_KEY in kv && kv[STATE_KEY].Saved? then Some(kv[STATE_KEY].cursor) else None
  }

  function Watermark(kv: Store): (t: nat)
  {
    if META_KEY in kv && kv[META_KEY].Stamp? then kv[META_KEY].at else 0
  }

  /** readChunkSize: the stored size if it is in range, else the maximum. */
  function ReadChunk(kv: Store): (n: nat)
    ensures MIN_CHUNK <= n <= MAX_CHUNK
  {
    if TUNING_KEY in kv && kv[TUNING_KEY].Num? && MIN_CHUNK <= kv[TUNING_KEY].n <= MAX_CHUNK then kv[TUNING_KEY].n
    else MAX_CHUNK
  }

  function ReadSummary(kv: Store): (cells: map<(string, string), Cell>)
  {
    if SUMMARY_KEY in kv && kv[SUMMARY_KEY].Summary? then kv[SUMMARY_KEY].cells else map[]
  }

  // ------------------------------------------------------------------------- writes

  /** The mutations of the store, in the order a trigger performs them. */
  datatype Op =
    | Add(key: string, delta: nat)
    | Set(key: string, n: nat)
    | AddSummary(rows: seq<Row>)
    | SetWatermark(at: nat)
    | SaveCursor(cursor: Cursor)
    | DropCursor
    | SaveTuning(n: nat)

  /**
   * byKind[plugin] = (byKind[plugin] ?? 0) + events on a parsed JSON object: an
   * inherited property is not nullish, so adding to it makes text; assigning text
   * to __proto__ does nothing.
   */
  function AddCell(cells: map<(string, string), Cell>, r: Row): (out: map<(string, string), Cell>)
  {
    var key := (r.kind, r.plugin);
    if key in cells then
      match cells[key]
      case Count(n) => cells[key := Count(n + r.n)]
      case Text => cells
    else if r.plugin == "__proto__" then cells
    else if r.plugin in INHERITED then cells[key := Text]
    else cells[key := Count(r.n)]
  }

  function AddCells(cells: map<(string, string), Cell>, rows: seq<Row>): (out: map<(string, string), Cell>)
    decreases |rows|
  {
    if rows == [] then cells else AddCells(AddCell(cells, rows[0]), rows[1..])
  }

  function Apply(kv: Store, op: Op): (out: Store)
  {
    match op
    case Add(key, delta) => kv[key := Num(ReadNum(kv, key) + delta)]
    case Set(key, n) => kv[key := Num(n)]
    case AddSummary(rows) => kv[SUMMARY_KEY := Summary(AddCells(ReadSummary(kv), rows))]
    case SetWatermark(at) => kv[META_KEY := Stamp(at)]
    case SaveCursor(c) => kv[STATE_KEY := Saved(c)]
    case DropCursor => kv - {STATE_KEY}
    case SaveTuning(n) => kv[TUNING_KEY := Num(n)]
  }

  function ApplyAll(kv: Store, ops: seq<Op>): (out: Store)
    decreases |ops|
  {
    if ops == [] then kv else ApplyAll(Apply(kv, ops[0]), ops[1..])
  }

  // ------------------------------------------------------------------------ one trigger

  /** The lists of one window, as the worker derives them from the query answers. */
  datatype Tables = Tables(counts: seq<Row>, totals: seq<Row>, uniques: seq<Row>)

  /** The rows with their version dropped. */
  function PerPlugin(rows: seq<Row>): (out: seq<Row>)
    ensures |out| == |rows|
  {
    if rows == [] then [] else [rows[0].(part := "")] + PerPlugin(rows[1..])
  }

  function TablesOf(rawCounts: seq<Row>, rawUniques: seq<Row>, leq: Order): (t: Tables)
  {
    var counts := ShapeCounts(rawCounts, leq);
    Tables(counts, Tally(PerPlugin(counts)), ShapeUniques(rawUniques, leq))
  }

  function Min(a: nat, b: nat): (m: nat) { if a < b then a else b }

  function ListOf(t: Tables, phase: Phase): (rows: seq<Row>)
  {
    match phase
    case Counts => t.counts
    case PluginTotals => t.totals
    case Uniques => t.uniques
  }

  /** slice(offset, offset + chunk) */
  function SliceEnd(len: nat, c: Cursor): (r: nat)
  {
    if c.offset >= len then c.offset else Min(len, c.offset + c.chunk)
  }

  function Slice(rows: seq<Row>, c: Cursor): (out: seq<Row>)
  {
    if c.offset >= |rows| then [] else rows[c.offset..SliceEnd(|rows|, c)]
  }

  /** The write for one row of the current phase. */
  function RowOp(phase: Phase, r: Row): (op: Op)
  {
    match phase
    case Counts => Add(VersionKey(r), r.n)
    case PluginTotals => Add(PluginKey(r), r.n)
    case Uniques => Set(UniqueKey(r), r.n)
  }

  function RowOps(phase: Phase, rows: seq<Row>): (ops: seq<Op>)
    ensures |ops| == |rows| && forall i :: 0 <= i < |rows| ==> ops[i] == RowOp(phase, rows[i])
  {
    seq(|rows|, i requires 0 <= i < |rows| => RowOp(phase, rows[i]))
  }

  /** The trigger that ends the last phase completes the pass. */
  predicate Completes(c: Cursor, t: Tables)
  {
    c.phase == Uniques && SliceEnd(|t.uniques|, c) >= |t.uniques|
  }

  function NextCursor(c: Cursor, t: Tables): (d: Cursor)
  {
    var len := |ListOf(t, c.phase)|;
    var end := SliceEnd(len, c);
    var chunk := Min(MAX_CHUNK, c.chunk + 1);
    if end < len then c.(offset := end, chunk := chunk)
    else match c.phase
      case Counts => c.(phase := PluginTotals, offset := 0, chunk := chunk)
      case PluginTotals => c.(phase := Uniques, offset := 0, chunk := chunk)
      case Uniques => c.(offset := end, chunk := chunk)
  }

  /** Math.min(400, Math.ceil(chunk * 1.25)) */
  function GrownChunk(chunk: nat): (n: nat)
  {
    Min(MAX_CHUNK, (5 * chunk + 3) / 4)
  }

  /** The writes that end a trigger: persist the cursor, or finish the pass. */
  function Closing(c: Cursor, t: Tables): (ops: seq<Op>)
  {
    if Completes(c, t) then [AddSummary(t.counts), SetWatermark(c.to), DropCursor, SaveTuning(GrownChunk(c.chunk))]
    else [SaveCursor(NextCursor(c, t))]
  }

  /** Everything a trigger writes when nothing fails. */
  function Plan(c: Cursor, t: Tables): (ops: seq<Op>)
  {
    RowOps(c.phase, Slice(ListOf(t, c.phase), c)) + Closing(c, t)
  }

  /** A stored cursor is resumed; otherwise a pass starts at the watermark and ends now. */
  function StartCursor(kv: Store, now: nat): (c: Cursor)
  {
    match ReadCursor(kv)
    case Some(c) => c
    case None => Cursor(Watermark(kv), now, Counts, 0, ReadChunk(kv))
  }

  /** The catch block: halve the chunk of a stored cursor, if there is one. */
  function HalveChunk(kv: Store): (out: Store)
  {
    match ReadCursor(kv)
    case None => kv
    case Some(c) => kv[STATE_KEY := Saved(c.(chunk := if c.chunk / 2 < MIN_CHUNK then MIN_CHUNK else c.chunk / 2))]
  }

  /** A trigger dies after `after` of its writes; the catch block may or may not get to halve the chunk. */
  datatype Death = Death(after: nat, halves: bool)

  datatype Trigger = Trigger(now: nat, rawCounts: seq<Row>, rawUniques: seq<Row>, death: Option<Death>)

  function Step(kv: Store, trig: Trigger, leq: Order): (out: Store)
  {
    var c := StartCursor(kv, trig.now);
    var ops := Plan(c, TablesOf(trig.rawCounts, trig.rawUniques, leq));
    match trig.death
    case None => ApplyAll(kv, ops)
    case Some(d) =>
      if d.after >= |ops| then ApplyAll(kv, ops)
      else if d.halves then HalveChunk(ApplyAll(kv, ops[..d.after]))
      else ApplyAll(kv, ops[..d.after])
  }

  // --------------------------------------------------------------- the code that runs

  lemma {:induction false} ApplyAllAppend(kv: Store, a: seq<Op>, b: seq<Op>)
    ensures ApplyAll(kv, a + b) == ApplyAll(ApplyAll(kv, a), b)
    decreases |a|
  {
    if a == [] {
      assert a + b == b;
    } else {
      assert (a + b)[1..] == a[1..] + b;
      ApplyAllAppend(Apply(kv, a[0]), a[1..], b);
    }
  }

  lemma ApplyNothing(kv: Store)
    ensures ApplyAll(kv, []) == kv
  {}

  lemma ApplyOne(kv: Store, ops: seq<Op>, i: nat)
    requires i < |ops|
    ensures ApplyAll(kv, ops[..i + 1]) == Apply(ApplyAll(kv, ops[..i]), ops[i])
  {
    assert ops[..i + 1] == ops[..i] + [ops[i]];
    ApplyAllAppend(kv, ops[..i], [ops[i]]);
    assert ApplyAll(ApplyAll(kv, ops[..i]), [ops[i]]) == ApplyAll(Apply(ApplyAll(kv, ops[..i]), ops[i]), []);
  }

  /** The worker's store with a bound on how many more writes succeed. */
  class Archive {
    var kv: Store
    var budget: nat

    /** One KV mutation; false when it fails. */
    method Write(op: Op) returns (ok: bool)
      modifies this
      ensures ok <==> old(budget) > 0
      ensures ok ==> kv == Apply(old(kv), op) && budget == old(budget) - 1
      ensures !ok ==> kv == old(kv) && budget == 0
    {
      if budget == 0 { return false; }
      match op {
        case Add(key, delta) =>
          var current := ReadNum(kv, key);
          kv := kv[key := Num(current + delta)];
        case Set(key, n) =>
          kv := kv[key := Num(n)];
        case AddSummary(rows) =>
          var cells := ReadSummary(kv);
          var i := 0;
          while i < |rows|
            invariant 0 <= i <= |rows|
            invariant AddCells(cells, rows[i..]) == AddCells(ReadSummary(kv), rows)
          {
            assert rows[i..][1..] == rows[i + 1..];
            cells := AddCell(cells, rows[i]);
            i := i + 1;
          }
          assert rows[i..] == [];
          kv := kv[SUMMARY_KEY := Summary(cells)];
        case SetWatermark(at) =>
          kv := kv[META_KEY := Stamp(at)];
        case SaveCursor(c) =>
          kv := kv[STATE_KEY := Saved(c)];
        case DropCursor =>
          kv := kv - {STATE_KEY};
        case SaveTuning(n) =>
          kv := kv[TUNING_KEY := Num(n)];
      }
      budget := budget - 1;
      ok := true;
    }

    /** The loop over one slice. */
    method WriteRows(phase: Phase, rows: seq<Row>) returns (ok: bool)
      modifies this
      ensures ok <==> old(budget) >= |rows|
      ensures ok ==> kv == ApplyAll(old(kv), RowOps(phase, rows)) && budget == old(budget) - |rows|
      ensures !ok ==> kv == ApplyAll(old(kv), RowOps(phase, rows)[..old(budget)]) && budget == 0
    {
      var ops := RowOps(phase, rows);
      var i := 0;
      while i < |rows|
        invariant 0 <= i <= |rows|
        invariant budget == old(budget) - i
        invariant kv == ApplyAll(old(kv), ops[..i])
      {
        var done := Write(RowOp(phase, rows[i]));
        if !done { return false; }
        ApplyOne(old(kv), ops, i);
        i := i + 1;
      }
      assert ops[..i] == ops;
      return true;
    }

    /** The body of the try block; false when some write failed. */
    method TryTrigger(now: nat, t: Tables) returns (ok: bool)
      modifies this
      ensures var ops := Plan(StartCursor(old(kv), now), t);
        && (ok <==> old(budget) >= |ops|)
        && kv == ApplyAll(old(kv), if ok then ops else ops[..old(budget)])
    {
      hide ApplyAll, StartCursor, RowOps, Apply;
      var state := StartCursor(kv, now);
      var rows := Slice(ListOf(t, state.phase), state);
      ghost var start, b := kv, budget;
      ghost var first, closing := RowOps(state.phase, rows), Closing(state, t);
      ghost var ops := first + closing;
      assert ops == Plan(state, t);
      ok := WriteRows(state.phase, rows);
      if !ok {
        assert ops[..b] == first[..b];
        return;
      }
      ApplyAllAppend(start, first, closing);
      ghost var mid := kv;
      ApplyNothing(mid);
      var i := 0;
      var rest := Closing(state, t);
      while i < |rest|
        invariant 0 <= i <= |rest|
        invariant budget == b - |first| - i
        invariant kv == ApplyAll(mid, rest[..i])
      {
        ok := Write(rest[i]);
        if !ok {
          assert ops[..b] == first + rest[..i];
          ApplyAllAppend(start, first, rest[..i]);
          return;
        }
        ApplyOne(mid, rest, i);
        i := i + 1;
      }
      assert rest[..i] == rest;
      ok := true;
    }

    /** runAggregation: one trigger, whose `budget` says after which write it dies. */
    method RunAggregation(trig: Trigger, leq: Order)
      requires budget == match trig.death
        case None => |Plan(StartCursor(kv, trig.now), TablesOf(trig.rawCounts, trig.rawUniques, leq))|
        case Some(d) => d.after
      modifies this
      ensures kv == Step(old(kv), trig, leq)
    {
      hide TablesOf, Plan, ApplyAll, StartCursor, ReadCursor;
      var t := TablesOf(trig.rawCounts, trig.rawUniques, leq);
      var ok := TryTrigger(trig.now, t);
      if !ok && trig.death.Some? && trig.death.value.halves {
        match ReadCursor(kv) {
          case None =>
          case Some(c) =>
            kv := kv[STATE_KEY := Saved(c.(chunk := if c.chunk / 2 < MIN_CHUNK then MIN_CHUNK else c.chunk / 2))];
        }
      }
    }
  }
}
