/** assembleCustomBundle of docs/lib/agentBundle.ts: from completed downloads to the ZIP. */
module Assembler {
  import opened Options
  import opened Bytes
  import opened Bits
  import opened Crc
  import opened Bundle
  import opened Packages
  import Pool
  import Zip
  import ZipReader

  function Items(plan: Plan): (items: seq<Item>)
  {
    plan.drivers + plan.workers
  }

  function TaskCount(plan: Plan): (n: nat)
  {
    |Items(plan)| + if plan.jre.Some? then 1 else 0
  }

  /** BUNDLE_DOWNLOAD_CONCURRENCY */
  const CONCURRENCY := 4

  /** All tasks completed, in this order. */
  ghost predicate Completion(order: seq<nat>, n: nat)
  {
    (forall k :: 0 <= k < |order| ==> order[k] < n) && forall i: nat :: i < n ==> i in order
  }

  /** The tasks a pool's history completes, in order. */
  function Finished<E>(log: seq<Pool.Event<E>>): (order: seq<nat>)
  {
    if log == [] then []
    else Finished(log[..|log| - 1]) + match log[|log| - 1] case Done(i) => [i] case _ => []
  }

  lemma {:induction false} FinishedCounts<E>(log: seq<Pool.Event<E>>, i: nat)
    ensures i in Finished(log) <==> Pool.Count(log, Pool.IsDone(i)) > 0
    ensures Pool.Count(log, Pool.IsDone(i)) <= Pool.Count(log, Pool.IsSettle(i))
    decreases |log|
  {
    if log != [] { FinishedCounts(log[..|log| - 1], i); }
  }

  /** In every interleaving in which the pool does not throw, its history completes all tasks. */
  lemma PoolCompletes<E>(n: nat, limit: int, moves: seq<Pool.Move<E>>)
    requires Pool.Ended(Pool.Run(n, Pool.Initial<E>(n, limit), moves))
    requires Pool.Run(n, Pool.Initial<E>(n, limit), moves).failure.None?
    ensures Completion(Finished(Pool.Run(n, Pool.Initial<E>(n, limit), moves).log), n)
  {
    hide Pool.Run, Pool.Count;
    var log := Pool.Run(n, Pool.Initial<E>(n, limit), moves).log;
    var order := Finished(log);
    forall i: nat
      ensures i < n <==> i in order
    {
      FinishedCounts(log, i);
      Pool.PoolResult(n, limit, moves, i);
      Pool.PoolSafe(n, limit, moves, i);
    }
    forall k | 0 <= k < |order| ensures order[k] < n { assert order[k] in order; }
  }

  /** At every point at most four downloads are in flight. */
  lemma AtMostFour(n: nat, moves: seq<Pool.Move<Error>>)
    ensures var log := Pool.Run(n, Pool.Initial<Error>(n, CONCURRENCY), moves).log;
      Pool.Count(log, Pool.AnyStart()) <= Pool.Count(log, Pool.AnySettle()) + 4
  {
    Pool.PoolSafe(n, CONCURRENCY, moves, 0);
  }

  /** How task `i` settles. */
  function Settles(lib: Libraries, plan: Plan, fetched: Fetched, i: nat): (e: Option<Error>)
    requires |fetched| == TaskCount(plan) && i < |fetched|
  {
    if i < |Items(plan)| then
      match Task(lib, Items(plan)[i], fetched[i]) case Ok(_) => None case Err(e) => Some(e)
    else
      match JreTask(lib, plan.jre.value, fetched[i]) case Ok(_) => None case Err(e) => Some(e)
  }

  /** The history is one of the pool that runs the plan's tasks, each settling as it does. */
  ghost predicate PoolHistory(
      lib: Libraries, plan: Plan, fetched: Fetched, moves: seq<Pool.Move<Error>>, log: seq<Pool.Event<Error>>)
    requires |fetched| == TaskCount(plan)
  {
    var n := |fetched|;
    var end := Pool.Run(n, Pool.Initial<Error>(n, CONCURRENCY), moves);
    Pool.Ended(end) && end.log == log && forall k :: 0 <= k < |log| ==> Answers(lib, plan, fetched, log[k])
  }

  /** A settled task settled as its download makes it. */
  ghost predicate Answers(lib: Libraries, plan: Plan, fetched: Fetched, e: Pool.Event<Error>)
    requires |fetched| == TaskCount(plan)
  {
    match e
    case Start(_) => true
    case Done(i) => i < |fetched| && Settles(lib, plan, fetched, i) == None
    case Fail(i, error) => i < |fetched| && Settles(lib, plan, fetched, i) == Some(error)
  }

  /** Whatever the downloads give, the pool has a history. */
  lemma HistoryExists(lib: Libraries, plan: Plan, fetched: Fetched)
      returns (moves: seq<Pool.Move<Error>>, log: seq<Pool.Event<Error>>)
    requires |fetched| == TaskCount(plan)
    ensures PoolHistory(lib, plan, fetched, moves, log)
  {
    hide Settles, Pool.Run, Pool.Ended, Pool.Effective;
    var n := |fetched|;
    var settle := (i: nat) => if i < n then Settles(lib, plan, fetched, i) else None;
    moves := Pool.CanEnd(n, Pool.Initial<Error>(n, CONCURRENCY), settle);
    log := Pool.Run(n, Pool.Initial<Error>(n, CONCURRENCY), moves).log;
    forall k | 0 <= k < |log|
      ensures Answers(lib, plan, fetched, log[k])
    {
      if !log[k].Start? {
        Pool.PoolSafe(n, CONCURRENCY, moves, log[k].task);
        SettledCounts(log, k);
      }
    }
  }

  lemma {:induction false} SettledCounts(log: seq<Pool.Event<Error>>, k: nat)
    requires k < |log| && !log[k].Start?
    ensures Pool.Count(log, Pool.IsSettle(log[k].task)) > 0
    decreases |log|
  {
    if k < |log| - 1 { SettledCounts(log[..|log| - 1], k); }
  }

  /** extractedByUrl after the tasks of `order` have completed. */
  function ByUrl(lib: Libraries, plan: Plan, fetched: Fetched, order: seq<nat>): (m: map<string, Extracted>)
    requires |fetched| == TaskCount(plan)
  {
    if order == [] then map[]
    else
      var m, i := ByUrl(lib, plan, fetched, order[..|order| - 1]), order[|order| - 1];
      if i < |Items(plan)| then
        match Task(lib, Items(plan)[i], fetched[i]) case Ok(x) => m[Items(plan)[i].url := x] case Err(_) => m
      else m
  }

  /** A stored package was unpacked by a task for the same URL. */
  ghost predicate FromTask(lib: Libraries, plan: Plan, fetched: Fetched, url: string, x: Extracted, i: nat)
    requires |fetched| == TaskCount(plan)
  {
    i < |Items(plan)| && Items(plan)[i].url == url && Task(lib, Items(plan)[i], fetched[i]) == Ok(x)
  }

  ghost predicate Sourced(lib: Libraries, plan: Plan, fetched: Fetched, url: string, x: Extracted)
    requires |fetched| == TaskCount(plan)
  {
    exists i: nat :: FromTask(lib, plan, fetched, url, x, i)
  }

  /** All tasks of `order` succeed. */
  ghost predicate AllSucceed(lib: Libraries, plan: Plan, fetched: Fetched, order: seq<nat>)
    requires |fetched| == TaskCount(plan)
  {
    forall j :: 0 <= j < |order| ==> order[j] < |fetched| && Settles(lib, plan, fetched, order[j]).None?
  }

  lemma {:induction false} ByUrlFacts(lib: Libraries, plan: Plan, fetched: Fetched, order: seq<nat>)
    requires |fetched| == TaskCount(plan) && AllSucceed(lib, plan, fetched, order)
    ensures var m := ByUrl(lib, plan, fetched, order);
      && (forall url :: url in m ==> Sourced(lib, plan, fetched, url, m[url]))
      && (forall j :: 0 <= j < |order| && order[j] < |Items(plan)| ==> Items(plan)[order[j]].url in m)
    decreases |order|
  {
    hide Task, JreTask;
    if order != [] {
      var front, i := order[..|order| - 1], order[|order| - 1];
      ByUrlFacts(lib, plan, fetched, front);
      var before, m := ByUrl(lib, plan, fetched, front), ByUrl(lib, plan, fetched, order);
      assert Settles(lib, plan, fetched, i).None?;
      forall url | url in m
        ensures Sourced(lib, plan, fetched, url, m[url])
      {
        if i < |Items(plan)| && url == Items(plan)[i].url {
          assert FromTask(lib, plan, fetched, url, m[url], i);
        } else {
          assert url in before && m[url] == before[url];
        }
      }
      forall j | 0 <= j < |order| && order[j] < |Items(plan)|
        ensures Items(plan)[order[j]].url in m
      {
        if j < |front| { assert front[j] == order[j]; }
      }
    }
  }

  // ------------------------------------------------------------------ what is assembled

  /** The unpacked packages in the order of the plan. */
  ghost predicate Picked(lib: Libraries, plan: Plan, fetched: Fetched, xs: seq<Extracted>, n: nat)
    requires |fetched| == TaskCount(plan)
  {
    && |xs| == n <= |Items(plan)|
    && forall j :: 0 <= j < n ==> Sourced(lib, plan, fetched, Items(plan)[j].url, xs[j])
  }

  lemma PickedWell(lib: Libraries, plan: Plan, fetched: Fetched, xs: seq<Extracted>, n: nat)
    requires |fetched| == TaskCount(plan) && Picked(lib, plan, fetched, xs, n)
    ensures AllWell(lib, xs)
  {
    hide Task, Checked;
    forall j | 0 <= j < |xs|
      ensures Checked(lib, xs[j])
    {
      var i: nat :| FromTask(lib, plan, fetched, Items(plan)[j].url, xs[j], i);
      TaskFacts(lib, Items(plan)[i], fetched[i]);
    }
  }

  function DriverFiles(xs: seq<Extracted>): (files: seq<File>)
    ensures |files| == |xs| && forall j :: 0 <= j < |xs| ==> files[j] == FileFor(xs[j])
  {
    seq(|xs|, j requires 0 <= j < |xs| => FileFor(xs[j]))
  }

  function Jres(jre: Option<Jre>): (m: map<string, JreEntry>)
  {
    match jre
    case None => map[]
    case Some(j) =>
      var a := Artifact(OFFLINE + j.filename, if Truthy(j.sha256) then j.sha256 else None, j.size);
      map[j.key := JreEntry(j.version, map[j.platform := a])]
  }

  function JreFiles(jre: Option<Jre>, bytes: seq<byte>): (files: seq<File>)
  {
    match jre case None => [] case Some(j) => [File("jre/" + j.filename, bytes)]
  }

  function RawBytes(files: seq<File>): (n: nat)
  {
    if files == [] then 0 else RawBytes(files[..|files| - 1]) + |files[|files| - 1].data|
  }

  /** The entries handed to the ZIP writer: the registry, then every file. */
  function ZipEntries(lib: Libraries, registry: Registry, files: seq<File>): (entries: seq<Zip.Entry>)
    ensures |entries| == |files| + 1
  {
    [Zip.Entry(lib.encode(REGISTRY_NAME), lib.stringify(registry))] +
    seq(|files|, k requires 0 <= k < |files| => Zip.Entry(lib.encode(files[k].name), files[k].data))
  }

  /** Some file of the ZIP is the one an artifact of the registry points at. */
  ghost predicate Present(lib: Libraries, a: Artifact, dir: string, files: seq<File>)
  {
    exists k :: 0 <= k < |files| && Names(a, dir, files[k]) && Genuine(lib, a, files[k])
  }

  /** Present, whatever its size. */
  ghost predicate Linked(lib: Libraries, a: Artifact, dir: string, files: seq<File>)
  {
    && OFFLINE <= a.url
    && exists k :: 0 <= k < |files| && files[k].name == dir + a.url[|OFFLINE|..] && Genuine(lib, a, files[k])
  }

  /** The registry's artifacts are all in the ZIP, and every planned package is in both. */
  ghost predicate SelfContained(lib: Libraries, plan: Plan, registry: Registry, files: seq<File>)
  {
    && |files| == TaskCount(plan)
    && (forall key, slot :: At(registry.drivers, key, slot).Some? ==>
      Present(lib, At(registry.drivers, key, slot).value, "drivers/", files))
    && (forall key, p :: key in registry.jres && p in registry.jres[key].platforms ==>
      Linked(lib, registry.jres[key].platforms[p], "jre/", files))
    && (plan.jre.Some? ==>
         var j := plan.jre.value; j.key in registry.jres && j.platform in registry.jres[j.key].platforms)
  }

  /** Package `x` has its file at position `j` and its artifact's slot in the registry. */
  ghost predicate Contributes(x: Extracted, j: nat, registry: Registry, files: seq<File>)
  {
    j < |files| && files[j] == FileFor(x) && At(registry.drivers, x.key, SlotOf(x)).Some?
  }

  /** `x` is what a package downloaded for the URL holds, and all declared digests match. */
  ghost predicate ComesFrom(lib: Libraries, plan: Plan, fetched: Fetched, url: string, x: Extracted)
    requires |fetched| == TaskCount(plan)
  {
    exists i: nat :: i < |Items(plan)| && Items(plan)[i].url == url && fetched[i].Ok? &&
      Unpacks(lib, fetched[i].value, Items(plan)[i].key, x) && x.kind == Items(plan)[i].kind &&
      Digests(lib, Items(plan)[i].sha256, fetched[i].value) && Digests(lib, x.sha256, x.bytes)
  }

  lemma SourcedComes(lib: Libraries, plan: Plan, fetched: Fetched, url: string, x: Extracted)
    requires |fetched| == TaskCount(plan) && Sourced(lib, plan, fetched, url, x)
    ensures ComesFrom(lib, plan, fetched, url, x)
  {
    hide Task, Unpacks, Digests;
    var i: nat :| FromTask(lib, plan, fetched, url, x, i);
    TaskIff(lib, Items(plan)[i], fetched[i], x);
  }

  /** Item `j` of the plan contributes what a package downloaded for its URL holds. */
  ghost predicate Delivered(lib: Libraries, plan: Plan, fetched: Fetched, j: nat, registry: Registry, files: seq<File>)
    requires |fetched| == TaskCount(plan) && j < |Items(plan)|
  {
    exists x :: ComesFrom(lib, plan, fetched, Items(plan)[j].url, x) && Contributes(x, j, registry, files)
  }

  /** Registry and files are those of the packages `xs`, unpacked for the plan's items in order. */
  ghost predicate PutTogether(
      lib: Libraries, plan: Plan, fetched: Fetched, xs: seq<Extracted>, registry: Registry, files: seq<File>)
    requires |fetched| == TaskCount(plan)
  {
    && Picked(lib, plan, fetched, xs, |Items(plan)|) && Merged(xs) == Ok(registry.drivers)
    && exists bytes :: files == DriverFiles(xs) + JreFiles(plan.jre, bytes)
  }

  lemma DriversPresent(lib: Libraries, xs: seq<Extracted>, files: seq<File>, key: string, slot: Option<string>)
    requires AllWell(lib, xs) && Merged(xs).Ok? && DriverFiles(xs) <= files && At(Merged(xs).value, key, slot).Some?
    ensures Present(lib, At(Merged(xs).value, key, slot).value, "drivers/", files)
  {
    hide At, Merged, Names, LastAt;
    MergedAt(lib, xs, key, slot);
    var j := LastAtFound(xs, key, slot);
    assert Checked(lib, xs[j]);
    assert files[j] == DriverFiles(xs)[j];
  }

  lemma EachContributes(lib: Libraries, xs: seq<Extracted>, registry: Registry, files: seq<File>, j: nat)
    requires AllWell(lib, xs) && Merged(xs) == Ok(registry.drivers) && DriverFiles(xs) <= files && j < |xs|
    ensures Contributes(xs[j], j, registry, files)
  {
    hide At, Merged, Names, LastAt;
    assert Checked(lib, xs[j]);
    MergedAt(lib, xs, xs[j].key, SlotOf(xs[j]));
    LastAtKeeps(xs, j, SlotOf(xs[j]));
    assert files[j] == DriverFiles(xs)[j];
  }

  lemma JrePresent(lib: Libraries, jre: Jre, files: seq<File>, bytes: seq<byte>)
    requires |files| > 0 && files[|files| - 1] == File("jre/" + jre.filename, bytes)
    requires Truthy(jre.sha256) ==> lib.hash(bytes) == lib.lower(jre.sha256.value)
    ensures Linked(lib, Artifact(OFFLINE + jre.filename, if Truthy(jre.sha256) then jre.sha256 else None, jre.size),
      "jre/", files)
  {
    assert (OFFLINE + jre.filename)[|OFFLINE|..] == jre.filename;
  }

  /** Everything the assembler puts together is self-contained. */
  lemma AssembledSelfContained(lib: Libraries, plan: Plan, xs: seq<Extracted>, registry: Registry, bytes: seq<byte>)
    requires AllWell(lib, xs) && |xs| == |Items(plan)| && Merged(xs) == Ok(registry.drivers) &&
      registry.jres == Jres(plan.jre)
    requires plan.jre.Some? && Truthy(plan.jre.value.sha256) ==>
      lib.hash(bytes) == lib.lower(plan.jre.value.sha256.value)
    ensures SelfContained(lib, plan, registry, DriverFiles(xs) + JreFiles(plan.jre, bytes))
    ensures forall j: nat :: j < |xs| ==> Contributes(xs[j], j, registry, DriverFiles(xs) + JreFiles(plan.jre, bytes))
  {
    hide AllWell, Merged, At, Present, Linked, Contributes;
    var files := DriverFiles(xs) + JreFiles(plan.jre, bytes);
    forall key, slot | At(registry.drivers, key, slot).Some?
      ensures Present(lib, At(registry.drivers, key, slot).value, "drivers/", files)
    {
      DriversPresent(lib, xs, files, key, slot);
    }
    forall j: nat | j < |xs|
      ensures Contributes(xs[j], j, registry, files)
    {
      EachContributes(lib, xs, registry, files, j);
    }
    if plan.jre.Some? { JrePresent(lib, plan.jre.value, files, bytes); }
  }

  // ------------------------------------------------------------------------ the method

  lemma OneEventMore(log: seq<Pool.Event<Error>>, k: nat)
    requires k < |log|
    ensures Finished(log[..k + 1]) == Finished(log[..k]) + match log[k] case Done(i) => [i] case _ => []
    ensures Pool.FirstError(log[..k + 1])
      == if Pool.FirstError(log[..k]).Some? then Pool.FirstError(log[..k])
         else match log[k] case Fail(_, e) => Some(e) case _ => None
  {
    assert log[..k + 1][..k] == log[..k];
  }

  /** A pool that throws does so for a task that failed; one that does not has completed every task. */
  lemma HistoryFacts(
      lib: Libraries, plan: Plan, fetched: Fetched, moves: seq<Pool.Move<Error>>, log: seq<Pool.Event<Error>>)
    requires |fetched| == TaskCount(plan) && PoolHistory(lib, plan, fetched, moves, log)
    ensures Pool.FirstError(log).Some? ==>
      exists i: nat :: i < |fetched| && Settles(lib, plan, fetched, i) == Pool.FirstError(log)
    ensures Pool.FirstError(log).None? ==> Completion(Finished(log), |fetched|)
    ensures Pool.FirstError(log).None? <==> forall i: nat :: i < |fetched| ==> Settles(lib, plan, fetched, i).None?
  {
    hide Settles, Pool.Run;
    var n := |fetched|;
    Pool.PoolResult(n, CONCURRENCY, moves, 0);
    if Pool.FirstError(log).None? {
      PoolCompletes(n, CONCURRENCY, moves);
      FinishedSucceed(lib, plan, fetched, log);
      forall i: nat | i < n
        ensures Settles(lib, plan, fetched, i).None?
      {
        assert i in Finished(log);
      }
    } else {
      var a := FirstFailure(log);
      assert Answers(lib, plan, fetched, log[a]);
    }
  }

  lemma {:induction false} FirstFailure(log: seq<Pool.Event<Error>>) returns (a: nat)
    requires Pool.FirstError(log).Some?
    ensures a < |log| && log[a].Fail? && Pool.FirstError(log) == Some(log[a].error)
    decreases |log|
  {
    var front := log[..|log| - 1];
    if Pool.FirstError(front).Some? { a := FirstFailure(front); } else { a := |log| - 1; }
  }

  lemma {:induction false} FinishedSucceed(lib: Libraries, plan: Plan, fetched: Fetched, log: seq<Pool.Event<Error>>)
    requires |fetched| == TaskCount(plan) && forall k :: 0 <= k < |log| ==> Answers(lib, plan, fetched, log[k])
    ensures AllSucceed(lib, plan, fetched, Finished(log))
    decreases |log|
  {
    hide Settles;
    if log != [] {
      FinishedSucceed(lib, plan, fetched, log[..|log| - 1]);
      assert Answers(lib, plan, fetched, log[|log| - 1]);
    }
  }

  /**
   * The download tasks in the order in which the pool's history settles them: the pool's first
   * recorded error, or the packages by URL and the runtime's bytes.
   */
  method Download(
      lib: Libraries, plan: Plan, fetched: Fetched, log: seq<Pool.Event<Error>>, ghost moves: seq<Pool.Move<Error>>)
      returns (failure: Option<Error>, byUrl: map<string, Extracted>, jreBytes: seq<byte>)
    requires |fetched| == TaskCount(plan) && PoolHistory(lib, plan, fetched, moves, log)
    ensures failure == Pool.FirstError(log)
    ensures failure.None? <==> forall i: nat :: i < |fetched| ==> Settles(lib, plan, fetched, i).None?
    ensures failure.Some? ==> exists i: nat :: i < |fetched| && Settles(lib, plan, fetched, i) == failure
    ensures failure.None? ==> forall j: nat :: j < |Items(plan)| ==> Items(plan)[j].url in byUrl
    ensures failure.None? ==> forall url :: url in byUrl ==> Sourced(lib, plan, fetched, url, byUrl[url])
    ensures failure.None? && plan.jre.Some? ==> fetched[|Items(plan)|] == Ok(jreBytes)
    ensures failure.None? && plan.jre.Some? && Truthy(plan.jre.value.sha256) ==>
      lib.hash(jreBytes) == lib.lower(plan.jre.value.sha256.value)
  {
    hide Task, JreTask, FromTask, Sourced, Pool.FirstError, Finished, Pool.Run, Pool.Ended;
    HistoryFacts(lib, plan, fetched, moves, log);
    EmptyHistory();
    var items := Items(plan);
    failure, byUrl, jreBytes := None, map[], [];
    var k := 0;
    while k < |log|
      invariant 0 <= k <= |log| && failure == Pool.FirstError(log[..k])
      invariant byUrl == ByUrl(lib, plan, fetched, Finished(log[..k]))
      invariant |items| in Finished(log[..k]) && plan.jre.Some? ==> fetched[|items|] == Ok(jreBytes)
    {
      OneEventMore(log, k);
      assert Answers(lib, plan, fetched, log[k]);
      match log[k] {
        case Start(_) =>
          assert Finished(log[..k]) + [] == Finished(log[..k]);
        case Done(i) =>
          assert (Finished(log[..k]) + [i])[..|Finished(log[..k])|] == Finished(log[..k]);
          if i < |items| {
            byUrl := byUrl[items[i].url := Task(lib, items[i], fetched[i]).value];
          } else {
            JreBytes(lib, plan.jre.value, fetched[i]);
            jreBytes := JreTask(lib, plan.jre.value, fetched[i]).value;
          }
        case Fail(i, e) =>
          assert Finished(log[..k]) + [] == Finished(log[..k]);
          if failure.None? { failure := Some(e); }
      }
      k := k + 1;
    }
    assert log[..k] == log;
    FinishedSucceed(lib, plan, fetched, log);
    ByUrlFacts(lib, plan, fetched, Finished(log));
    if failure.None? {
      forall i: nat | i < |items|
        ensures items[i].url in byUrl
      {
        assert i in Finished(log);
      }
      if plan.jre.Some? {
        assert |items| in Finished(log);
        JreBytes(lib, plan.jre.value, fetched[|items|]);
      }
    }
  }

  lemma EmptyHistory()
    ensures Finished<Error>([]) == [] && Pool.FirstError<Error>([]) == None
  {}

  /**
   * assembleCustomBundle. `fetched[i]` is what the download of task `i` gave and `log` the
   * history of the pool that ran the tasks; `registry` and `files` are what was stored in the
   * returned ZIP.
   */
  method Assemble(
      lib: Libraries, plan: Plan, fetched: Fetched, log: seq<Pool.Event<Error>>, ghost moves: seq<Pool.Move<Error>>,
      time: nat, date: nat, table: array<Word>)
      returns (r: Result<seq<seq<byte>>>, registry: Registry, files: seq<File>)
    requires |fetched| == TaskCount(plan) && PoolHistory(lib, plan, fetched, moves, log)
    requires table.Length == 256 && table[..] == Entries(table.Length)
    ensures plan.drivers == [] ==> r == Err(NoDrivers)
    ensures plan.drivers != [] && Pool.FirstError(log).Some? ==> r == Err(Pool.FirstError(log).value)
    ensures r.Ok? ==> forall i: nat :: i < |fetched| ==> Settles(lib, plan, fetched, i).None?
    ensures r.Ok? ==> SelfContained(lib, plan, registry, files)
    ensures r.Ok? ==> forall j: nat :: j < |Items(plan)| ==> Delivered(lib, plan, fetched, j, registry, files)
    ensures r.Ok? ==> exists xs :: PutTogether(lib, plan, fetched, xs, registry, files)
    ensures r.Ok? && plan.jre.Some? ==>
      var n := |Items(plan)|;
      fetched[n].Ok? && files[n] == File("jre/" + plan.jre.value.filename, fetched[n].value)
    ensures r.Ok? ==> registry.jres == match plan.jre
      case None => map[]
      case Some(j) =>
        map[j.key := JreEntry(j.version, map[j.platform :=
          Artifact("offline://" + j.filename, if Truthy(j.sha256) then j.sha256 else None, j.size)])]
    ensures r.Ok? ==> RawBytes(files) <= 3_758_096_384
    ensures r.Ok? ==> Zip.Refusal(ZipEntries(lib, registry, files)).Built?
    ensures r.Ok? ==> Zip.IsArchive(r.value, ZipEntries(lib, registry, files), time, date)
    ensures r.Err? ==>
      || plan.drivers == []
      || Pool.FirstError(log) == Some(r.error)
      || (exists xs :: Picked(lib, plan, fetched, xs, |xs|) && Merged(xs) == Err(r.error))
      || (r.error == TooLarge && RawBytes(files) > 3_758_096_384)
      || (r.error.ZipRefused? && Zip.Refusal(ZipEntries(lib, registry, files)) == Zip.Failed(r.error.why))
  {
    hide Task, JreTask, SelfContained, Contributes, Merged, Merge, AllWell, Zip.IsArchive, Zip.Refusal, Picked,
      FromTask, Sourced, Delivered, Entries, Settles, RawBytes, PoolHistory, Pool.FirstError;
    registry, files := Registry(map[], map[]), [];
    if |plan.drivers| == 0 { return Err(NoDrivers), registry, files; }
    var items := Items(plan);
    var failure, byUrl, jreBytes := Download(lib, plan, fetched, log, moves);
    if failure.Some? { return Err(failure.value), registry, files; }
    var drivers: map<string, DriverEntry> := map[];
    ghost var xs: seq<Extracted> := [];
    var rawBytes := 0;
    PickedNothing(lib, plan, fetched);
    var n := 0;
    while n < |items|
      invariant 0 <= n <= |items| && items == Items(plan)
      invariant Picked(lib, plan, fetched, xs, n) && |xs| == n
      invariant Merged(xs) == Ok(drivers) && files == DriverFiles(xs) && rawBytes == RawBytes(files)
    {
      if items[n].url !in byUrl {
        assert false;
        return Err(NotDownloaded), registry, files;
      }
      var x := byUrl[items[n].url];
      var merged := Merge(drivers, x);
      PickedOneMore(lib, plan, fetched, xs, x, n);
      MergedOneMore(xs, x);
      if merged.Err? {
        assert Picked(lib, plan, fetched, xs + [x], |xs + [x]|);
        return Err(merged.error), registry, files;
      }
      drivers := merged.value;
      RawOneMore(files, FileFor(x));
      files := files + [FileFor(x)];
      xs := xs + [x];
      rawBytes := rawBytes + |x.bytes|;
      n := n + 1;
    }
    registry := Registry(Jres(plan.jre), drivers);
    if plan.jre.Some? {
      var f := File("jre/" + plan.jre.value.filename, jreBytes);
      RawOneMore(files, f);
      files := files + [f];
      rawBytes := rawBytes + |jreBytes|;
    }
    assert files == DriverFiles(xs) + JreFiles(plan.jre, jreBytes);
    if rawBytes > MAX_BUNDLE_BYTES { return Err(TooLarge), registry, files; }
    PickedWell(lib, plan, fetched, xs, n);
    AssembledSelfContained(lib, plan, xs, registry, jreBytes);
    AllDelivered(lib, plan, fetched, xs, registry, files);
    assert PutTogether(lib, plan, fetched, xs, registry, files);
    var zip := Zip.BuildStoredZip(ZipEntries(lib, registry, files), time, date, table);
    match zip {
      case Failed(e) => r := Err(ZipRefused(e));
      case Built(parts, _) => r := Ok(parts);
    }
  }

  lemma AllDelivered(
      lib: Libraries, plan: Plan, fetched: Fetched, xs: seq<Extracted>, registry: Registry, files: seq<File>)
    requires |fetched| == TaskCount(plan) && Picked(lib, plan, fetched, xs, |Items(plan)|)
    requires forall j: nat :: j < |xs| ==> Contributes(xs[j], j, registry, files)
    ensures forall j: nat :: j < |Items(plan)| ==> Delivered(lib, plan, fetched, j, registry, files)
  {
    hide Sourced, Contributes, ComesFrom;
    forall j: nat | j < |Items(plan)|
      ensures Delivered(lib, plan, fetched, j, registry, files)
    {
      SourcedComes(lib, plan, fetched, Items(plan)[j].url, xs[j]);
      assert Contributes(xs[j], j, registry, files);
    }
  }

  lemma JreBytes(lib: Libraries, jre: Jre, fetched: Result<seq<byte>>)
    ensures JreTask(lib, jre, fetched).Ok? ==> fetched == JreTask(lib, jre, fetched)
    ensures JreTask(lib, jre, fetched).Ok? && Truthy(jre.sha256) ==>
      lib.hash(fetched.value) == lib.lower(jre.sha256.value)
  {}

  lemma PickedNothing(lib: Libraries, plan: Plan, fetched: Fetched)
    requires |fetched| == TaskCount(plan)
    ensures Picked(lib, plan, fetched, [], 0) && Merged([]) == Ok(map[]) && RawBytes([]) == 0
  {}

  lemma PickedOneMore(lib: Libraries, plan: Plan, fetched: Fetched, xs: seq<Extracted>, x: Extracted, n: nat)
    requires |fetched| == TaskCount(plan) && Picked(lib, plan, fetched, xs, n) && n < |Items(plan)|
    requires Sourced(lib, plan, fetched, Items(plan)[n].url, x)
    ensures Picked(lib, plan, fetched, xs + [x], n + 1)
  {
    hide Sourced;
  }

  lemma MergedOneMore(xs: seq<Extracted>, x: Extracted)
    requires Merged(xs).Ok?
    ensures Merged(xs + [x]) == Merge(Merged(xs).value, x)
  {
    assert (xs + [x])[..|xs|] == xs;
  }

  lemma RawOneMore(files: seq<File>, f: File)
    ensures RawBytes(files + [f]) == RawBytes(files) + |f.data|
  {
    assert (files + [f])[..|files|] == files;
  }

  /** The registry is stored first, under its name, and then every file under its own. */
  lemma StoredEntries(lib: Libraries, registry: Registry, files: seq<File>, k: nat)
    requires k < |files|
    ensures var entries := ZipEntries(lib, registry, files);
      && entries[0] == Zip.Entry(lib.encode("agent-registry.json"), lib.stringify(registry))
      && entries[k + 1] == Zip.Entry(lib.encode(files[k].name), files[k].data)
  {}

  /** The finished ZIP reads back as the registry followed by every file, in order, just when its directory fits. */
  lemma BundleReadsBack(
      lib: Libraries, registry: Registry, files: seq<File>, parts: seq<seq<byte>>, time: nat, date: nat)
    requires var entries := ZipEntries(lib, registry, files);
      Zip.IsArchive(parts, entries, time, date) && Zip.Refusal(entries).Built?
    ensures var entries := ZipEntries(lib, registry, files); var n := |entries|;
      (ZipReader.ReadZip(Concat(parts)) == Some(entries))
      <==> Zip.LocalOffset(entries, n) <= Zip.MAX_U32 && Zip.CentralLength(entries, n) <= Zip.MAX_U32
  {
    hide Zip.IsArchive, Zip.Refusal, ZipReader.ReadZip, Zip.LocalOffset, Zip.CentralLength;
    ZipReader.RoundTrip(parts, ZipEntries(lib, registry, files), time, date);
  }

  /** Length of the stored names. */
  function NameBytes(entries: seq<Zip.Entry>): (n: nat)
  {
    if entries == [] then 0 else NameBytes(entries[..|entries| - 1]) + |entries[|entries| - 1].name|
  }

  function DataBytes(entries: seq<Zip.Entry>): (n: nat)
  {
    if entries == [] then 0 else DataBytes(entries[..|entries| - 1]) + |entries[|entries| - 1].data|
  }

  lemma {:induction false} ArchiveLength(entries: seq<Zip.Entry>, n: nat)
    requires n <= |entries|
    ensures Zip.LocalOffset(entries, n) == 30 * n + NameBytes(entries[..n]) + DataBytes(entries[..n])
    ensures Zip.CentralLength(entries, n) == 46 * n + NameBytes(entries[..n])
  {
    if n > 0 {
      ArchiveLength(entries, n - 1);
      assert entries[..n][..n - 1] == entries[..n - 1];
    }
  }

  lemma {:induction false} EntriesData(lib: Libraries, registry: Registry, files: seq<File>)
    ensures DataBytes(ZipEntries(lib, registry, files)) == |lib.stringify(registry)| + RawBytes(files)
    decreases |files|
  {
    var entries := ZipEntries(lib, registry, files);
    if files == [] {
      assert entries[..0] == [];
    } else {
      var front := files[..|files| - 1];
      EntriesData(lib, registry, front);
      assert entries[..|files|] == ZipEntries(lib, registry, front);
    }
  }

  /**
   * The 3.5 GiB stop keeps the promise it is there for: as long as headers, names and
   * registry stay within what is left below 4 GiB, the finished ZIP reads back whole.
   */
  lemma LimitLeavesRoom(
      lib: Libraries, registry: Registry, files: seq<File>, parts: seq<seq<byte>>, time: nat, date: nat)
    requires Zip.IsArchive(parts, ZipEntries(lib, registry, files), time, date) &&
      Zip.Refusal(ZipEntries(lib, registry, files)).Built?
    requires RawBytes(files) <= MAX_BUNDLE_BYTES
    requires 76 * (|files| + 1) + 2 * NameBytes(ZipEntries(lib, registry, files)) + |lib.stringify(registry)| + 22
      <= Zip.MAX_U32 - MAX_BUNDLE_BYTES
    ensures ZipReader.ReadZip(Concat(parts)) == Some(ZipEntries(lib, registry, files))
  {
    hide Zip.IsArchive, Zip.Refusal, ZipReader.ReadZip, ZipEntries, RawBytes, NameBytes, DataBytes, Zip.LocalOffset,
      Zip.CentralLength;
    var entries := ZipEntries(lib, registry, files);
    ArchiveLength(entries, |entries|);
    assert entries[..|entries|] == entries;
    EntriesData(lib, registry, files);
    BundleReadsBack(lib, registry, files, parts, time, date);
  }
}
