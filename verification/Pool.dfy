/**
 * runPool of docs/lib/agentBundle.ts: workers that share a cursor and a failure cell.
 * Each atomic step is what one worker does between two awaits; a schedule picks the
 * worker of each step and how an awaited task settles, so schedules range over all
 * interleavings.
 */
module Pool {
  import opened Options

  datatype Worker = Ready | Running(task: nat) | Stopped

  datatype Event<E> = Start(task: nat) | Done(task: nat) | Fail(task: nat, error: E)

  /** The shared variables of the pool, and the history of its tasks. */
  datatype State<E> = State(workers: seq<Worker>, cursor: nat, failure: Option<E>, log: seq<Event<E>>)

  /** Worker `worker` moves; a task it awaits settles with `error`. */
  datatype Move<E> = Move(worker: nat, error: Option<E>)

  /** Math.max(1, Math.min(limit, tasks.length)) */
  function Width(n: nat, limit: int): (k: nat)
    ensures k >= 1 && (limit >= 1 ==> k <= limit) && (n >= 1 ==> k <= n)
    ensures limit >= 1 && n >= 1 ==> k == limit || k == n
  {
    var least := if limit < n then limit else n;
    if least < 1 then 1 else least
  }

  function Initial<E>(n: nat, limit: int): (s: State<E>)
  {
    State(seq(Width(n, limit), _ => Ready), 0, None, [])
  }

  function Step<E>(n: nat, s: State<E>, m: Move<E>): (out: State<E>)
  {
    if m.worker >= |s.workers| then s
    else match s.workers[m.worker]
      case Stopped => s
      case Ready =>
        if s.failure.Some? then s.(workers := s.workers[m.worker := Stopped])
        else if s.cursor >= n then s.(workers := s.workers[m.worker := Stopped], cursor := s.cursor + 1)
        else s.(workers := s.workers[m.worker := Running(s.cursor)], cursor := s.cursor + 1,
          log := s.log + [Start(s.cursor)])
      case Running(i) =>
        match m.error
        case None => s.(workers := s.workers[m.worker := Ready], log := s.log + [Done(i)])
        case Some(e) =>
          var first := if s.failure.Some? then s.failure else Some(e);
          s.(workers := s.workers[m.worker := Stopped], failure := first, log := s.log + [Fail(i, e)])
  }

  function Run<E>(n: nat, s: State<E>, moves: seq<Move<E>>): (out: State<E>)
  {
    if moves == [] then s else Step(n, Run(n, s, moves[..|moves| - 1]), moves[|moves| - 1])
  }

  /** Promise.all over the workers has resolved. */
  predicate Ended<E>(s: State<E>)
  {
    forall w :: 0 <= w < |s.workers| ==> s.workers[w].Stopped?
  }

  // -------------------------------------------------------------------------- counting

  function Count<T>(xs: seq<T>, p: T -> bool): (n: nat)
    ensures n <= |xs|
  {
    if xs == [] then 0 else Count(xs[..|xs| - 1], p) + if p(xs[|xs| - 1]) then 1 else 0
  }

  function One(b: bool): (n: nat) { if b then 1 else 0 }

  lemma CountSnoc<T>(xs: seq<T>, x: T, p: T -> bool)
    ensures Count(xs + [x], p) == Count(xs, p) + One(p(x))
  {
    assert (xs + [x])[..|xs|] == xs;
  }

  lemma {:induction false} CountUpdate<T>(xs: seq<T>, i: nat, x: T, p: T -> bool)
    requires i < |xs|
    ensures Count(xs[i := x], p) + One(p(xs[i])) == Count(xs, p) + One(p(x))
    decreases |xs|
  {
    var front := xs[..|xs| - 1];
    if i == |xs| - 1 {
      assert xs[i := x][..|xs| - 1] == front;
    } else {
      assert xs[i := x][..|xs| - 1] == front[i := x];
      CountUpdate(front, i, x, p);
    }
  }

  lemma {:induction false} CountNone<T>(xs: seq<T>, p: T -> bool)
    requires forall i :: 0 <= i < |xs| ==> !p(xs[i])
    ensures Count(xs, p) == 0
    decreases |xs|
  {
    if xs != [] { CountNone(xs[..|xs| - 1], p); }
  }

  function IsStart<E>(i: nat): (p: Event<E> -> bool) { (e: Event<E>) => e == Start(i) }
  function IsSettle<E>(i: nat): (p: Event<E> -> bool) { (e: Event<E>) => !e.Start? && e.task == i }
  function IsDone<E>(i: nat): (p: Event<E> -> bool) { (e: Event<E>) => e == Done(i) }
  function AnyStart<E>(): (p: Event<E> -> bool) { (e: Event<E>) => e.Start? }
  function AnySettle<E>(): (p: Event<E> -> bool) { (e: Event<E>) => !e.Start? }
  function IsRunning(i: nat): (p: Worker -> bool) { (w: Worker) => w == Running(i) }
  function AnyRunning(): (p: Worker -> bool) { (w: Worker) => w.Running? }
  function IsReady(): (p: Worker -> bool) { (w: Worker) => w == Ready }

  /** The error of the first failure in the history. */
  function FirstError<E>(log: seq<Event<E>>): (e: Option<E>)
  {
    if log == [] then None
    else
      var before := FirstError(log[..|log| - 1]);
      if before.Some? then before else match log[|log| - 1] case Fail(_, e) => Some(e) case _ => None
  }

  // ------------------------------------------------------------------------ invariants

  /** Tasks started, and tasks started and settled, as the shared variables say. */
  ghost predicate Counted<E>(n: nat, s: State<E>, i: nat)
  {
    && Count(s.log, IsStart(i)) == One(i < n && i < s.cursor)
    && Count(s.log, IsStart(i)) == Count(s.log, IsSettle(i)) + Count(s.workers, IsRunning(i))
  }

  ghost predicate Balanced<E>(s: State<E>)
  {
    Count(s.log, AnyStart()) == Count(s.log, AnySettle()) + Count(s.workers, AnyRunning())
  }

  ghost predicate NoStartAfterFailure<E>(log: seq<Event<E>>)
  {
    forall a, b :: 0 <= a < b < |log| && log[a].Fail? ==> !log[b].Start?
  }

  ghost predicate Failures<E>(s: State<E>)
  {
    && s.failure == FirstError(s.log) && NoStartAfterFailure(s.log)
    && (s.failure.None? ==> forall a :: 0 <= a < |s.log| ==> !s.log[a].Fail?)
  }

  /** A worker stops early only because of a failure or because no task is left. */
  ghost predicate StopsLate<E>(n: nat, s: State<E>)
  {
    s.failure.None? ==> forall w :: 0 <= w < |s.workers| && s.workers[w].Stopped? ==> s.cursor > n
  }

  lemma LogCounts<E>(log: seq<Event<E>>, e: Event<E>, i: nat)
    ensures Count(log + [e], IsStart(i)) == Count(log, IsStart(i)) + One(e == Start(i))
    ensures Count(log + [e], IsSettle(i)) == Count(log, IsSettle(i)) + One(!e.Start? && e.task == i)
  {
    hide Count;
    CountSnoc(log, e, IsStart(i));
    CountSnoc(log, e, IsSettle(i));
  }

  lemma WorkerCounts(workers: seq<Worker>, w: nat, to: Worker, i: nat)
    requires w < |workers|
    ensures Count(workers[w := to], IsRunning(i)) + One(workers[w] == Running(i))
      == Count(workers, IsRunning(i)) + One(to == Running(i))
  {
    hide Count;
    CountUpdate(workers, w, to, IsRunning(i));
  }

  lemma StepCounted<E>(n: nat, s: State<E>, m: Move<E>, i: nat)
    requires Counted(n, s, i)
    ensures Counted(n, Step(n, s, m), i)
  {
    hide Count, IsStart, IsSettle, IsRunning;
    var w := m.worker;
    if w < |s.workers| {
      match s.workers[w]
      case Stopped =>
      case Ready =>
        WorkerCounts(s.workers, w, Stopped, i);
        WorkerCounts(s.workers, w, Running(s.cursor), i);
        LogCounts(s.log, Start(s.cursor), i);
      case Running(j) =>
        match m.error {
          case None =>
            WorkerCounts(s.workers, w, Ready, i);
            LogCounts(s.log, Done(j), i);
          case Some(e) =>
            WorkerCounts(s.workers, w, Stopped, i);
            LogCounts(s.log, Fail(j, e), i);
        }
    }
  }

  lemma StepBalanced<E>(n: nat, s: State<E>, m: Move<E>)
    requires Balanced(s)
    ensures Balanced(Step(n, s, m))
  {
    hide Count;
    var out := Step(n, s, m);
    if m.worker < |s.workers| && !s.workers[m.worker].Stopped? {
      CountUpdate(s.workers, m.worker, out.workers[m.worker], AnyRunning());
      if |out.log| > |s.log| {
        var e := out.log[|s.log|];
        CountSnoc(s.log, e, AnyStart());
        CountSnoc(s.log, e, AnySettle());
      }
    }
  }

  lemma FirstErrorSnoc<E>(log: seq<Event<E>>, e: Event<E>)
    ensures FirstError(log + [e])
      == if FirstError(log).Some? then FirstError(log) else match e case Fail(_, x) => Some(x) case _ => None
  {
    assert (log + [e])[..|log|] == log;
  }

  lemma LateStart<E>(log: seq<Event<E>>, e: Event<E>)
    requires NoStartAfterFailure(log) && (e.Start? ==> forall a :: 0 <= a < |log| ==> !log[a].Fail?)
    ensures NoStartAfterFailure(log + [e])
  {}

  lemma StepFailures<E>(n: nat, s: State<E>, m: Move<E>)
    requires Failures(s)
    ensures Failures(Step(n, s, m))
    ensures s.failure.Some? ==> Step(n, s, m).failure == s.failure
  {
    hide FirstError;
    var out := Step(n, s, m);
    if |out.log| > |s.log| {
      var e := out.log[|s.log|];
      assert out.log == s.log + [e];
      FirstErrorSnoc(s.log, e);
      LateStart(s.log, e);
    }
  }

  lemma {:induction false} RunKeeps<E>(n: nat, limit: int, moves: seq<Move<E>>, i: nat)
    ensures var s := Run(n, Initial<E>(n, limit), moves);
      Counted(n, s, i) && Balanced(s) && Failures(s) && StopsLate(n, s) && |s.workers| == Width(n, limit)
    decreases |moves|
  {
    hide Counted, Balanced, Failures;
    if moves == [] {
      InitialKeeps<E>(n, limit, i);
    } else {
      var front, last := moves[..|moves| - 1], moves[|moves| - 1];
      var s := Run(n, Initial<E>(n, limit), front);
      RunKeeps(n, limit, front, i);
      StepCounted(n, s, last, i);
      StepBalanced(n, s, last);
      StepFailures(n, s, last);
    }
  }

  lemma InitialKeeps<E>(n: nat, limit: int, i: nat)
    ensures var s := Initial<E>(n, limit); Counted(n, s, i) && Balanced(s) && Failures(s) && StopsLate(n, s)
  {
    var s := Initial<E>(n, limit);
    CountNone(s.workers, IsRunning(i));
    CountNone(s.workers, AnyRunning());
  }

  // -------------------------------------------------------------------- main properties

  /**
   * At every point of every interleaving: each task started at most once, few run at once, none
   * starts after a failure.
   */
  lemma PoolSafe<E>(n: nat, limit: int, moves: seq<Move<E>>, i: nat)
    ensures var s := Run(n, Initial<E>(n, limit), moves);
      && Count(s.log, IsStart(i)) <= 1 && (Count(s.log, IsStart(i)) == 1 ==> i < n)
      && Count(s.log, IsSettle(i)) <= Count(s.log, IsStart(i))
      && Count(s.log, AnyStart()) - Count(s.log, AnySettle()) <= Width(n, limit)
      && NoStartAfterFailure(s.log)
  {
    RunKeeps(n, limit, moves, i);
  }

  lemma {:induction false} NoFailureAllDone<E>(log: seq<Event<E>>, i: nat)
    requires forall a :: 0 <= a < |log| ==> !log[a].Fail?
    ensures Count(log, IsSettle(i)) == Count(log, IsDone(i))
    decreases |log|
  {
    if log != [] { NoFailureAllDone(log[..|log| - 1], i); }
  }

  /**
   * When the pool ends, every started task has settled; it throws the first recorded
   * error, and if it does not throw, every task has completed exactly once.
   */
  lemma PoolResult<E>(n: nat, limit: int, moves: seq<Move<E>>, i: nat)
    requires Ended(Run(n, Initial<E>(n, limit), moves))
    ensures var s := Run(n, Initial<E>(n, limit), moves);
      && Count(s.log, IsSettle(i)) == Count(s.log, IsStart(i))
      && s.failure == FirstError(s.log)
      && (s.failure.Some? <==> exists a :: 0 <= a < |s.log| && s.log[a].Fail?)
      && (s.failure.None? && i < n ==> Count(s.log, IsStart(i)) == 1 && Count(s.log, IsDone(i)) == 1)
  {
    RunKeeps(n, limit, moves, i);
    var s := Run(n, Initial<E>(n, limit), moves);
    CountNone(s.workers, IsRunning(i));
    if s.failure.None? {
      assert s.workers[0].Stopped?;
      NoFailureAllDone(s.log, i);
    } else {
      SomeFailure(s.log);
    }
  }

  lemma {:induction false} SomeFailure<E>(log: seq<Event<E>>)
    requires FirstError(log).Some?
    ensures exists a :: 0 <= a < |log| && log[a].Fail?
    decreases |log|
  {
    var front := log[..|log| - 1];
    if FirstError(front).Some? {
      SomeFailure(front);
      var a :| 0 <= a < |front| && front[a].Fail?;
      assert log[a].Fail?;
    } else {
      assert log[|log| - 1].Fail?;
    }
  }

  /** The tasks a history starts, in order. */
  function Started<E>(log: seq<Event<E>>): (tasks: seq<nat>)
  {
    if log == [] then []
    else Started(log[..|log| - 1]) + match log[|log| - 1] case Start(i) => [i] case _ => []
  }

  lemma StartedSnoc<E>(log: seq<Event<E>>, e: Event<E>)
    ensures Started(log + [e]) == Started(log) + match e case Start(i) => [i] case _ => []
  {
    assert (log + [e])[..|log|] == log;
  }

  /** Every schedule starts the tasks in their order. */
  lemma {:induction false} StartsInOrder<E>(n: nat, limit: int, moves: seq<Move<E>>)
    ensures var s := Run(n, Initial<E>(n, limit), moves);
      Started(s.log) == seq(if s.cursor < n then s.cursor else n, k => k)
    decreases |moves|
  {
    if moves == [] {
      assert Started<E>([]) == seq(0, k => k);
    } else {
      StartsInOrder(n, limit, moves[..|moves| - 1]);
      StepStarts(n, Run(n, Initial<E>(n, limit), moves[..|moves| - 1]), moves[|moves| - 1]);
    }
  }

  lemma StepStarts<E>(n: nat, s: State<E>, m: Move<E>)
    requires Started(s.log) == seq(if s.cursor < n then s.cursor else n, k => k)
    ensures var out := Step(n, s, m); Started(out.log) == seq(if out.cursor < n then out.cursor else n, k => k)
  {
    hide Started;
    var out := Step(n, s, m);
    if |out.log| > |s.log| {
      var e := out.log[|s.log|];
      assert out.log == s.log + [e];
      StartedSnoc(s.log, e);
    }
    if out.cursor > s.cursor && s.cursor < n {
      assert seq(s.cursor, k => k) + [s.cursor] == seq(s.cursor + 1, k => k);
    }
  }

  /** The schedule in which the first `k` workers move once. */
  function FirstMoves<E>(k: nat): (moves: seq<Move<E>>)
  {
    if k == 0 then [] else FirstMoves(k - 1) + [Move(k - 1, None)]
  }

  /** As many tasks as allowed are really in flight at once. */
  lemma FullWidth<E>(n: nat, limit: int)
    requires n >= 1
    ensures var s := Run(n, Initial<E>(n, limit), FirstMoves(Width(n, limit)));
      Count(s.log, AnyStart()) - Count(s.log, AnySettle()) == Width(n, limit)
  {
    hide Run, Initial, Count, Width;
    FirstStarts<E>(n, limit, Width(n, limit));
  }

  lemma {:induction false} FirstStarts<E>(n: nat, limit: int, k: nat)
    requires k <= Width(n, limit) && n >= 1
    ensures FirstRunning(n, Width(n, limit), k, Run(n, Initial<E>(n, limit), FirstMoves(k)))
  {
    if k == 0 {
      assert FirstMoves<E>(0) == [];
      NothingRunning<E>(n, limit);
    } else {
      hide FirstRunning, Step, Width, Initial;
      FirstStarts<E>(n, limit, k - 1);
      var front: seq<Move<E>> := FirstMoves(k - 1);
      var all: seq<Move<E>> := FirstMoves(k);
      assert all[..|all| - 1] == front && all[|all| - 1] == Move(k - 1, None);
      OneMoreRunning(n, Width(n, limit), k, Run(n, Initial<E>(n, limit), front));
    }
  }

  /** The first `k` of `width` workers have each started a task, and nothing else has happened. */
  ghost predicate FirstRunning<E>(n: nat, width: nat, k: nat, s: State<E>)
  {
    && s.cursor == k && s.failure.None? && |s.workers| == width
    && (forall w :: k <= w < |s.workers| ==> s.workers[w] == Ready)
    && Count(s.log, AnyStart()) == k && Count(s.log, AnySettle()) == 0
  }

  lemma NothingRunning<E>(n: nat, limit: int)
    ensures FirstRunning(n, Width(n, limit), 0, Run(n, Initial<E>(n, limit), []))
  {}

  lemma OneMoreRunning<E>(n: nat, width: nat, k: nat, s: State<E>)
    requires 0 < k <= width && k <= n && FirstRunning(n, width, k - 1, s)
    ensures FirstRunning(n, width, k, Step(n, s, Move(k - 1, None)))
  {
    hide Count, AnyStart, AnySettle;
    StartCounted(s.log, k - 1);
  }

  lemma StartCounted<E>(log: seq<Event<E>>, i: nat)
    ensures Count(log + [Start(i)], AnyStart()) == Count(log, AnyStart()) + 1
    ensures Count(log + [Start(i)], AnySettle()) == Count(log, AnySettle())
  {
    hide Count;
    CountSnoc(log, Start(i), AnyStart());
    CountSnoc(log, Start(i), AnySettle());
  }

  // ------------------------------------------------------------------------ termination

  /** Steps the pool can still take. */
  function Left<E>(n: nat, s: State<E>): (k: nat)
  {
    2 * (if s.cursor < n then n - s.cursor else 0) + 2 * Count(s.workers, AnyRunning()) + Count(s.workers, IsReady())
  }

  lemma StepShrinks<E>(n: nat, s: State<E>, m: Move<E>)
    requires m.worker < |s.workers| && !s.workers[m.worker].Stopped?
    ensures Left(n, Step(n, s, m)) < Left(n, s)
  {
    var out := Step(n, s, m);
    CountUpdate(s.workers, m.worker, out.workers[m.worker], AnyRunning());
    CountUpdate(s.workers, m.worker, out.workers[m.worker], IsReady());
  }

  /** Every move is made by a worker that has not stopped. */
  ghost predicate Effective<E>(n: nat, s: State<E>, moves: seq<Move<E>>)
  {
    moves == [] ||
    var front, last := moves[..|moves| - 1], moves[|moves| - 1];
    var before := Run(n, s, front);
    Effective(n, s, front) && last.worker < |before.workers| && !before.workers[last.worker].Stopped?
  }

  lemma {:induction false} Spent<E>(n: nat, s: State<E>, moves: seq<Move<E>>)
    requires Effective(n, s, moves)
    ensures |moves| + Left(n, Run(n, s, moves)) <= Left(n, s)
    decreases |moves|
  {
    if moves != [] {
      var front := moves[..|moves| - 1];
      Spent(n, s, front);
      StepShrinks(n, Run(n, s, front), moves[|moves| - 1]);
    }
  }

  /** No interleaving has more than two steps per task and one per worker. */
  lemma PoolEnds<E>(n: nat, limit: int, moves: seq<Move<E>>)
    requires Effective(n, Initial<E>(n, limit), moves)
    ensures |moves| <= 2 * n + Width(n, limit)
  {
    var s := Initial<E>(n, limit);
    Spent(n, s, moves);
    CountNone(s.workers, AnyRunning());
  }

  /** Every task in the history settled as `settle` says. */
  ghost predicate Obeys<E>(log: seq<Event<E>>, settle: nat -> Option<E>)
  {
    forall k :: 0 <= k < |log| && !log[k].Start? ==>
      settle(log[k].task) == match log[k] case Fail(_, e) => Some(e) case _ => None
  }

  /** From every state the pool can be run to its end, whatever its tasks do. */
  lemma CanEnd<E>(n: nat, s: State<E>, settle: nat -> Option<E>) returns (moves: seq<Move<E>>)
    requires Obeys(s.log, settle)
    ensures Effective(n, s, moves) && Ended(Run(n, s, moves)) && Obeys(Run(n, s, moves).log, settle)
  {
    moves := [];
    while !Ended(Run(n, s, moves))
      invariant Effective(n, s, moves) && Obeys(Run(n, s, moves).log, settle)
      decreases Left(n, Run(n, s, moves))
    {
      var t := Run(n, s, moves);
      var w :| 0 <= w < |t.workers| && !t.workers[w].Stopped?;
      var m := Move(w, match t.workers[w] case Running(i) => settle(i) case _ => None);
      StepShrinks(n, t, m);
      assert (moves + [m])[..|moves|] == moves;
      moves := moves + [m];
    }
  }

  /**
   * The pool itself, under any schedule that runs it to its end: the shared variables are
   * updated by one worker at a time.
   */
  method RunPool<E>(n: nat, limit: int, moves: seq<Move<E>>) returns (failure: Option<E>, log: seq<Event<E>>)
    requires Effective(n, Initial<E>(n, limit), moves) && Ended(Run(n, Initial<E>(n, limit), moves))
    ensures failure == FirstError(log) && log == Run(n, Initial<E>(n, limit), moves).log
    ensures failure.None? ==> forall i :: 0 <= i < n ==> Count(log, IsStart(i)) == 1 && Count(log, IsDone(i)) == 1
    ensures forall i: nat :: Count(log, IsStart(i)) <= 1 && Count(log, IsSettle(i)) == Count(log, IsStart(i))
    ensures NoStartAfterFailure(log)
  {
    hide Count, FirstError, NoStartAfterFailure, Effective, Ended;
    var workers, cursor := seq(Width(n, limit), _ => Ready), 0;
    failure, log := None, [];
    ghost var start := Initial<E>(n, limit);
    var k := 0;
    while k < |moves|
      invariant 0 <= k <= |moves|
      invariant State(workers, cursor, failure, log) == Run(n, start, moves[..k])
      invariant |workers| == Width(n, limit)
    {
      assert moves[..k + 1][..k] == moves[..k];
      var w := moves[k].worker;
      if w < |workers| {
        match workers[w] {
          case Stopped =>
          case Ready =>
            if failure.Some? {
              workers := workers[w := Stopped];
            } else {
              var index := cursor;
              cursor := cursor + 1;
              if index >= n {
                workers := workers[w := Stopped];
              } else {
                workers, log := workers[w := Running(index)], log + [Start(index)];
              }
            }
          case Running(i) =>
            match moves[k].error {
              case None => workers, log := workers[w := Ready], log + [Done(i)];
              case Some(e) =>
                if failure.None? { failure := Some(e); }
                workers, log := workers[w := Stopped], log + [Fail(i, e)];
            }
        }
      }
      k := k + 1;
    }
    assert moves[..k] == moves;
    forall i: nat
      ensures Count(log, IsStart(i)) <= 1 && Count(log, IsSettle(i)) == Count(log, IsStart(i))
      ensures failure == FirstError(log) && NoStartAfterFailure(log)
      ensures failure.None? && i < n ==> Count(log, IsStart(i)) == 1 && Count(log, IsDone(i)) == 1
    {
      PoolSafe(n, limit, moves, i);
      PoolResult(n, limit, moves, i);
    }
    PoolResult(n, limit, moves, 0);
    PoolSafe(n, limit, moves, 0);
  }
}
