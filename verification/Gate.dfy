/**
 * MigrationGate of src-tauri/src/migration_gate.rs: `set_ready` stores the flag and then
 * notifies; `wait` registers with the notifier, checks the flag and only then parks. Each
 * store, notification, registration and check is one atomic step of some thread.
 */
module Gate {
  /** Where a waiter is in its loop; `notified` says its registration has been woken. */
  datatype Waiter = Top | Registered(notified: bool) | Parked(notified: bool) | Returned

  /** Where a setter is: between calls, or between its store and its notification. */
  datatype Setter = Between | Stored

  /** The shared flag and the threads. */
  datatype State = State(ready: bool, waiters: seq<Waiter>, setters: seq<Setter>)

  datatype Step = WaiterMoves(w: nat) | SetterMoves(k: nat, value: bool)

  /** notify_waiters wakes every registration that exists. */
  function Wake(w: Waiter): (out: Waiter)
  {
    match w
    case Registered(_) => Registered(true)
    case Parked(_) => Parked(true)
    case _ => w
  }

  function WakeAll(ws: seq<Waiter>): (out: seq<Waiter>)
    ensures |out| == |ws| && forall i :: 0 <= i < |ws| ==> out[i] == Wake(ws[i])
  {
    seq(|ws|, i requires 0 <= i < |ws| => Wake(ws[i]))
  }

  /** One step of `wait`. */
  function WaiterStep(w: Waiter, ready: bool): (out: Waiter)
  {
    match w
    case Top => Registered(false)
    case Registered(n) => if ready then Returned else Parked(n)
    case Parked(n) => if n then Top else w
    case Returned => w
  }

  function Next(s: State, step: Step): (out: State)
  {
    match step
    case WaiterMoves(w) =>
      if w < |s.waiters| then s.(waiters := s.waiters[w := WaiterStep(s.waiters[w], s.ready)]) else s
    case SetterMoves(k, value) =>
      if k >= |s.setters| then s
      else match s.setters[k]
        case Between => s.(ready := value, setters := s.setters[k := Stored])
        case Stored => s.(waiters := WakeAll(s.waiters), setters := s.setters[k := Between])
  }

  function Run(s: State, steps: seq<Step>): (out: State)
    ensures |out.waiters| == |s.waiters| && |out.setters| == |s.setters|
  {
    if steps == [] then s else Next(Run(s, steps[..|steps| - 1]), steps[|steps| - 1])
  }

  /** Nobody has started yet. */
  ghost predicate Initial(s: State)
  {
    && (forall i :: 0 <= i < |s.waiters| ==> s.waiters[i].Top?)
    && forall k :: 0 <= k < |s.setters| ==> s.setters[k].Between?
  }

  /** A waiter parked without a wake-up while the gate is open is owed one by some setter. */
  ghost predicate NoLostWakeup(s: State)
  {
    s.ready ==> forall i :: 0 <= i < |s.waiters| && s.waiters[i] == Parked(false) ==> SomeStored(s)
  }

  ghost predicate SomeStored(s: State)
  {
    exists k :: 0 <= k < |s.setters| && s.setters[k].Stored?
  }

  lemma StepKeeps(s: State, step: Step)
    requires NoLostWakeup(s)
    ensures NoLostWakeup(Next(s, step))
  {
    var out := Next(s, step);
    if step.SetterMoves? && step.k < |s.setters| && s.setters[step.k].Between? {
      assert out.setters[step.k].Stored?;
    } else if step.WaiterMoves? && SomeStored(s) {
      assert out.setters == s.setters;
      assert SomeStored(out);
    }
  }

  /** In every interleaving of waiters and setters no wake-up is lost. */
  lemma {:induction false} NeverLost(s: State, steps: seq<Step>)
    requires Initial(s)
    ensures NoLostWakeup(Run(s, steps))
    decreases |steps|
  {
    hide NoLostWakeup, Next;
    if steps == [] {
      InitialKeeps(s);
    } else {
      NeverLost(s, steps[..|steps| - 1]);
      StepKeeps(Run(s, steps[..|steps| - 1]), steps[|steps| - 1]);
    }
  }

  lemma InitialKeeps(s: State)
    requires Initial(s)
    ensures NoLostWakeup(s)
  {}

  /** A waiter returns only by a step of its own that reads the gate as open. */
  lemma {:induction false} ReturnsOnlyWhenReady(s: State, steps: seq<Step>, i: nat) returns (k: nat)
    requires Initial(s) && i < |s.waiters| && Run(s, steps).waiters[i].Returned?
    ensures k < |steps| && steps[k] == WaiterMoves(i)
    ensures var before := Run(s, steps[..k]); before.ready && before.waiters[i].Registered?
    decreases |steps|
  {
    k := 0;
    if steps != [] {
      var n := |steps| - 1;
      var front := steps[..n];
      if Run(s, front).waiters[i].Returned? {
        k := ReturnsOnlyWhenReady(s, front, i);
        assert front[..k] == steps[..k];
      } else {
        k := n;
      }
    }
  }

  /** How often waiter `i` moves. */
  function Moves(steps: seq<Step>, i: nat): (n: nat)
  {
    if steps == [] then 0 else Moves(steps[..|steps| - 1], i) + if steps[|steps| - 1] == WaiterMoves(i) then 1 else 0
  }

  /** No call sets the gate to closed. */
  ghost predicate NobodyCloses(steps: seq<Step>)
  {
    forall k :: 0 <= k < |steps| && steps[k].SetterMoves? ==> steps[k].value
  }

  /** Steps of its own a waiter at an open gate needs, as long as it is not parked without a wake-up. */
  function Need(w: Waiter): (n: nat)
  {
    match w case Returned => 0 case Registered(_) => 1 case Top => 2 case Parked(_) => 3
  }

  lemma OpenStep(s: State, step: Step, i: nat)
    requires s.ready && i < |s.waiters| && s.waiters[i] != Parked(false) && (step.SetterMoves? ==> step.value)
    ensures var t := Next(s, step);
      && t.ready && |t.waiters| == |s.waiters| && t.waiters[i] != Parked(false)
      && Need(t.waiters[i]) <= Need(s.waiters[i])
      && (step == WaiterMoves(i) && Need(s.waiters[i]) > 0 ==> Need(t.waiters[i]) < Need(s.waiters[i]))
  {}

  lemma {:induction false} OpenRun(t: State, more: seq<Step>, i: nat)
    requires t.ready && i < |t.waiters| && t.waiters[i] != Parked(false) && NobodyCloses(more)
    ensures var u := Run(t, more);
      && u.ready && u.waiters[i] != Parked(false)
      && (Need(u.waiters[i]) == 0 || Need(u.waiters[i]) + Moves(more, i) <= Need(t.waiters[i]))
    decreases |more|
  {
    hide Next;
    if more != [] {
      var front := more[..|more| - 1];
      OpenRun(t, front, i);
      OpenStep(Run(t, front), more[|more| - 1], i);
    }
  }

  /**
   * Once the gate is open and no setter is mid-call, every waiter has returned after three
   * steps of its own, however other waiters and setters that keep the gate open interleave.
   */
  lemma OpenGateLetsPass(s: State, steps: seq<Step>, more: seq<Step>, i: nat)
    requires Initial(s) && i < |s.waiters| && Run(s, steps).ready && !SomeStored(Run(s, steps))
    requires NobodyCloses(more) && Moves(more, i) >= 3
    ensures Run(Run(s, steps), more).waiters[i].Returned?
  {
    hide Run;
    NeverLost(s, steps);
    OpenRun(Run(s, steps), more, i);
  }

  // ------------------------------------------------------------------------ woken waiters

  /** The waiter's registration has been notified. */
  predicate Woken(w: Waiter)
  {
    w == Registered(true) || w == Parked(true)
  }

  lemma {:induction false} StaysWoken(s: State, steps: seq<Step>, i: nat)
    requires i < |s.waiters| && Woken(s.waiters[i]) && Moves(steps, i) == 0
    ensures Woken(Run(s, steps).waiters[i])
    decreases |steps|
  {
    if steps != [] {
      var front, last := steps[..|steps| - 1], steps[|steps| - 1];
      StaysWoken(s, front, i);
    }
  }

  /**
   * A notification is not lost between registering and parking: whatever the others do, a woken waiter
   * has returned or is back at the top of its loop after one or two steps of its own.
   */
  lemma WokenGoesOn(s: State, a: seq<Step>, b: seq<Step>, i: nat)
    requires i < |s.waiters| && Woken(s.waiters[i]) && Moves(a, i) == 0 && Moves(b, i) == 0
    ensures var t := Next(Run(s, a), WaiterMoves(i));
      var u := Next(Run(t, b), WaiterMoves(i));
      t.waiters[i].Top? || t.waiters[i].Returned? || u.waiters[i].Top?
  {
    StaysWoken(s, a, i);
    var t := Next(Run(s, a), WaiterMoves(i));
    if Woken(t.waiters[i]) { StaysWoken(t, b, i); }
  }
}
