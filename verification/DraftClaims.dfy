/**
 * handleIssueSubmit of docs/worker.ts for one draft: submitters claim the draft, create
 * the issue and complete or release, interleaved in any way with each other, with alarms
 * and with the clock. Every request to the durable object is one atomic step.
 */
module DraftClaims {
  import opened Options
  import opened Limiter

  /** Where a submitter is: before its claim, holding it, about to finish, or done. */
  datatype Submitter =
    | Idle
    | Holding(lease: int)
    | Created(lease: int, number: int, url: string)
    | Failing(lease: int)
    | Finished

  /** The draft's record, the submitters and the issues that exist on GitHub for the draft. */
  datatype State = State(draft: Option<Draft>, submitters: seq<Submitter>, issues: nat)

  datatype Action =
    | TryClaim
    | CreateIssue(number: int, url: string)
    | GiveUp
    | Finish(delivered: bool)
    | AlarmWipes

  /** Submitter `who` acts at time `now`. */
  datatype Step = Step(who: nat, now: nat, action: Action)

  predicate Holds(p: Submitter)
  {
    p.Holding? || p.Created? || p.Failing?
  }

  function Next(s: State, step: Step): (out: State)
    requires step.who < |s.submitters|
  {
    var p := s.submitters[step.who];
    match step.action
    case AlarmWipes => s.(draft := None)
    case TryClaim =>
      if !p.Idle? then s
      else
        var (d, answer) := ClaimDraft(s.draft, step.now);
        var q := if answer.Claimed? then Holding(step.now + CLAIM_TTL) else Finished;
        s.(draft := d, submitters := s.submitters[step.who := q])
    case CreateIssue(number, url) =>
      if !p.Holding? then s else s.(issues := s.issues + 1,
        submitters := s.submitters[step.who := Created(p.lease, number, url)])
    case GiveUp =>
      if !p.Holding? then s else s.(submitters := s.submitters[step.who := Failing(p.lease)])
    case Finish(delivered) =>
      match p
      case Created(_, number, url) =>
        var d := if delivered then CompleteDraft(s.draft, number, url, step.now) else s.draft;
        State(d, s.submitters[step.who := Finished], s.issues)
      case Failing(_) =>
        State(if delivered then ReleaseDraft(s.draft) else s.draft, s.submitters[step.who := Finished], s.issues)
      case _ => s
  }

  /** Submitter `step.who` is granted the claim. */
  predicate Grants(s: State, step: Step)
  {
    step.who < |s.submitters| && s.submitters[step.who].Idle? && step.action.TryClaim? &&
      ClaimDraft(s.draft, step.now).1.Claimed?
  }

  /** The step releases the draft. */
  predicate Releases(s: State, step: Step)
  {
    step.who < |s.submitters| && s.submitters[step.who].Failing? && step.action == Finish(true)
  }

  /** The time of the last step, or `since` before the first. */
  function Clock(since: nat, steps: seq<Step>): (now: nat)
  {
    if steps == [] then since else steps[|steps| - 1].now
  }

  /** Steps of existing submitters, at times that never go back. */
  ghost predicate RunOk(n: nat, since: nat, steps: seq<Step>)
  {
    steps == [] ||
    var front, last := steps[..|steps| - 1], steps[|steps| - 1];
    RunOk(n, since, front) && last.who < n && Clock(since, front) <= last.now
  }

  ghost function Run(s: State, since: nat, steps: seq<Step>): (out: State)
    requires RunOk(|s.submitters|, since, steps)
    ensures |out.submitters| == |s.submitters|
  {
    if steps == [] then s else Next(Run(s, since, steps[..|steps| - 1]), steps[|steps| - 1])
  }

  lemma {:induction false} ClockGrows(n: nat, since: nat, steps: seq<Step>)
    requires RunOk(n, since, steps)
    ensures since <= Clock(since, steps)
    decreases |steps|
  {
    if steps != [] { ClockGrows(n, since, steps[..|steps| - 1]); }
  }

  // ----------------------------------------------------------- a draft that stays submitted

  predicate IsSubmitted(d: Option<Draft>)
  {
    d.Some? && d.value.status == Submitted && ValidIssue(d.value.issueNumber, d.value.issueUrl)
  }

  /** No request takes a draft out of `submitted`, and claims on it are answered with its issue. */
  lemma SubmittedStays(d: Option<Draft>, now: int, number: int, url: string)
    requires IsSubmitted(d)
    ensures ClaimDraft(d, now) == (d, Completed(d.value.issueNumber, d.value.issueUrl))
    ensures ReleaseDraft(d) == d
    ensures IsSubmitted(CompleteDraft(d, number, url, now))
  {}

  /** The record names this issue. */
  predicate Names(d: Option<Draft>, number: int, url: string)
  {
    d.Some? && d.value.status == Submitted && d.value.issueNumber == number && d.value.issueUrl == url
  }

  /** The step wipes the record or records another issue. */
  predicate Overwrites(s: State, step: Step)
  {
    step.who < |s.submitters| && (step.action.AlarmWipes? ||
      (step.action == Finish(true) && s.submitters[step.who].Created? &&
       ValidIssue(s.submitters[step.who].number, s.submitters[step.who].url)))
  }

  ghost predicate NothingOverwrites(s: State, since: nat, steps: seq<Step>)
    requires RunOk(|s.submitters|, since, steps)
  {
    steps == [] ||
    var front, last := steps[..|steps| - 1], steps[|steps| - 1];
    NothingOverwrites(s, since, front) && !Overwrites(Run(s, since, front), last)
  }

  lemma StepNames(s: State, step: Step, number: int, url: string)
    requires step.who < |s.submitters| && ValidIssue(number, url) && Names(s.draft, number, url)
    requires !Overwrites(s, step)
    ensures Names(Next(s, step).draft, number, url)
  {}

  lemma {:induction false} RunNames(s: State, since: nat, steps: seq<Step>, number: int, url: string)
    requires RunOk(|s.submitters|, since, steps) && NothingOverwrites(s, since, steps)
    requires ValidIssue(number, url) && Names(s.draft, number, url)
    ensures Names(Run(s, since, steps).draft, number, url)
    decreases |steps|
  {
    hide Next, Names, Overwrites, ValidIssue;
    if steps != [] {
      var front := steps[..|steps| - 1];
      RunNames(s, since, front, number, url);
      StepNames(Run(s, since, front), steps[|steps| - 1], number, url);
    }
  }

  /**
   * Once the completion of a created issue has arrived, every claim, at any time and by whoever, is
   * answered with that issue until another completion arrives or an alarm wipes the record.
   */
  lemma ClaimsNameIssue(s: State, finish: Step, steps: seq<Step>, now: nat)
    requires finish.who < |s.submitters| && s.submitters[finish.who].Created? && s.draft.Some?
    requires finish.action == Finish(true)
    requires ValidIssue(s.submitters[finish.who].number, s.submitters[finish.who].url)
    requires RunOk(|Next(s, finish).submitters|, finish.now, steps)
    requires NothingOverwrites(Next(s, finish), finish.now, steps)
    ensures var p := s.submitters[finish.who];
      ClaimDraft(Run(Next(s, finish), finish.now, steps).draft, now).1 == Completed(p.number, p.url)
  {
    hide RunOk, Run, NothingOverwrites;
    var p := s.submitters[finish.who];
    RunNames(Next(s, finish), finish.now, steps, p.number, p.url);
  }

  // ------------------------------------------------------------------ grants are separated

  /** The record refuses every claim before `until`. */
  predicate Guarded(d: Option<Draft>, until: int)
  {
    || d.None?
    || IsSubmitted(d)
    || (d.value.status == Submitting && d.value.claimExpiresAt.Some? && d.value.claimExpiresAt.value >= until)
  }

  lemma StepGuarded(s: State, step: Step, until: int)
    requires step.who < |s.submitters| && Guarded(s.draft, until) && !Releases(s, step)
    requires step.now + CLAIM_TTL >= until
    ensures Guarded(Next(s, step).draft, until)
    ensures Grants(s, step) ==> step.now >= until
  {}

  ghost predicate NoRelease(s: State, since: nat, steps: seq<Step>)
    requires RunOk(|s.submitters|, since, steps)
  {
    steps == [] ||
    var front, last := steps[..|steps| - 1], steps[|steps| - 1];
    NoRelease(s, since, front) && !Releases(Run(s, since, front), last)
  }

  /** As long as nobody releases, the record refuses claims for the whole lifetime of the grant. */
  lemma {:induction false} StaysGuarded(s: State, since: nat, steps: seq<Step>)
    requires RunOk(|s.submitters|, since, steps) && NoRelease(s, since, steps) && Guarded(s.draft, since + CLAIM_TTL)
    ensures Guarded(Run(s, since, steps).draft, since + CLAIM_TTL)
    decreases |steps|
  {
    hide Next, Releases, Guarded, Grants;
    if steps != [] {
      var front := steps[..|steps| - 1];
      StaysGuarded(s, since, front);
      ClockGrows(|s.submitters|, since, front);
      StepGuarded(Run(s, since, front), steps[|steps| - 1], since + CLAIM_TTL);
    }
  }

  lemma GrantGuards(s: State, step: Step)
    requires Grants(s, step)
    ensures Guarded(Next(s, step).draft, step.now + CLAIM_TTL) && |Next(s, step).submitters| == |s.submitters|
    ensures !Releases(s, step)
  {}

  /** Whatever happens, two grants with no release between them are at least the claim lifetime apart. */
  lemma {:induction false} GrantsApart(s: State, grant: Step, steps: seq<Step>, next: Step)
    requires Grants(s, grant) && RunOk(|s.submitters|, grant.now, steps + [next])
    requires RunOk(|Next(s, grant).submitters|, grant.now, steps) && NoRelease(Next(s, grant), grant.now, steps)
    requires Grants(Run(Next(s, grant), grant.now, steps), next)
    ensures next.now >= grant.now + 120_000
  {
    hide Next, Releases, Guarded, Grants, NoRelease, Run, RunOk;
    GrantHasWho(s, grant);
    GrantGuards(s, grant);
    LastStep(|s.submitters|, grant.now, steps, next);
    StaysGuarded(Next(s, grant), grant.now, steps);
    ClockGrows(|s.submitters|, grant.now, steps);
    var t := Run(Next(s, grant), grant.now, steps);
    GrantGuards(t, next);
    StepGuarded(t, next, grant.now + CLAIM_TTL);
  }

  lemma LastStep(n: nat, since: nat, steps: seq<Step>, next: Step)
    requires RunOk(n, since, steps + [next])
    ensures RunOk(n, since, steps) && Clock(since, steps) <= next.now && next.who < n
  {
    assert (steps + [next])[..|steps|] == steps;
  }

  lemma GrantHasWho(s: State, step: Step)
    requires Grants(s, step)
    ensures step.who < |s.submitters|
  {}

  // ------------------------------------------------------------------- at most one issue

  /**
   * Each submitter that holds the claim acts within its lease, and the completion of one that
   * created an issue arrives.
   */
  ghost predicate Timely(s: State, step: Step)
  {
    && step.who < |s.submitters|
    && (forall p :: 0 <= p < |s.submitters| && Holds(s.submitters[p]) ==> step.now < s.submitters[p].lease)
    && (step.action.Finish? && s.submitters[step.who].Created? ==> step.action.delivered)
    && (step.action.CreateIssue? ==> ValidIssue(step.action.number, step.action.url))
  }

  ghost predicate TimelyRun(s: State, since: nat, steps: seq<Step>)
    requires RunOk(|s.submitters|, since, steps)
  {
    steps == [] ||
    var front, last := steps[..|steps| - 1], steps[|steps| - 1];
    TimelyRun(s, since, front) && Timely(Run(s, since, front), last)
  }

  /** No last request of a submitter is lost, releases included. */
  ghost predicate Lossless(steps: seq<Step>)
  {
    forall i :: 0 <= i < |steps| && steps[i].action.Finish? ==> steps[i].action.delivered
  }

  /** Only `p` may hold the claim. */
  ghost predicate OnlyHolder(s: State, p: int)
  {
    forall q :: 0 <= q < |s.submitters| && Holds(s.submitters[q]) ==> q == p
  }

  /**
   * The holder and what the record says about it; `p` is -1 when nobody holds. A lost release
   * leaves the record claimed.
   */
  ghost predicate Safe(s: State, p: int, lossless: bool)
  {
    && -1 <= p < |s.submitters| && OnlyHolder(s, p)
    && (p >= 0 ==>
      && Holds(s.submitters[p])
      && (s.draft.Some? ==>
           s.draft.value.status == Submitting && s.draft.value.claimExpiresAt == Some(s.submitters[p].lease))
      && s.issues == (if s.submitters[p].Created? then 1 else 0)
      && (s.submitters[p].Created? ==> ValidIssue(s.submitters[p].number, s.submitters[p].url)))
    && (p < 0 ==> s.issues <= 1 && (s.issues == 1 ==> s.draft.None? || IsSubmitted(s.draft)))
    && (p < 0 && s.draft.Some? ==>
         s.draft.value.status == Ready || IsSubmitted(s.draft) || (!lossless && s.draft.value.status == Submitting))
  }

  /** The holder after a step. */
  function HolderAfter(s: State, step: Step, p: int): (q: int)
  {
    if Grants(s, step) then step.who
    else if step.who == p && step.action.Finish? && 0 <= p < |s.submitters| && !s.submitters[p].Holding? then -1
    else p
  }

  lemma StepSafe(s: State, step: Step, p: int, lossless: bool)
    requires Safe(s, p, lossless) && Timely(s, step) && (lossless && step.action.Finish? ==> step.action.delivered)
    ensures Safe(Next(s, step), HolderAfter(s, step, p), lossless)
    ensures s.issues > 0 ==> !Grants(s, step)
  {}

  ghost predicate Fresh(s: State)
  {
    && s.issues == 0 && (s.draft.Some? ==> s.draft.value.status == Ready)
    && forall p :: 0 <= p < |s.submitters| ==> s.submitters[p].Idle?
  }

  lemma FreshSafe(s: State, lossless: bool)
    requires Fresh(s)
    ensures Safe(s, -1, lossless)
  {}

  lemma {:induction false} RunSafe(s: State, since: nat, steps: seq<Step>, lossless: bool) returns (p: int)
    requires Fresh(s) && RunOk(|s.submitters|, since, steps) && TimelyRun(s, since, steps) &&
      (lossless ==> Lossless(steps))
    ensures Safe(Run(s, since, steps), p, lossless)
    decreases |steps|
  {
    hide Safe, Fresh, Next, Timely, HolderAfter;
    if steps == [] {
      FreshSafe(s, lossless);
      p := -1;
    } else {
      var front := steps[..|steps| - 1];
      p := RunSafe(s, since, front, lossless);
      StepSafe(Run(s, since, front), steps[|steps| - 1], p, lossless);
      p := HolderAfter(Run(s, since, front), steps[|steps| - 1], p);
    }
  }

  /**
   * In every interleaving in which each claimant finishes within its lease and the completion of
   * a created issue arrives, at most one issue is created, and once it exists no claim on the
   * draft is granted again.
   */
  lemma AtMostOneIssue(s: State, since: nat, steps: seq<Step>, step: Step)
    requires Fresh(s) && RunOk(|s.submitters|, since, steps) && TimelyRun(s, since, steps)
    ensures Run(s, since, steps).issues <= 1
    ensures Run(s, since, steps).issues == 1 && Timely(Run(s, since, steps), step) ==>
      !Grants(Run(s, since, steps), step)
  {
    hide Fresh, Run, Next, Timely, TimelyRun, RunOk, Grants;
    var p := RunSafe(s, since, steps, false);
    var t := Run(s, since, steps);
    if Timely(t, step) { StepSafe(t, step, p, false); }
  }

  /** The record still shows a lease at `now`. */
  predicate Leased(d: Option<Draft>, now: int)
  {
    d.Some? && d.value.status == Submitting && d.value.claimExpiresAt.Some? && d.value.claimExpiresAt.value > now
  }

  /**
   * As long as no issue exists and nobody holds the claim, a claim on the unexpired draft is
   * granted if and only if no lease of a lost release still runs, and always if none was lost.
   */
  lemma FreeDraftIsGranted(s: State, since: nat, steps: seq<Step>, step: Step)
    requires Fresh(s) && RunOk(|s.submitters|, since, steps) && TimelyRun(s, since, steps)
    requires var t := Run(s, since, steps);
      && t.issues == 0 && (forall q :: 0 <= q < |t.submitters| ==> !Holds(t.submitters[q]))
      && step.who < |t.submitters| && t.submitters[step.who].Idle? && step.action.TryClaim?
      && t.draft.Some? && !IsSubmitted(t.draft) && step.now < t.draft.value.expiresAt
    ensures Grants(Run(s, since, steps), step) <==> !Leased(Run(s, since, steps).draft, step.now)
    ensures Lossless(steps) ==> Grants(Run(s, since, steps), step)
  {
    hide Fresh, Run, Next, TimelyRun, RunOk;
    if Lossless(steps) { var p := RunSafe(s, since, steps, true); }
  }

  /** The record is gone, submitted, or still has the expiry it was created with. */
  predicate KeepsExpiry(d: Option<Draft>, expiry: int)
  {
    d.None? || IsSubmitted(d) || d.value.expiresAt == expiry
  }

  lemma StepKeepsExpiry(s: State, step: Step, expiry: int)
    requires step.who < |s.submitters| && KeepsExpiry(s.draft, expiry)
    ensures KeepsExpiry(Next(s, step).draft, expiry)
    ensures Grants(s, step) ==> step.now < expiry
  {}

  lemma {:induction false} RunKeepsExpiry(s: State, since: nat, steps: seq<Step>, expiry: int)
    requires RunOk(|s.submitters|, since, steps) && KeepsExpiry(s.draft, expiry)
    ensures KeepsExpiry(Run(s, since, steps).draft, expiry)
    decreases |steps|
  {
    hide Next, KeepsExpiry;
    if steps != [] {
      var front := steps[..|steps| - 1];
      RunKeepsExpiry(s, since, front, expiry);
      StepKeepsExpiry(Run(s, since, front), steps[|steps| - 1], expiry);
    }
  }

  /** In every interleaving, timely or not, no claim is granted at or after the draft's expiry. */
  lemma NoGrantAfterExpiry(s: State, since: nat, steps: seq<Step>, step: Step, d: Draft)
    requires s.draft == Some(d) && RunOk(|s.submitters|, since, steps) && Grants(Run(s, since, steps), step)
    ensures step.now < d.expiresAt
  {
    hide Next, Run, RunOk;
    RunKeepsExpiry(s, since, steps, d.expiresAt);
    StepKeepsExpiry(Run(s, since, steps), step, d.expiresAt);
  }

  // ---------------------------------------------------- exactly when no issue can follow

  ghost predicate SomeIdle(s: State)
  {
    exists p :: 0 <= p < |s.submitters| && s.submitters[p].Idle?
  }

  ghost predicate SomeHolding(s: State)
  {
    exists p :: 0 <= p < |s.submitters| && s.submitters[p].Holding?
  }

  ghost predicate SomeFailing(s: State)
  {
    exists p :: 0 <= p < |s.submitters| && s.submitters[p].Failing?
  }

  /** When the record can next be claimed: at once, unless a lease runs that nobody is about to release. */
  ghost function FreeFrom(s: State, now: nat): (t: nat)
  {
    if Leased(s.draft, now) && !SomeFailing(s) then s.draft.value.claimExpiresAt.value else now
  }

  /** Nobody holds a claim, and nobody who could still ask for one would be granted it. */
  ghost predicate Closed(s: State, now: nat)
  {
    && !SomeHolding(s)
    && (!SomeIdle(s) || s.draft.None? || IsSubmitted(s.draft) || s.draft.value.expiresAt <= FreeFrom(s, now))
  }

  lemma StepClosed(s: State, now: nat, step: Step)
    requires step.who < |s.submitters| && Closed(s, now) && now <= step.now
    ensures Closed(Next(s, step), step.now) && Next(s, step).issues == s.issues
  {}

  lemma {:induction false} RunClosed(s: State, now: nat, steps: seq<Step>)
    requires RunOk(|s.submitters|, now, steps) && Closed(s, now)
    ensures Closed(Run(s, now, steps), Clock(now, steps)) && Run(s, now, steps).issues == s.issues
    decreases |steps|
  {
    hide Closed, Next;
    if steps != [] {
      var front := steps[..|steps| - 1];
      RunClosed(s, now, front);
      StepClosed(Run(s, now, front), Clock(now, front), steps[|steps| - 1]);
    }
  }

  /** From a state that is not closed, at most three steps lead to one more issue. */
  lemma OneMoreIssue(s: State, now: nat) returns (steps: seq<Step>)
    requires !Closed(s, now)
    ensures RunOk(|s.submitters|, now, steps) && Run(s, now, steps).issues == s.issues + 1
  {
    hide Run, RunOk;
    if SomeHolding(s) {
      var p :| 0 <= p < |s.submitters| && s.submitters[p].Holding?;
      steps := [Step(p, now, CreateIssue(1, "a"))];
      OneStep(s, now, steps[0]);
    } else {
      var p :| 0 <= p < |s.submitters| && s.submitters[p].Idle?;
      var t := FreeFrom(s, now);
      var claim, create := Step(p, t, TryClaim), Step(p, t, CreateIssue(1, "a"));
      if Leased(s.draft, now) && SomeFailing(s) {
        var q :| 0 <= q < |s.submitters| && s.submitters[q].Failing?;
        var release := Step(q, now, Finish(true));
        ThreeSteps(s, now, release, claim, create);
        steps := [release, claim, create];
      } else {
        TwoSteps(s, now, claim, create);
        steps := [claim, create];
      }
    }
  }

  /** In every state, further issues are impossible if and only if the state is closed. */
  lemma NoMoreIssuesIff(s: State, now: nat)
    ensures (forall steps :: RunOk(|s.submitters|, now, steps) ==> Run(s, now, steps).issues == s.issues)
      <==> Closed(s, now)
  {
    hide Closed, Next;
    if Closed(s, now) {
      forall steps | RunOk(|s.submitters|, now, steps)
        ensures Run(s, now, steps).issues == s.issues
      {
        RunClosed(s, now, steps);
      }
    } else {
      var steps := OneMoreIssue(s, now);
    }
  }

  /** An issue that a run has created stays the only one, whatever follows, if and only if the run ends closed. */
  lemma OnlyIssueStaysIff(s: State, since: nat, steps: seq<Step>)
    requires RunOk(|s.submitters|, since, steps) && Run(s, since, steps).issues == 1
    ensures (forall more :: RunOk(|s.submitters|, since, steps + more) ==> Run(s, since, steps + more).issues == 1)
      <==> Closed(Run(s, since, steps), Clock(since, steps))
  {
    hide Closed, Next, Run, RunOk;
    var t, now := Run(s, since, steps), Clock(since, steps);
    if Closed(t, now) {
      forall more | RunOk(|s.submitters|, since, steps + more)
        ensures Run(s, since, steps + more).issues == 1
      {
        RunAppend(s, since, steps, more);
        RunClosed(t, now, more);
      }
    } else {
      var more := OneMoreIssue(t, now);
      RunAppend(s, since, steps, more);
    }
  }

  // --------------------------------------------------- exactly when two issues are possible

  /** The record is gone or submitted, or its lease lasts until it expires. */
  predicate Spent(d: Option<Draft>)
  {
    || d.None?
    || IsSubmitted(d)
    || (d.value.status == Submitting && d.value.claimExpiresAt.Some? &&
        d.value.claimExpiresAt.value >= d.value.expiresAt)
  }

  /** Of a short-lived draft, only `p` may hold the claim, and the record is spent while it does or an issue exists. */
  ghost predicate ShortLived(s: State, p: int, since: nat)
  {
    && -1 <= p < |s.submitters| && OnlyHolder(s, p) && (p >= 0 ==> Holds(s.submitters[p]))
    && s.issues <= 1 && (p >= 0 && !s.submitters[p].Created? ==> s.issues == 0)
    && (p >= 0 || s.issues == 1 ==> Spent(s.draft))
    && (s.draft.None? || IsSubmitted(s.draft) || s.draft.value.expiresAt <= since + CLAIM_TTL)
  }

  lemma StepShortLived(s: State, step: Step, p: int, since: nat)
    requires step.who < |s.submitters| && ShortLived(s, p, since) && since <= step.now
    ensures ShortLived(Next(s, step), HolderAfter(s, step, p), since)
  {}

  lemma {:induction false} RunShortLived(s: State, since: nat, steps: seq<Step>) returns (p: int)
    requires RunOk(|s.submitters|, since, steps) && ShortLived(s, -1, since)
    ensures ShortLived(Run(s, since, steps), p, since)
    decreases |steps|
  {
    hide ShortLived, Next, HolderAfter;
    if steps == [] {
      p := -1;
    } else {
      var front := steps[..|steps| - 1];
      p := RunShortLived(s, since, front);
      ClockGrows(|s.submitters|, since, front);
      StepShortLived(Run(s, since, front), steps[|steps| - 1], p, since);
      p := HolderAfter(Run(s, since, front), steps[|steps| - 1], p);
    }
  }

  /** The only submitter has created an issue at most once. */
  ghost predicate Alone(s: State)
  {
    |s.submitters| <= 1 && s.issues <= 1 &&
    (s.issues == 1 ==> forall p :: 0 <= p < |s.submitters| ==> s.submitters[p].Created? || s.submitters[p].Finished?)
  }

  lemma StepAlone(s: State, step: Step)
    requires step.who < |s.submitters| && Alone(s)
    ensures Alone(Next(s, step))
  {}

  lemma {:induction false} RunAlone(s: State, since: nat, steps: seq<Step>)
    requires RunOk(|s.submitters|, since, steps) && Alone(s)
    ensures Alone(Run(s, since, steps))
    decreases |steps|
  {
    hide Alone, Next;
    if steps != [] {
      var front := steps[..|steps| - 1];
      RunAlone(s, since, front);
      StepAlone(Run(s, since, front), steps[|steps| - 1]);
    }
  }

  /**
   * A fresh draft gets at most one issue in every interleaving, late claimants and lost requests
   * included, if and only if it has one submitter or expires before the first lease can run out.
   */
  lemma NeverTwoIff(s: State, since: nat)
    requires Fresh(s)
    ensures (forall steps :: RunOk(|s.submitters|, since, steps) ==> Run(s, since, steps).issues <= 1)
      <==> |s.submitters| <= 1 || s.draft.None? || s.draft.value.expiresAt <= since + 120_000
  {
    hide Next, Run, RunOk;
    if |s.submitters| > 1 && s.draft.Some? && s.draft.value.expiresAt > since + CLAIM_TTL {
      LateClaimantMakesTwo(s, since);
    } else {
      forall steps | RunOk(|s.submitters|, since, steps)
        ensures Run(s, since, steps).issues <= 1
      {
        if |s.submitters| <= 1 { RunAlone(s, since, steps); } else { var p := RunShortLived(s, since, steps); }
      }
    }
  }

  // ------------------------------------------------------------- what happens without that

  function LateRun(since: nat): (steps: seq<Step>)
  {
    var end := since + CLAIM_TTL;
    [Step(0, since, TryClaim), Step(1, end, TryClaim), Step(0, end, CreateIssue(1, "a")),
     Step(1, end, CreateIssue(2, "b"))]
  }

  /** A claimant that creates its issue after its lease has run out leaves room for a second one. */
  lemma LateClaimantMakesTwo(s: State, since: nat)
    requires Fresh(s) && |s.submitters| > 1 && s.draft.Some? && s.draft.value.expiresAt > since + CLAIM_TTL
    ensures RunOk(|s.submitters|, since, LateRun(since)) && Run(s, since, LateRun(since)).issues == 2
  {
    hide Run, RunOk;
    var steps := LateRun(since);
    FourSteps(s, since, steps[0], steps[1], steps[2], steps[3]);
  }

  /**
   * A completion that is lost lets the next claim through although an issue exists, even when
   * the claimant was in time.
   */
  lemma LostCompletionGrantsAgain(d: Draft)
    requires d.status == Ready && d.expiresAt > CLAIM_TTL
    ensures var s := State(Some(d), [Idle, Idle], 0);
      var steps := [Step(0, 0, TryClaim), Step(0, 1, CreateIssue(1, "a")), Step(0, 2, Finish(false)),
        Step(1, CLAIM_TTL, TryClaim)];
      Fresh(s) && RunOk(2, 0, steps) && Grants(Run(s, 0, steps[..3]), steps[3]) && Run(s, 0, steps).issues == 1 &&
        Run(s, 0, steps).submitters[1].Holding?
  {
    hide Run, RunOk;
    var s := State(Some(d), [Idle, Idle], 0);
    var a, b, c, e := Step(0, 0, TryClaim), Step(0, 1, CreateIssue(1, "a")), Step(0, 2, Finish(false)),
      Step(1, CLAIM_TTL, TryClaim);
    FourSteps(s, 0, a, b, c, e);
  }

  // ------------------------------------------------------------------- runs step by step

  lemma OneStep(s: State, since: nat, a: Step)
    requires a.who < |s.submitters| && since <= a.now
    ensures RunOk(|s.submitters|, since, [a]) && Run(s, since, [a]) == Next(s, a)
  {
    hide Next;
    assert [a][..0] == [];
  }

  lemma TwoSteps(s: State, since: nat, a: Step, b: Step)
    requires a.who < |s.submitters| && b.who < |s.submitters| && since <= a.now <= b.now
    ensures RunOk(|s.submitters|, since, [a, b]) && Run(s, since, [a, b]) == Next(Next(s, a), b)
  {
    hide Next, Run, RunOk;
    OneStep(s, since, a);
    assert [a] + [b] == [a, b];
    RunSnoc(s, since, [a], b);
  }

  lemma ThreeSteps(s: State, since: nat, a: Step, b: Step, c: Step)
    requires a.who < |s.submitters| && b.who < |s.submitters| && c.who < |s.submitters|
    requires since <= a.now <= b.now <= c.now
    ensures RunOk(|s.submitters|, since, [a, b, c]) && Run(s, since, [a, b, c]) == Next(Next(Next(s, a), b), c)
  {
    hide Next, Run, RunOk;
    TwoSteps(s, since, a, b);
    assert [a, b] + [c] == [a, b, c];
    RunSnoc(s, since, [a, b], c);
  }

  lemma FourSteps(s: State, since: nat, a: Step, b: Step, c: Step, e: Step)
    requires a.who < |s.submitters| && b.who < |s.submitters| && c.who < |s.submitters| && e.who < |s.submitters|
    requires since <= a.now <= b.now <= c.now <= e.now
    ensures RunOk(|s.submitters|, since, [a, b, c, e]) && RunOk(|s.submitters|, since, [a, b, c])
    ensures [a, b, c, e][..3] == [a, b, c]
    ensures Run(s, since, [a, b, c]) == Next(Next(Next(s, a), b), c) &&
      Run(s, since, [a, b, c, e]) == Next(Next(Next(Next(s, a), b), c), e)
  {
    hide Next, Run, RunOk;
    ThreeSteps(s, since, a, b, c);
    assert [a, b, c] + [e] == [a, b, c, e];
    RunSnoc(s, since, [a, b, c], e);
    assert [a, b, c, e][..3] == [a, b, c];
  }

  lemma RunSnoc(s: State, since: nat, steps: seq<Step>, step: Step)
    requires RunOk(|s.submitters|, since, steps) && step.who < |s.submitters| && Clock(since, steps) <= step.now
    ensures RunOk(|s.submitters|, since, steps + [step])
    ensures Run(s, since, steps + [step]) == Next(Run(s, since, steps), step)
  {
    hide Next;
    assert (steps + [step])[..|steps|] == steps;
  }

  lemma {:induction false} RunAppend(s: State, since: nat, steps: seq<Step>, more: seq<Step>)
    requires RunOk(|s.submitters|, since, steps)
    ensures RunOk(|s.submitters|, since, steps + more) <==> RunOk(|s.submitters|, Clock(since, steps), more)
    ensures RunOk(|s.submitters|, since, steps + more) ==>
      Run(s, since, steps + more) == Run(Run(s, since, steps), Clock(since, steps), more)
    decreases |more|
  {
    hide Next;
    if more == [] {
      assert steps + more == steps;
    } else {
      var front := more[..|more| - 1];
      assert (steps + more)[..|steps + more| - 1] == steps + front;
      RunAppend(s, since, steps, front);
    }
  }
}
