/**
 * IssueSubmissionLimiter of docs/worker.ts with consumeRollingLimit of
 * docs/lib/issueSubmission.ts: one durable object whose storage holds the times of
 * admitted requests and the drafts of a session. Times are in milliseconds.
 */
module Limiter {
  import opened Options

  const LIMIT: nat := 8
  const WINDOW: nat := 3_600_000
  const CLAIM_TTL: nat := 120_000
  const ALARM_SLACK: nat := 1000

  // --------------------------------------------------------------------- rolling limit

  /** RollingLimitResult; `resetAt` is None where the source computes NaN. */
  datatype Rolling = Rolling(allowed: bool, timestamps: seq<int>, remaining: nat, resetAt: Option<int>)

  /** The timestamps still inside the window that ends now. */
  function Active(ts: seq<int>, after: int): (out: seq<int>)
  {
    if ts == [] then [] else Active(ts[..|ts| - 1], after) + if ts[|ts| - 1] > after then [ts[|ts| - 1]] else []
  }

  predicate Sorted(ts: seq<int>)
  {
    forall i, j :: 0 <= i < j < |ts| ==> ts[i] <= ts[j]
  }

  function Insert(t: int, ts: seq<int>): (out: seq<int>)
  {
    if ts == [] || ts[|ts| - 1] <= t then ts + [t] else Insert(t, ts[..|ts| - 1]) + [ts[|ts| - 1]]
  }

  /** Array.prototype.sort with a numeric comparison. */
  function SortTimes(ts: seq<int>): (out: seq<int>)
  {
    if ts == [] then [] else Insert(ts[|ts| - 1], SortTimes(ts[..|ts| - 1]))
  }

  lemma {:induction false} InsertSame(t: int, ts: seq<int>)
    ensures multiset(Insert(t, ts)) == multiset(ts) + multiset{t}
    decreases |ts|
  {
    if ts != [] && ts[|ts| - 1] > t {
      InsertSame(t, ts[..|ts| - 1]);
      assert ts == ts[..|ts| - 1] + [ts[|ts| - 1]];
    }
  }

  lemma {:induction false} InsertSorted(t: int, ts: seq<int>, bound: int)
    requires Sorted(ts) && t <= bound && (forall i :: 0 <= i < |ts| ==> ts[i] <= bound)
    ensures Sorted(Insert(t, ts)) && forall i :: 0 <= i < |Insert(t, ts)| ==> Insert(t, ts)[i] <= bound
    decreases |ts|
  {
    if ts != [] && ts[|ts| - 1] > t {
      InsertSorted(t, ts[..|ts| - 1], ts[|ts| - 1]);
    }
  }

  lemma {:induction false} Bounded(ts: seq<int>) returns (bound: int)
    ensures forall i :: 0 <= i < |ts| ==> ts[i] <= bound
    decreases |ts|
  {
    if ts == [] {
      bound := 0;
    } else {
      bound := Bounded(ts[..|ts| - 1]);
      if ts[|ts| - 1] > bound { bound := ts[|ts| - 1]; }
    }
  }

  /** Sorting orders the timestamps and keeps each of them. */
  lemma {:induction false} SortFacts(ts: seq<int>)
    ensures Sorted(SortTimes(ts)) && multiset(SortTimes(ts)) == multiset(ts)
    decreases |ts|
  {
    hide Insert;
    if ts != [] {
      var front, last := ts[..|ts| - 1], ts[|ts| - 1];
      SortFacts(front);
      InsertSame(last, SortTimes(front));
      var bound := Bounded(SortTimes(front) + [last]);
      assert (SortTimes(front) + [last])[|SortTimes(front)|] == last;
      forall i | 0 <= i < |SortTimes(front)|
        ensures SortTimes(front)[i] <= bound
      {
        assert (SortTimes(front) + [last])[i] <= bound;
      }
      InsertSorted(last, SortTimes(front), bound);
      assert ts == front + [last];
    }
  }

  lemma {:induction false} SortedStays(ts: seq<int>)
    requires Sorted(ts)
    ensures SortTimes(ts) == ts
    decreases |ts|
  {
    if ts != [] {
      var front := ts[..|ts| - 1];
      SortedStays(front);
      assert front != [] ==> front[|front| - 1] <= ts[|ts| - 1];
    }
  }

  function Consume(ts: seq<int>, now: int, limit: int, window: int): (r: Rolling)
  {
    var active := SortTimes(Active(ts, now - window));
    if |active| >= limit then Rolling(false, active, 0, if active == [] then None else Some(active[0] + window))
    else
      var all := active + [now];
      Rolling(true, all, if limit > |all| then limit - |all| else 0, Some(all[0] + window))
  }

  /**
   * For arbitrary stored timestamps: a request is allowed if and only if fewer than `limit` of them
   * lie behind `now - window`; exactly these are kept, in order, `now` after them if it is allowed,
   * and the reset is one window after the earliest kept.
   */
  lemma ConsumeMeaning(ts: seq<int>, now: int, limit: nat, window: nat, t: int)
    ensures var r := Consume(ts, now, limit, window);
      && (r.allowed <==> Later(ts, now - window) < limit)
      && |r.timestamps| == Later(ts, now - window) + (if r.allowed then 1 else 0)
      && r.remaining == (if r.allowed then limit - |r.timestamps| else 0)
      && multiset(r.timestamps)[t]
         == (if t > now - window then multiset(ts)[t] else 0) + (if r.allowed && t == now then 1 else 0)
      && (r.allowed ==> r.timestamps[|r.timestamps| - 1] == now && Sorted(r.timestamps[..|r.timestamps| - 1]))
      && (!r.allowed ==> Sorted(r.timestamps))
      && (r.timestamps != [] ==> r.resetAt == Some(r.timestamps[0] + window))
  {
    hide SortTimes, Active, Later, Sorted, Consume;
    ActiveKeeps(ts, now - window, t);
    SortFacts(Active(ts, now - window));
    var active := SortTimes(Active(ts, now - window));
    SameLength(active, Active(ts, now - window));
    AnswerIs(ts, now, limit, window, active);
    PushedCount(active, now, t);
  }

  lemma SameLength(a: seq<int>, b: seq<int>)
    requires multiset(a) == multiset(b)
    ensures |a| == |b|
  {
    assert |multiset(a)| == |a| && |multiset(b)| == |b|;
  }

  lemma PushedCount(a: seq<int>, now: int, t: int)
    ensures multiset(a + [now])[t] == multiset(a)[t] + (if t == now then 1 else 0) && (a + [now])[..|a|] == a
  {}

  /** The answer in terms of the sorted active timestamps. */
  lemma AnswerIs(ts: seq<int>, now: int, limit: nat, window: nat, active: seq<int>)
    requires active == SortTimes(Active(ts, now - window))
    ensures var r := Consume(ts, now, limit, window);
      && (r.allowed <==> |active| < limit) && r.timestamps == (if r.allowed then active + [now] else active)
      && r.remaining == (if r.allowed then limit - |r.timestamps| else 0)
      && (r.timestamps != [] ==> r.resetAt == Some(r.timestamps[0] + window))
  {
    hide SortTimes, Active;
  }

  /** How many timestamps are later than `after`. */
  function Later(ts: seq<int>, after: int): (n: nat)
  {
    if ts == [] then 0 else (if ts[0] > after then 1 else 0) + Later(ts[1..], after)
  }

  lemma {:induction false} LaterSnoc(ts: seq<int>, t: int, after: int)
    ensures Later(ts + [t], after) == Later(ts, after) + if t > after then 1 else 0
  {
    if ts == [] {
      assert (ts + [t])[1..] == [];
    } else {
      assert (ts + [t])[1..] == ts[1..] + [t];
      LaterSnoc(ts[1..], t, after);
    }
  }

  lemma {:induction false} ActiveKeeps(ts: seq<int>, after: int, t: int)
    ensures |Active(ts, after)| == Later(ts, after)
    ensures multiset(Active(ts, after))[t] == if t > after then multiset(ts)[t] else 0
    decreases |ts|
  {
    if ts != [] {
      var front, last := ts[..|ts| - 1], ts[|ts| - 1];
      ActiveKeeps(front, after, t);
      assert ts == front + [last];
      LaterSnoc(front, last, after);
    }
  }

  /** consumeRollingLimit */
  method ConsumeRollingLimit(timestamps: seq<int>, now: int, limit: int, window: int) returns (r: Rolling)
    ensures r == Consume(timestamps, now, limit, window)
  {
    var active := [];
    var i := 0;
    while i < |timestamps|
      invariant 0 <= i <= |timestamps|
      invariant active == Active(timestamps[..i], now - window)
    {
      assert timestamps[..i + 1][..i] == timestamps[..i];
      if timestamps[i] > now - window { active := active + [timestamps[i]]; }
      i := i + 1;
    }
    assert timestamps[..i] == timestamps;
    active := SortTimes(active);
    if |active| >= limit {
      return Rolling(false, active, 0, if active == [] then None else Some(active[0] + window));
    }
    active := active + [now];
    r := Rolling(true, active, if limit > |active| then limit - |active| else 0, Some(active[0] + window));
  }

  // ---------------------------------------------------------------------------- drafts

  datatype Status = Ready | Submitting | Submitted

  /** The fields of IssueDraftRecord that the protocol reads or writes. */
  datatype Draft = Draft(status: Status, expiresAt: int, claimExpiresAt: Option<int>, issueNumber: int,
    issueUrl: string)

  datatype Claim = Claimed(draft: Draft) | Completed(issueNumber: int, issueUrl: string) | Missing | Expired | Busy

  /** The record and the answer after /draft/claim. */
  function ClaimDraft(d: Option<Draft>, now: int): (r: (Option<Draft>, Claim))
  {
    match d
    case None => (None, Missing)
    case Some(x) =>
      if x.status == Submitted && x.issueNumber != 0 && x.issueUrl != "" then (d, Completed(x.issueNumber, x.issueUrl))
      else if x.expiresAt <= now then (None, Expired)
      else if x.status == Submitting && (match x.claimExpiresAt case Some(t) => t case None => 0) > now then (d, Busy)
      else
        var y := x.(status := Submitting, claimExpiresAt := Some(now + CLAIM_TTL));
        (Some(y), Claimed(y))
  }

  function ReleaseDraft(d: Option<Draft>): (r: Option<Draft>)
  {
    if d.Some? && d.value.status == Submitting then Some(d.value.(status := Ready, claimExpiresAt := None)) else d
  }

  predicate ValidIssue(number: int, url: string)
  {
    number != 0 && url != ""
  }

  function CompleteDraft(d: Option<Draft>, number: int, url: string, now: int): (r: Option<Draft>)
  {
    if !ValidIssue(number, url) then d
    else match d
      case None => None
      case Some(x) => Some(Draft(Submitted, now + WINDOW, None, number, url))
  }

  /** A lease runs at `now`; one without an end counts as ended at the epoch. */
  predicate Held(d: Draft, now: int)
  {
    d.status == Submitting && now < if d.claimExpiresAt.Some? then d.claimExpiresAt.value else 0
  }

  /**
   * The answer to a claim: the issue of a submitted draft at any time, no draft, an expired draft,
   * which is then gone, a draft whose lease still runs, and otherwise a lease of two minutes.
   */
  lemma ClaimAnswers(d: Option<Draft>, now: int)
    ensures var (after, answer) := ClaimDraft(d, now);
      var known := d.Some? && d.value.status == Submitted && ValidIssue(d.value.issueNumber, d.value.issueUrl);
      && (answer == Missing <==> d == None) && (answer.Completed? <==> known)
      && (known ==> answer == Completed(d.value.issueNumber, d.value.issueUrl))
      && (answer == Expired <==> d.Some? && !known && now >= d.value.expiresAt)
      && (answer.Claimed? <==> d.Some? && !known && now < d.value.expiresAt && !Held(d.value, now))
      && (answer == Busy <==> d.Some? && !known && now < d.value.expiresAt && Held(d.value, now))
      && (after == None <==> answer == Missing || answer == Expired)
      && (answer.Claimed? ==> after == Some(d.value.(status := Submitting, claimExpiresAt := Some(now + 120_000))))
      && (answer.Claimed? ==> after == Some(answer.draft))
      && (answer.Completed? || answer == Busy ==> after == d)
  {}

  /**
   * A released draft is what it was before its claim, ready and without a lease, so that the next claim
   * before its expiry is granted; a draft that is not being submitted is left alone.
   */
  lemma ReleaseUndoesClaim(d: Option<Draft>, now: int, later: int)
    ensures d.Some? && d.value.status == Ready && d.value.claimExpiresAt == None && now < d.value.expiresAt ==>
      ReleaseDraft(ClaimDraft(d, now).0) == d
    ensures d.Some? && d.value.status == Submitting && later < d.value.expiresAt ==>
      ClaimDraft(ReleaseDraft(d), later).1.Claimed? && ReleaseDraft(d).value.claimExpiresAt == None
    ensures d.None? || d.value.status != Submitting ==> ReleaseDraft(d) == d
  {}

  /** A valid completion of a stored draft records its issue, to be remembered for an hour and claimed as it is. */
  lemma CompletionRecorded(d: Option<Draft>, number: int, url: string, now: int, later: int)
    requires d.Some? && ValidIssue(number, url)
    ensures CompleteDraft(d, number, url, now) == Some(Draft(Submitted, now + 3_600_000, None, number, url))
    ensures ClaimDraft(CompleteDraft(d, number, url, now), later).1 == Completed(number, url)
  {}

  // ------------------------------------------------------------------ the durable object

  class IssueSubmissionLimiter {
    var rate: seq<int>
    var alarmAt: Option<int>
    var drafts: map<string, Draft>

    function DraftOf(id: string): (d: Option<Draft>)
      reads this
    {
      if id in drafts then Some(drafts[id]) else None
    }


    /** POST /limit/consume */
    method ConsumeRequest(now: int) returns (r: Rolling)
      modifies this`rate, this`alarmAt
      ensures r == Consume(old(rate), now, LIMIT, WINDOW)
      ensures rate == if r.allowed then r.timestamps else old(rate)
      ensures alarmAt == AlarmAfter(old(alarmAt), r)
    {
      r := ConsumeRollingLimit(rate, now, LIMIT, WINDOW);
      if r.allowed { rate := r.timestamps; }
      if |r.timestamps| > 0 && r.timestamps[|r.timestamps| - 1] != 0 {
        alarmAt := Some(r.timestamps[|r.timestamps| - 1] + WINDOW + ALARM_SLACK);
      }
    }

    /** POST /draft/create */
    method Create(id: string, d: Draft)
      modifies this`drafts
      ensures DraftOf(id) == Some(d)
      ensures forall k :: k != id ==> DraftOf(k) == old(DraftOf(k))
    {
      drafts := drafts[id := d];
    }

    /** POST /draft/claim */
    method ClaimRequest(id: string, now: int) returns (r: Claim)
      modifies this`drafts
      ensures (DraftOf(id), r) == ClaimDraft(old(DraftOf(id)), now)
      ensures forall k :: k != id ==> DraftOf(k) == old(DraftOf(k))
    {
      if id !in drafts { return Missing; }
      var draft := drafts[id];
      if draft.status == Submitted && draft.issueNumber != 0 && draft.issueUrl != "" {
        return Completed(draft.issueNumber, draft.issueUrl);
      }
      if draft.expiresAt <= now {
        drafts := drafts - {id};
        return Expired;
      }
      var lease := if draft.claimExpiresAt.Some? then draft.claimExpiresAt.value else 0;
      if draft.status == Submitting && lease > now { return Busy; }
      var claimed := draft.(status := Submitting, claimExpiresAt := Some(now + CLAIM_TTL));
      drafts := drafts[id := claimed];
      return Claimed(claimed);
    }

    /** POST /draft/release */
    method Release(id: string)
      modifies this`drafts
      ensures DraftOf(id) == ReleaseDraft(old(DraftOf(id)))
      ensures forall k :: k != id ==> DraftOf(k) == old(DraftOf(k))
    {
      if id in drafts && drafts[id].status == Submitting {
        drafts := drafts[id := drafts[id].(status := Ready, claimExpiresAt := None)];
      }
    }

    /** POST /draft/complete; false for an invalid result */
    method Complete(id: string, number: int, url: string, now: int) returns (ok: bool)
      modifies this`drafts
      ensures ok <==> ValidIssue(number, url)
      ensures DraftOf(id) == CompleteDraft(old(DraftOf(id)), number, url, now)
      ensures forall k :: k != id ==> DraftOf(k) == old(DraftOf(k))
    {
      if number == 0 || url == "" { return false; }
      if id in drafts {
        drafts := drafts[id := Draft(Submitted, now + WINDOW, None, number, url)];
      }
      return true;
    }

    /** The alarm handler. */
    method Alarm()
      modifies this
      ensures rate == [] && drafts == map[] && alarmAt == None
    {
      rate, drafts, alarmAt := [], map[], None;
    }
  }

  function AlarmAfter(before: Option<int>, r: Rolling): (a: Option<int>)
  {
    if |r.timestamps| > 0 && r.timestamps[|r.timestamps| - 1] != 0
    then Some(r.timestamps[|r.timestamps| - 1] + WINDOW + ALARM_SLACK)
    else before
  }
}
