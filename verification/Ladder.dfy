/**
 * The compatibility ladder of src-tauri/src/startup_recovery.rs: a process that fails to
 * start relaunches the program with the next profile, telling it through environment
 * variables which profile to use, which were used before, and whether elevation was tried.
 */
module Ladder {
  import opened Options
  import opened History

  /** The profiles, numbered from 1; a profile is described by whether it asks for elevation. */
  type Profiles = seq<bool>

  /** The environment variables of the chain; `disabled` stands for the two switches that turn it off. */
  datatype Env = Env(profile: Option<string>, recovery: Option<string>, history: Option<string>,
    elevated: Option<string>, disabled: bool)

  /** How an attempt to launch ends: not tried at all, tried and failed, or a child running. */
  datatype Launch = NotTried | Failed | Started

  /** What a process finds: the marker file, its own elevation, and how its launches will end. */
  datatype World = World(marker: Option<nat>, elevated: bool, launch: nat -> Launch)

  predicate Fits(profiles: Profiles)
  {
    |profiles| < 255
  }

  function EnvFlag(v: Option<string>): (b: bool)
  {
    v == Some("1")
  }

  function OrEmpty(v: Option<string>): (s: string)
  {
    if v.Some? then v.value else ""
  }

  /** parse_profile_index */
  function ParseIndex(v: Option<string>): (i: Option<nat>)
  {
    if v.None? then None
    else match ParseOctet(v.value) case Some(i) => if i > 0 then Some(i) else None case None => None
  }

  /** The profile a process starts with, as `initialize` selects it. */
  function Selected(profiles: Profiles, env: Env, marker: Option<nat>): (index: nat)
    ensures index <= |profiles|
  {
    var wanted :=
      if env.disabled then 0
      else if ParseIndex(env.profile).Some? then ParseIndex(env.profile).value
      else if EnvFlag(env.recovery) then 1
      else if marker.Some? then marker.value
      else 0;
    if wanted <= |profiles| then wanted else 0
  }

  /** The variables a launch of profile `index` sets. */
  function ChainEnv(profiles: Profiles, env: Env, history: string, index: nat): (child: Env)
    requires Fits(profiles) && 0 < index <= |profiles|
  {
    env.(profile := Some(ToText(index)), recovery := Some("1"),
      history := Some(AppendedHistory(history, index, |profiles|)))
  }

  /** The child's environment, if one was launched, and the number of elevated launches attempted. */
  datatype Outcome = Outcome(child: Option<Env>, elevations: nat)

  /** The escalation from profile `next` on, in the environment `env`. */
  function Climb(profiles: Profiles, env: Env, history: string, next: nat, w: World): (r: Outcome)
    requires Fits(profiles) && 0 < next
    decreases |profiles| + 1 - next
  {
    if next > |profiles| then Outcome(None, 0)
    else if profiles[next - 1] && (EnvFlag(env.elevated) || w.elevated) then Climb(profiles, env, history, next + 1, w)
    else
      var child := ChainEnv(profiles, env, history, next);
      if profiles[next - 1] then
        var marked := child.(elevated := Some("1"));
        match w.launch(next)
        case NotTried => Climb(profiles, env, history, next + 1, w)
        case Started => Outcome(Some(marked), 1)
        case Failed =>
          var rest := Climb(profiles, marked, history, next + 1, w);
          rest.(elevations := rest.elevations + 1)
      else
        if w.launch(next).Started? then Outcome(Some(child), 0) else Climb(profiles, env, history, next + 1, w)
  }

  /** What a process that fails to start does. */
  function Escalation(profiles: Profiles, env: Env, w: World): (r: Outcome)
    requires Fits(profiles)
  {
    if env.disabled then Outcome(None, 0)
    else
      var current := Selected(profiles, env, w.marker);
      Climb(profiles, env, AppendedHistory(OrEmpty(env.history), current, |profiles|), current + 1, w)
  }

  /** u8::saturating_add(1).max(1) */
  function NextIndex(current: nat): (i: nat)
  {
    if current >= 255 then 255 else current + 1
  }

  /** The escalating process: its environment is its own to change. */
  class Process {
    var env: Env

    /** escalate_to_next_profile with launch_compat_profile and launch_elevated */
    method Escalate(profiles: Profiles, w: World) returns (r: Outcome)
      requires Fits(profiles) && !env.disabled
      modifies this
      ensures r == Escalation(profiles, old(env), w)
    {
      hide ParseOctet, AppendedHistory, ToText;
      var current := Selected(profiles, env, w.marker);
      var history := AppendedHistory(OrEmpty(env.history), current, |profiles|);
      var next := NextIndex(current);
      var elevations := 0;
      ghost var goal := Escalation(profiles, env, w);
      while next <= |profiles|
        invariant 0 < next <= |profiles| + 1
        invariant Climb(profiles, env, history, next, w).child == goal.child
        invariant Climb(profiles, env, history, next, w).elevations + elevations == goal.elevations
      {
        var elevated := profiles[next - 1];
        if elevated && (EnvFlag(env.elevated) || w.elevated) {
          next := next + 1;
        } else {
          var child := ChainEnv(profiles, env, history, next);
          var launch := w.launch(next);
          if elevated && !launch.NotTried? {
            env := child.(elevated := Some("1"));
            child := env;
            elevations := elevations + 1;
          }
          if launch.Started? { return Outcome(Some(child), elevations); }
          next := next + 1;
        }
      }
      return Outcome(None, elevations);
    }
  }

  // -------------------------------------------------------------------------- one launch

  lemma ChildSelects(profiles: Profiles, env: Env, index: nat, marker: Option<nat>)
    requires 0 < index <= |profiles| && Fits(profiles) && !env.disabled && env.profile == Some(ToText(index))
    ensures Selected(profiles, env, marker) == index
  {
    hide ParseOctet, ToText;
    ToTextParses(index);
  }

  /** The child of a climb runs a later profile, inherits the chain, and elevation is tried at most once. */
  lemma {:induction false} ClimbFacts(profiles: Profiles, env: Env, history: string, next: nat, w: World)
    requires Fits(profiles) && 0 < next && !env.disabled
    ensures var r := Climb(profiles, env, history, next, w);
      && r.elevations <= (if EnvFlag(env.elevated) then 0 else 1)
      && (r.child.Some? ==>
           exists index :: next <= index <= |profiles| && Launches(profiles, env, history, index, r.child.value))
      && (r.child.Some? && (r.elevations > 0 || EnvFlag(env.elevated)) ==> EnvFlag(r.child.value.elevated))
    decreases |profiles| + 1 - next
  {
    hide AppendedHistory, ToText, Launches;
    if next <= |profiles| {
      var child := ChainEnv(profiles, env, history, next);
      var marked := child.(elevated := Some("1"));
      LaunchesOf(profiles, env, history, next);
      ClimbFacts(profiles, env, history, next + 1, w);
      ClimbFacts(profiles, marked, history, next + 1, w);
      var rest := Climb(profiles, marked, history, next + 1, w);
      if rest.child.Some? {
        var index :| next + 1 <= index <= |profiles| && Launches(profiles, marked, history, index, rest.child.value);
        LaunchesMarked(profiles, env, history, next, index, rest.child.value);
      }
    }
  }

  /** The profile at which a climb ends; beyond the last one if nothing was launched. */
  function Stop(profiles: Profiles, env: Env, next: nat, w: World): (i: nat)
    requires 0 < next <= |profiles| + 1
    ensures next <= i <= |profiles| + 1
    decreases |profiles| + 1 - next
  {
    if next > |profiles| then next
    else if profiles[next - 1] && (EnvFlag(env.elevated) || w.elevated) then Stop(profiles, env, next + 1, w)
    else if w.launch(next).Started? then next
    else
      var after := if profiles[next - 1] && w.launch(next).Failed? then env.(elevated := Some("1")) else env;
      Stop(profiles, after, next + 1, w)
  }

  /**
   * A profile that could have been launched is passed over only for asking for an elevation
   * that is not to be had again.
   */
  lemma {:induction false} NoneLeftOut(profiles: Profiles, env: Env, history: string, next: nat, w: World, i: nat)
    requires Fits(profiles) && 0 < next <= |profiles| + 1 && !env.disabled
    ensures Climb(profiles, env, history, next, w).child.Some? <==> Stop(profiles, env, next, w) <= |profiles|
    ensures Climb(profiles, env, history, next, w).child.Some? ==>
      Climb(profiles, env, history, next, w).child.value.profile == Some(ToText(Stop(profiles, env, next, w)))
    ensures next <= i < Stop(profiles, env, next, w) && w.launch(i).Started? ==>
      profiles[i - 1] && (w.elevated || EnvFlag(env.elevated) ||
        exists k :: next <= k < i && profiles[k - 1] && w.launch(k).Failed?)
    decreases |profiles| + 1 - next
  {
    hide AppendedHistory, ToText, Fits;
    if next <= |profiles| {
      var marked := ChainEnv(profiles, env, history, next).(elevated := Some("1"));
      NoneLeftOut(profiles, env, history, next + 1, w, i);
      NoneLeftOut(profiles, marked, history, next + 1, w, i);
      SameStop(profiles, marked, env.(elevated := Some("1")), next + 1, w);
      if profiles[next - 1] && w.launch(next).Failed? {
        assert next < i ==> next <= next < i;
      }
    }
  }

  lemma {:induction false} SameStop(profiles: Profiles, a: Env, b: Env, next: nat, w: World)
    requires 0 < next <= |profiles| + 1 && a.elevated == b.elevated
    ensures Stop(profiles, a, next, w) == Stop(profiles, b, next, w)
    decreases |profiles| + 1 - next
  {
    if next <= |profiles| {
      SameStop(profiles, a, b, next + 1, w);
      SameStop(profiles, a.(elevated := Some("1")), b.(elevated := Some("1")), next + 1, w);
    }
  }

  /** The environment tells the child to run `index` with the history extended by it. */
  predicate Launches(profiles: Profiles, env: Env, history: string, index: nat, child: Env)
    requires Fits(profiles)
  {
    && 0 < index <= |profiles| && child.disabled == env.disabled
    && child.profile == Some(ToText(index)) && child.recovery == Some("1")
    && child.history == Some(AppendedHistory(history, index, |profiles|))
  }

  lemma LaunchesOf(profiles: Profiles, env: Env, history: string, index: nat)
    requires Fits(profiles) && 0 < index <= |profiles|
    ensures var child := ChainEnv(profiles, env, history, index);
      Launches(profiles, env, history, index, child) &&
        Launches(profiles, env, history, index, child.(elevated := Some("1")))
  {}

  lemma LaunchesMarked(profiles: Profiles, env: Env, history: string, tried: nat, index: nat, child: Env)
    requires Fits(profiles) && 0 < tried <= |profiles|
    requires Launches(profiles, ChainEnv(profiles, env, history, tried).(elevated := Some("1")), history, index, child)
    ensures Launches(profiles, env, history, index, child)
  {}

  // ------------------------------------------------------------------------- whole chains

  /** The processes of a chain: process `k` starts in its parent's child environment and finds `ws[k]`. */
  ghost function Ran(profiles: Profiles, env: Env, ws: seq<World>): (indices: seq<nat>)
    requires Fits(profiles)
    ensures |indices| <= |ws| && (ws != [] ==> |indices| > 0 && indices[0] == Selected(profiles, env, ws[0].marker))
    decreases |ws|
  {
    if ws == [] then []
    else
      [Selected(profiles, env, ws[0].marker)] +
      match Escalation(profiles, env, ws[0]).child case None => [] case Some(c) => Ran(profiles, c, ws[1..])
  }

  /** The history each process of a chain received. */
  ghost function Told(profiles: Profiles, env: Env, ws: seq<World>): (histories: seq<seq<nat>>)
    requires Fits(profiles)
    ensures |histories| == |Ran(profiles, env, ws)|
    decreases |ws|
  {
    if ws == [] then []
    else
      [ParseHistory(OrEmpty(env.history), |profiles|)] +
      match Escalation(profiles, env, ws[0]).child case None => [] case Some(c) => Told(profiles, c, ws[1..])
  }

  /** Elevated launches attempted along a chain. */
  ghost function Elevations(profiles: Profiles, env: Env, ws: seq<World>): (n: nat)
    requires Fits(profiles)
    decreases |ws|
  {
    if ws == [] then 0
    else
      var r := Escalation(profiles, env, ws[0]);
      r.elevations + match r.child case None => 0 case Some(c) => Elevations(profiles, c, ws[1..])
  }

  predicate Increasing(xs: seq<nat>)
  {
    forall i, j :: 0 <= i < j < |xs| ==> xs[i] < xs[j]
  }

  /** A child runs a later profile and is told the history of its chain, ending in its own. */
  lemma ChildFacts(profiles: Profiles, env: Env, w: World, marker: Option<nat>)
    requires Fits(profiles) && Escalation(profiles, env, w).child.Some?
    ensures var c, i, n := Escalation(profiles, env, w).child.value, Selected(profiles, env, w.marker), |profiles|;
      var j, h := Selected(profiles, c, marker), ParseHistory(OrEmpty(env.history), n);
      && i < j <= n
      && ParseHistory(OrEmpty(c.history), n) == Base(Base(h, i), j)
  {
    hide AppendedHistory, ToText, ParseHistory, Selected, ParseOctet, Climb;
    var i, n := Selected(profiles, env, w.marker), |profiles|;
    var history := AppendedHistory(OrEmpty(env.history), i, n);
    ClimbFacts(profiles, env, history, i + 1, w);
    var c := Escalation(profiles, env, w).child.value;
    var j :| i + 1 <= j <= n && Launches(profiles, env, history, j, c);
    ChildSelects(profiles, c, j, marker);
    AppendedParses(OrEmpty(env.history), i, n);
    AppendedParses(history, j, n);
  }

  /** The environment names a profile. */
  ghost predicate NamesProfile(env: Env, i: nat)
  {
    env.profile.Some? && i > 0 && ReadsAs(env.profile.value, i)
  }

  function InRange(i: nat, n: nat): (j: nat)
  {
    if i <= n then i else 0
  }

  /**
   * The profile a chain starts with: none when the ladder is switched off, the one the environment
   * names, the first for the bare recovery flag, the one in the marker file, and else none; a number
   * beyond the ladder counts as none.
   */
  lemma FirstProfile(profiles: Profiles, env: Env, ws: seq<World>, i: nat)
    requires Fits(profiles) && ws != []
    ensures var first, n := Ran(profiles, env, ws)[0], |profiles|;
      && (env.disabled ==> first == 0)
      && (!env.disabled && NamesProfile(env, i) ==> first == InRange(i, n))
      && (!env.disabled && (forall k: nat :: !NamesProfile(env, k)) ==>
           first == if env.recovery == Some("1") then InRange(1, n)
                    else if ws[0].marker.Some? then InRange(ws[0].marker.value, n)
                    else 0)
  {
    hide ParseOctet, ReadsAs;
    if env.profile.Some? {
      ParseOctetIff(env.profile.value, i);
      if ParseOctet(env.profile.value).Some? {
        ParseOctetIff(env.profile.value, ParseOctet(env.profile.value).value);
        if ParseOctet(env.profile.value).value > 0 {
          assert NamesProfile(env, ParseOctet(env.profile.value).value);
        }
      }
    }
  }

  /** Along every chain the profile strictly increases: none runs twice, and at most n + 1 processes run. */
  lemma {:induction false} ChainClimbs(profiles: Profiles, env: Env, ws: seq<World>)
    requires Fits(profiles)
    ensures Increasing(Ran(profiles, env, ws))
    ensures ws != [] ==> |Ran(profiles, env, ws)| + Ran(profiles, env, ws)[0] <= |profiles| + 1
    decreases |ws|
  {
    hide Escalation, Selected, ParseHistory;
    if ws != [] {
      var r := Escalation(profiles, env, ws[0]);
      if r.child.Some? && |ws| > 1 {
        ChildFacts(profiles, env, ws[0], ws[1].marker);
        ChainClimbs(profiles, r.child.value, ws[1..]);
        FirstBelow(Selected(profiles, env, ws[0].marker), Ran(profiles, r.child.value, ws[1..]));
      }
    }
  }

  lemma FirstBelow(x: nat, xs: seq<nat>)
    requires Increasing(xs) && (xs != [] ==> x < xs[0])
    ensures Increasing([x] + xs)
  {
    var ys := [x] + xs;
    forall i, j | 0 <= i < j < |ys|
      ensures ys[i] < ys[j]
    {
      assert ys[j] == xs[j - 1];
      if i > 0 { assert ys[i] == xs[i - 1]; }
    }
  }

  /** A chain attempts at most one elevated launch, and none once the flag is set. */
  lemma {:induction false} ElevatesOnce(profiles: Profiles, env: Env, ws: seq<World>)
    requires Fits(profiles)
    ensures Elevations(profiles, env, ws) <= if EnvFlag(env.elevated) then 0 else 1
    decreases |ws|
  {
    hide AppendedHistory, Selected, Climb;
    if ws != [] && !env.disabled {
      var current := Selected(profiles, env, ws[0].marker);
      ClimbFacts(profiles, env, AppendedHistory(OrEmpty(env.history), current, |profiles|), current + 1, ws[0]);
      var r := Escalation(profiles, env, ws[0]);
      if r.child.Some? { ElevatesOnce(profiles, r.child.value, ws[1..]); }
    }
  }

  /** The history a process passes on: its own, with its profile added if it is not there. */
  function Base(h: seq<nat>, i: nat): (b: seq<nat>)
  {
    if i > 0 && i !in h then h + [i] else h
  }

  lemma SecondProcess(profiles: Profiles, env: Env, ws: seq<World>)
    requires Fits(profiles) && |Ran(profiles, env, ws)| > 1
    ensures |ws| > 1 && Escalation(profiles, env, ws[0]).child.Some?
    ensures var c := Escalation(profiles, env, ws[0]).child.value;
      && Ran(profiles, env, ws)[1..] == Ran(profiles, c, ws[1..])
      && Told(profiles, env, ws)[1..] == Told(profiles, c, ws[1..])
      && Told(profiles, c, ws[1..])[0] == ParseHistory(OrEmpty(c.history), |profiles|)
  {
    hide Escalation, Selected, ParseHistory;
  }

  /** From a process whose history lies below its own profile, each later one is told all profiles run, in order. */
  lemma {:induction false} HistoryGrows(profiles: Profiles, env: Env, ws: seq<World>, k: nat)
    requires Fits(profiles) && 0 < k < |Ran(profiles, env, ws)|
    requires var h, i := ParseHistory(OrEmpty(env.history), |profiles|), Ran(profiles, env, ws)[0];
      forall x :: x in h ==> x <= i
    ensures var h, ran := ParseHistory(OrEmpty(env.history), |profiles|), Ran(profiles, env, ws);
      Told(profiles, env, ws)[k] == Base(h, ran[0]) + ran[1..k + 1]
    decreases |ws|
  {
    hide Escalation, Selected, ParseHistory, Ran, Told;
    SecondProcess(profiles, env, ws);
    var h, ran := ParseHistory(OrEmpty(env.history), |profiles|), Ran(profiles, env, ws);
    var c := Escalation(profiles, env, ws[0]).child.value;
    var rest := Ran(profiles, c, ws[1..]);
    assert ran[1] == rest[0];
    ChildFacts(profiles, env, ws[0], ws[1].marker);
    var h1 := ParseHistory(OrEmpty(c.history), |profiles|);
    assert h1 == Base(h, ran[0]) + [ran[1]];
    assert Told(profiles, env, ws)[k] == Told(profiles, env, ws)[1..][k - 1];
    if k == 1 {
      assert ran[1..2] == [ran[1]];
    } else {
      HistoryGrows(profiles, c, ws[1..], k - 1);
      Shifted(h1, Base(h, ran[0]), ran, k);
    }
  }

  lemma Shifted(h1: seq<nat>, b: seq<nat>, ran: seq<nat>, k: nat)
    requires 1 < k < |ran| && h1 == b + [ran[1]]
    ensures Base(h1, ran[1..][0]) + ran[1..][1..k] == b + ran[1..k + 1]
  {
    assert h1[|b|] == ran[1];
    assert ran[1..][1..k] == ran[2..k + 1];
    assert ran[1..k + 1] == [ran[1]] + ran[2..k + 1];
  }

  /** From a clean start every child is told exactly the profiles run so far, ending in its own. */
  lemma HistoryIsPath(profiles: Profiles, env: Env, ws: seq<World>, k: nat)
    requires Fits(profiles) && env.history == None && 0 < k < |Ran(profiles, env, ws)|
    ensures var ran := Ran(profiles, env, ws);
      Told(profiles, env, ws)[k] == if ran[0] > 0 then ran[..k + 1] else ran[1..k + 1]
  {
    hide ParseHistory, Ran, Told;
    EmptyHistory(|profiles|);
    HistoryGrows(profiles, env, ws, k);
    var ran := Ran(profiles, env, ws);
    assert [ran[0]] + ran[1..k + 1] == ran[..k + 1];
    assert [] + ran[1..k + 1] == ran[1..k + 1] && [] + [ran[0]] == [ran[0]];
  }

  lemma EmptyHistory(n: nat)
    requires n < 256
    ensures ParseHistory("", n) == []
  {
    JoinParses([], n);
  }
}
