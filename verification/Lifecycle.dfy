/** Ending a tool: its grace, its forced kill and reaping, and draining its output. */
module Lifecycle {
  /** Times and durations are in nanoseconds. */
  const TERMINATION_GRACE := 1_000_000_000
  const FORCED_REAP_DEADLINE := 1_000_000_000
  const OUTPUT_DRAIN_DEADLINE := 1_000_000_000

  datatype Action = Wait | ForceKill | FailClosed | Complete | OutputDrainTimeout

  datatype Phase = TermGrace | ForcedReap | OutputDrain

  datatype State = State(phase: Phase, deadline: int)

  /** One look at the tool: the time, whether it is cleaned up and whether its output ended. */
  datatype Poll = Poll(now: int, cleaned: bool, drained: bool)

  function Started(started: int): State {
    State(TermGrace, started + TERMINATION_GRACE)
  }

  function Drain(now: int, drained: bool): (State, Action) {
    (State(OutputDrain, now + OUTPUT_DRAIN_DEADLINE), if drained then Complete else Wait)
  }

  function Next(s: State, p: Poll): (State, Action) {
    match s.phase
    case TermGrace =>
      if p.cleaned then Drain(p.now, p.drained)
      else if p.now >= s.deadline then (State(ForcedReap, p.now + FORCED_REAP_DEADLINE), ForceKill)
      else (s, Wait)
    case ForcedReap =>
      if p.cleaned then Drain(p.now, p.drained)
      else if p.now >= s.deadline then (s, FailClosed)
      else (s, Wait)
    case OutputDrain =>
      if p.drained then (s, Complete)
      else if p.now >= s.deadline then (s, OutputDrainTimeout)
      else (s, Wait)
  }

  // ----- runs -----

  function After(started: int, polls: seq<Poll>): State {
    if polls == [] then Started(started)
    else Next(After(started, polls[..|polls| - 1]), polls[|polls| - 1]).0
  }

  function ActionAt(started: int, polls: seq<Poll>, k: nat): Action
    requires k < |polls|
  {
    Next(After(started, polls[..k]), polls[k]).1
  }

  predicate Terminal(a: Action) {
    a.FailClosed? || a.Complete? || a.OutputDrainTimeout?
  }

  /** No poll ended the run yet. */
  ghost predicate Going(started: int, polls: seq<Poll>) {
    forall k | 0 <= k < |polls| :: !Terminal(ActionAt(started, polls, k))
  }

  /** The tool was first seen cleaned up at this poll. */
  ghost predicate CleanedAt(polls: seq<Poll>, j: nat) {
    j < |polls| && polls[j].cleaned && forall i | 0 <= i < j :: !polls[i].cleaned
  }

  ghost predicate NeverCleaned(polls: seq<Poll>) {
    forall i | 0 <= i < |polls| :: !polls[i].cleaned
  }

  /** The grace was first seen over at this poll. */
  ghost predicate OverAt(started: int, polls: seq<Poll>, j: nat) {
    && j < |polls| && polls[j].now >= started + TERMINATION_GRACE
    && forall i | 0 <= i < j :: polls[i].now < started + TERMINATION_GRACE
  }

  ghost predicate NeverOver(started: int, polls: seq<Poll>) {
    forall i | 0 <= i < |polls| :: polls[i].now < started + TERMINATION_GRACE
  }

  /** What the state says of the polls so far. */
  ghost predicate Tells(started: int, polls: seq<Poll>, s: State) {
    match s.phase
    case TermGrace => NeverCleaned(polls) && NeverOver(started, polls) && s.deadline == started + TERMINATION_GRACE
    case ForcedReap =>
      NeverCleaned(polls)
      && exists j: nat :: OverAt(started, polls, j) && s.deadline == polls[j].now + FORCED_REAP_DEADLINE
    case OutputDrain => exists j: nat :: CleanedAt(polls, j) && s.deadline == polls[j].now + OUTPUT_DRAIN_DEADLINE
  }

  lemma GoingBefore(started: int, polls: seq<Poll>, k: nat)
    requires k <= |polls| && Going(started, polls)
    ensures Going(started, polls[..k])
  {
    forall i | 0 <= i < k
      ensures !Terminal(ActionAt(started, polls[..k], i))
    {
      assert polls[..k][..i] == polls[..i];
      assert !Terminal(ActionAt(started, polls, i));
    }
  }

  lemma CleanedStays(polls: seq<Poll>, p: Poll, j: nat)
    requires CleanedAt(polls, j)
    ensures CleanedAt(polls + [p], j)
  {
    assert forall i | 0 <= i <= j :: (polls + [p])[i] == polls[i];
  }

  lemma OverStays(started: int, polls: seq<Poll>, p: Poll, j: nat)
    requires OverAt(started, polls, j)
    ensures OverAt(started, polls + [p], j)
  {
    assert forall i | 0 <= i <= j :: (polls + [p])[i] == polls[i];
  }

  lemma TellsNext(started: int, polls: seq<Poll>, s: State, p: Poll)
    requires Tells(started, polls, s) && !Terminal(Next(s, p).1)
    ensures Tells(started, polls + [p], Next(s, p).0)
  {
    var all, s' := polls + [p], Next(s, p).0;
    assert all[|polls|] == p && forall i | 0 <= i < |polls| :: all[i] == polls[i];
    match s.phase {
      case TermGrace =>
        if p.cleaned {
          assert CleanedAt(all, |polls|);
        } else if p.now >= s.deadline {
          assert OverAt(started, all, |polls|);
        }
      case ForcedReap =>
        var j: nat :| OverAt(started, polls, j) && s.deadline == polls[j].now + FORCED_REAP_DEADLINE;
        if p.cleaned {
          assert CleanedAt(all, |polls|);
        } else {
          OverStays(started, polls, p, j);
        }
      case OutputDrain =>
        var j: nat :| CleanedAt(polls, j) && s.deadline == polls[j].now + OUTPUT_DRAIN_DEADLINE;
        CleanedStays(polls, p, j);
    }
  }

  lemma {:induction false} StateTells(started: int, polls: seq<Poll>)
    requires Going(started, polls)
    ensures Tells(started, polls, After(started, polls))
    decreases |polls|
  {
    if polls != [] {
      var k := |polls| - 1;
      GoingBefore(started, polls, k);
      StateTells(started, polls[..k]);
      assert !Terminal(ActionAt(started, polls, k));
      assert polls == polls[..k] + [polls[k]];
      TellsNext(started, polls[..k], After(started, polls[..k]), polls[k]);
    }
  }

  /** The action that poll `k` deserves by what was seen so far: the kill comes at the first poll past
      the grace, if cleanup was never seen; failing closed comes past the reap deadline after the
      kill, if cleanup was never seen; completion comes when the output has ended, and the drain
      timeout when it has not by its deadline, once cleanup was seen. */
  ghost predicate Deserved(started: int, polls: seq<Poll>, k: nat, action: Action) {
    && k < |polls|
    && (action == ForceKill <==> NeverCleaned(polls[..k + 1]) && OverAt(started, polls, k))
    && (action == FailClosed <==>
        NeverCleaned(polls[..k + 1])
        && exists j | 0 <= j < k :: OverAt(started, polls, j) && polls[k].now >= polls[j].now + FORCED_REAP_DEADLINE)
    && (action == Complete <==> polls[k].drained && exists j | 0 <= j <= k :: CleanedAt(polls, j))
    && (action == OutputDrainTimeout <==>
        !polls[k].drained
        && exists j | 0 <= j < k :: CleanedAt(polls, j) && polls[k].now >= polls[j].now + OUTPUT_DRAIN_DEADLINE)
  }

  /** In every run, up to its first terminal action, each poll gets the action it deserves. */
  lemma ActionsExactly(started: int, polls: seq<Poll>, k: nat)
    requires k < |polls| && Going(started, polls[..k])
    ensures Deserved(started, polls, k, ActionAt(started, polls, k))
  {
    StateTells(started, polls[..k]);
    var s, before := After(started, polls[..k]), polls[..k];
    assert forall i | 0 <= i < k :: before[i] == polls[i];
    assert polls[..k + 1] == before + [polls[k]];
    forall j: nat | j < k
      ensures OverAt(started, before, j) <==> OverAt(started, polls, j)
      ensures CleanedAt(before, j) <==> CleanedAt(polls, j)
    {
    }
    assert polls[k].cleaned && NeverCleaned(before) ==> CleanedAt(polls, k);
    match s.phase {
      case TermGrace =>
      case ForcedReap =>
        var j: nat :| OverAt(started, before, j) && s.deadline == before[j].now + FORCED_REAP_DEADLINE;
        assert OverAt(started, polls, j);
      case OutputDrain =>
        var j: nat :| CleanedAt(before, j) && s.deadline == before[j].now + OUTPUT_DRAIN_DEADLINE;
        assert CleanedAt(polls, j);
    }
  }

  /** The tool is killed at most once, and never before its grace is over. */
  lemma KilledAtMostOnce(started: int, polls: seq<Poll>, k: nat, n: nat)
    requires k < |polls| && n < |polls| && Going(started, polls)
    requires ActionAt(started, polls, k) == ForceKill && ActionAt(started, polls, n) == ForceKill
    ensures k == n && polls[k].now >= started + 1_000_000_000
  {
    GoingBefore(started, polls, k);
    GoingBefore(started, polls, n);
    ActionsExactly(started, polls, k);
    ActionsExactly(started, polls, n);
    assert polls[k].now >= started + TERMINATION_GRACE && polls[n].now >= started + TERMINATION_GRACE;
  }

  // ----- the bound -----

  /** Successive polls go forward in time by at most `gap`. */
  ghost predicate Paced(started: int, polls: seq<Poll>, gap: nat) {
    forall k | 0 <= k < |polls| :: 0 <= polls[k].now - LastTime(started, polls, k) <= gap
  }

  function LastTime(started: int, polls: seq<Poll>, k: nat): int
    requires k <= |polls|
  {
    if k == 0 then started else polls[k - 1].now
  }

  /** The latest deadline that a phase can have. */
  function Latest(started: int, phase: Phase, gap: nat): int {
    match phase
    case TermGrace => started + TERMINATION_GRACE
    case ForcedReap => started + TERMINATION_GRACE + FORCED_REAP_DEADLINE + gap
    case OutputDrain => started + TERMINATION_GRACE + FORCED_REAP_DEADLINE + OUTPUT_DRAIN_DEADLINE + 2 * gap
  }

  lemma {:induction false} BeforeDeadline(started: int, polls: seq<Poll>, gap: nat)
    requires Paced(started, polls, gap) && Going(started, polls)
    ensures LastTime(started, polls, |polls|) < After(started, polls).deadline
                                              <= Latest(started, After(started, polls).phase, gap)
    decreases |polls|
  {
    if polls != [] {
      var k := |polls| - 1;
      GoingBefore(started, polls, k);
      var init := polls[..k];
      forall i | 0 <= i < k
        ensures 0 <= init[i].now - LastTime(started, init, i) <= gap
      {
        assert LastTime(started, init, i) == LastTime(started, polls, i);
      }
      BeforeDeadline(started, init, gap);
      assert !Terminal(ActionAt(started, polls, k));
      assert 0 <= polls[k].now - LastTime(started, polls, k) <= gap;
    }
  }

  /** With polls at most `gap` apart, the run ends: once the polls reach the three deadlines and two
      gaps past the start, one of them was terminal, and the first terminal one came within the
      three deadlines and three gaps. */
  lemma EndsInTime(started: int, polls: seq<Poll>, gap: nat) returns (k: nat)
    requires Paced(started, polls, gap)
    requires LastTime(started, polls, |polls|)
             >= started + 3_000_000_000 + 2 * gap
    ensures k < |polls| && Terminal(ActionAt(started, polls, k)) && Going(started, polls[..k])
    ensures polls[k].now <= started + 3_000_000_000 + 3 * gap
  {
    if Going(started, polls) {
      BeforeDeadline(started, polls, gap);
      assert false;
    }
    assert polls[..|polls|] == polls;
    k := FirstTerminal(started, polls, |polls|);
    var init := polls[..k];
    forall i | 0 <= i < k
      ensures 0 <= init[i].now - LastTime(started, init, i) <= gap
    {
      assert LastTime(started, init, i) == LastTime(started, polls, i);
    }
    BeforeDeadline(started, init, gap);
    assert LastTime(started, init, k) == LastTime(started, polls, k);
    assert 0 <= polls[k].now - LastTime(started, polls, k) <= gap;
  }

  lemma {:induction false} FirstTerminal(started: int, polls: seq<Poll>, n: nat) returns (k: nat)
    requires n <= |polls| && !Going(started, polls[..n])
    ensures k < n && Terminal(ActionAt(started, polls, k)) && Going(started, polls[..k])
  {
    var i :| 0 <= i < n && Terminal(ActionAt(started, polls[..n], i));
    assert polls[..n][..i] == polls[..i];
    if Going(started, polls[..i]) {
      k := i;
    } else {
      k := FirstTerminal(started, polls, i);
    }
  }

  // ----- the controller -----

  /** The controller in place; `started` and `polls` record its run. */
  class CleanupController {
    var phase: Phase
    var deadline: int
    ghost const started: int
    ghost var polls: seq<Poll>

    /** The state is what the polls so far make of it. */
    ghost predicate Valid()
      reads this
    {
      State(phase, deadline) == After(started, polls)
    }

    constructor (started: int)
      ensures Valid() && this.started == started && polls == [] && Going(started, polls)
    {
      phase, deadline := TermGrace, started + TERMINATION_GRACE;
      this.started, polls := started, [];
    }

    /** Answers a poll as `ActionsExactly` says, as long as no answer before was terminal. */
    method Advance(now: int, cleaned: bool, drained: bool) returns (action: Action)
      requires Valid()
      modifies this
      ensures Valid() && polls == old(polls) + [Poll(now, cleaned, drained)]
      ensures action == ActionAt(started, polls, |old(polls)|)
      ensures Going(started, old(polls)) ==> Deserved(started, polls, |old(polls)|, action)
      ensures Going(started, old(polls)) && !Terminal(action) ==> Going(started, polls)
    {
      ghost var poll := Poll(now, cleaned, drained);
      match phase {
        case TermGrace =>
          if cleaned {
            action := BeginOutputDrain(now, drained);
          } else if now >= deadline {
            phase, deadline := ForcedReap, now + FORCED_REAP_DEADLINE;
            action := ForceKill;
          } else {
            action := Wait;
          }
        case ForcedReap =>
          if cleaned {
            action := BeginOutputDrain(now, drained);
          } else if now >= deadline {
            action := FailClosed;
          } else {
            action := Wait;
          }
        case OutputDrain =>
          if drained {
            action := Complete;
          } else if now >= deadline {
            action := OutputDrainTimeout;
          } else {
            action := Wait;
          }
      }
      assert (State(phase, deadline), action) == Next(After(started, polls), poll);
      polls := polls + [poll];
      PollMore(started, old(polls), poll);
    }

    method BeginOutputDrain(now: int, drained: bool) returns (action: Action)
      modifies `phase, `deadline
      ensures (State(phase, deadline), action) == Drain(now, drained)
    {
      phase, deadline := OutputDrain, now + OUTPUT_DRAIN_DEADLINE;
      action := if drained then Complete else Wait;
    }
  }

  lemma PollMore(started: int, polls: seq<Poll>, p: Poll)
    ensures After(started, polls + [p]) == Next(After(started, polls), p).0
    ensures ActionAt(started, polls + [p], |polls|) == Next(After(started, polls), p).1
    ensures Going(started, polls) ==>
              var a := ActionAt(started, polls + [p], |polls|);
              Deserved(started, polls + [p], |polls|, a) && (!Terminal(a) ==> Going(started, polls + [p]))
  {
    var all := polls + [p];
    assert all[..|polls|] == polls;
    if Going(started, polls) {
      ActionsExactly(started, all, |polls|);
      forall k | 0 <= k < |polls| ensures !Terminal(ActionAt(started, all, k)) {
        assert all[..k] == polls[..k];
        assert !Terminal(ActionAt(started, polls, k));
      }
    }
  }
}
