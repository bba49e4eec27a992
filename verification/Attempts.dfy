/**
 * What the protocol steps of one replica add up to: between the step that starts an attempt and the step that ends
 * it, round counter and log move exactly as runSlot moves them for the same replies and the same Learn messages.
 */
module Attempts {
  import opened Options
  import opened Directory
  import opened LearnerLog
  import opened Proposers
  import opened Cluster
  import opened Agreement
  import opened Invariant

  /** The steps between the states of a run. */
  ghost predicate Trail(states: seq<State>, steps: seq<Step>) {
    && |states| == |steps| + 1
    && forall k {:trigger Takes(states, steps, k)} :: 0 <= k < |steps| ==> Takes(states, steps, k)
  }

  ghost predicate Takes(states: seq<State>, steps: seq<Step>, k: nat) {
    && k < |steps| && k + 1 < |states|
    && states[k].Shape() && Enabled(states[k], steps[k]) && states[k + 1] == Do(states[k], steps[k])
  }

  /** The Learn messages replica r handles in the steps from i to k. */
  ghost function Learned(steps: seq<Step>, r: nat, i: nat, k: nat): seq<(nat, Command)>
    requires i <= k <= |steps|
  {
    if k == i then []
    else
      var before, last := Learned(steps, r, i, k - 1), steps[k - 1];
      if last.DeliverLearn? && last.r == r then before + [(last.slot, last.value)] else before
  }

  /** Replica r starts an attempt at state i and is busy with it up to state j. */
  ghost predicate Busy(states: seq<State>, steps: seq<Step>, i: nat, j: nat, r: nat, value: Command) {
    var trail, engaged := Trail(states, steps), Engaged(states, i, j, r);
    trail && i < j <= |steps| && steps[i] == StartSlot(r, value) && engaged
  }

  ghost predicate Engaged(states: seq<State>, i: nat, j: nat, r: nat) {
    forall k :: i < k <= j && k < |states| ==> r < |states[k].proposers| && !states[k].proposers[r].phase.Idle?
  }

  /** Midway: the slot, value and round it started with, and the log with the Learns so far. */
  ghost predicate Midway(s: State, s': State, r: nat, value: Command, learned: seq<(nat, Command)>) {
    && s.Shape() && s'.Shape() && s'.N() == s.N() && r < s.N()
    && s'.proposers[r].round == s.proposers[r].round + 1
    && s'.logs[r] == LearnAll(s.logs[r], learned)
    && var ph := s'.proposers[r].phase;
    && !ph.Idle? && ph.slot == AppliedCount(s.logs[r]) && ph.value == value
    && (ph.Accepting? ==> ph.T1().promises >= Majority(s.N()))
  }

  ghost predicate MidwayAt(states: seq<State>, steps: seq<Step>, i: nat, j: nat, r: nat, value: Command)
    requires i <= j < |states| <= |steps| + 1
  {
    var midway := Midway(states[i], states[j], r, value, Learned(steps, r, i, j));
    midway
  }

  lemma StartsMidway(s: State, r: nat, value: Command)
    requires s.Shape() && Enabled(s, StartSlot(r, value))
    ensures Midway(s, Do(s, StartSlot(r, value)), r, value, [])
  {
  }

  lemma StaysMidway(s: State, s': State, step: Step, r: nat, value: Command, learned: seq<(nat, Command)>)
    requires Midway(s, s', r, value, learned) && Enabled(s', step)
    requires !Do(s', step).proposers[r].phase.Idle?
    ensures Midway(s, Do(s', step), r, value,
                   if step.DeliverLearn? && step.r == r then learned + [(step.slot, step.value)] else learned)
  {
    if step.DeliverLearn? && step.r == r {
      var more := learned + [(step.slot, step.value)];
      assert more[..|more| - 1] == learned;
    }
  }

  lemma MidStart(states: seq<State>, steps: seq<Step>, i: nat, r: nat, value: Command)
    requires Trail(states, steps) && i < |steps| && steps[i] == StartSlot(r, value)
    ensures MidwayAt(states, steps, i, i + 1, r, value)
  {
    assert Takes(states, steps, i);
    StartsMidway(states[i], r, value);
  }

  lemma MidStep(states: seq<State>, steps: seq<Step>, i: nat, k: nat, r: nat, value: Command)
    requires Trail(states, steps) && i <= k < |steps| && MidwayAt(states, steps, i, k, r, value)
    requires r < |states[k + 1].proposers| && !states[k + 1].proposers[r].phase.Idle?
    ensures MidwayAt(states, steps, i, k + 1, r, value)
  {
    assert Takes(states, steps, k);
    StaysMidway(states[i], states[k], steps[k], r, value, Learned(steps, r, i, k));
  }

  lemma {:induction false} MidAttempt(states: seq<State>, steps: seq<Step>, i: nat, j: nat, r: nat, value: Command)
    requires Busy(states, steps, i, j, r, value)
    ensures MidwayAt(states, steps, i, j, r, value)
    decreases j
  {
    if j == i + 1 {
      MidStart(states, steps, i, r, value);
    } else {
      MidAttempt(states, steps, i, j - 1, r, value);
      MidStep(states, steps, i, j - 1, r, value);
    }
  }

  /** What the attempt met, as runSlot is given it. */
  ghost function AttemptOf(ph: Phase, learned: seq<(nat, Command)>): Attempt
    requires !ph.Idle?
  {
    Attempt(false, ph.arrived1, learned, if ph.Accepting? then ph.arrived2 else [])
  }

  /** From s to t, replica r's round and log move as RunSlot moves them for attempt `a` with that result. */
  ghost predicate LikeRunSlot(s: State, t: State, r: nat, value: Command, a: Attempt, result: Option<Command>) {
    && s.Shape() && t.Shape() && r < s.N() == t.N()
    && (t.proposers[r].round, result) ==
       SlotOutcome(s.N(), s.proposers[r].round + 1, value, TallyPrepares(a.prepares), TallyAccepts(a.accepts))
    && t.logs[r] == LogOutcome(s.logs[r], AppliedCount(s.logs[r]), a.learned, result)
  }

  lemma EndsLikeRunSlot(s: State, s': State, step: Step, r: nat, value: Command, learned: seq<(nat, Command)>)
      returns (result: Option<Command>)
    requires Midway(s, s', r, value, learned) && Enabled(s', step)
    requires Do(s', step).proposers[r].phase.Idle?
    ensures LikeRunSlot(s, Do(s', step), r, value, AttemptOf(s'.proposers[r].phase, learned), result)
    ensures result.Some? ==> Winning(s', r) && result.value == s'.proposers[r].phase.Proposed()
  {
    var ph := s'.proposers[r].phase;
    assert step == FinishPrepare(r) || step == FinishAccept(r);
    result := if step.FinishAccept? && ph.T2().accepts >= Majority(s.N()) then Some(ph.Proposed()) else None;
  }

  /** Every Learn message handled was sent, and stays on the network. */
  lemma {:induction false} LearnedWasSent(states: seq<State>, steps: seq<Step>, r: nat, i: nat, k: nat, m: (nat,
                                          Command))
    requires Trail(states, steps) && i <= k <= |steps| && m in Learned(steps, r, i, k)
    ensures LearnReq(m.0, m.1) in states[k].net
    decreases k
  {
    var step := steps[k - 1];
    assert Takes(states, steps, k - 1);
    if m in Learned(steps, r, i, k - 1) {
      LearnedWasSent(states, steps, r, i, k - 1, m);
    }
  }

  /** A Learn message for the slot of a won proposal names the same command. */
  lemma WinUnopposed(s: State, r: nat, v: Command)
    requires Inv(s) && Winning(s, r) && LearnReq(s.proposers[r].phase.slot, v) in s.net
    ensures v == s.proposers[r].phase.Proposed()
  {
    WonProposalChosen(s, r);
    ChosenIsUnique(s, s.proposers[r].phase.slot, v, s.proposers[r].phase.Proposed());
  }

  lemma LearnsAgreeWithWin(states: seq<State>, steps: seq<Step>, i: nat, j: nat, r: nat)
    requires Run(states) && Trail(states, steps) && i <= j <= |steps| && Winning(states[j], r)
    ensures var ph := states[j].proposers[r].phase;
      Unopposed(ph.slot, ph.Proposed(), Learned(steps, r, i, j))
  {
    InvInRun(states, j);
    var ph := states[j].proposers[r].phase;
    forall m | m in Learned(steps, r, i, j) && m.0 == ph.slot
      ensures m.1 == ph.Proposed()
    {
      LearnedWasSent(states, steps, r, i, j, m);
      WinUnopposed(states[j], r, m.1);
    }
  }

  /**
   * In every run: an attempt of replica r that starts at state i and ends with the step from j to j + 1 leaves the
   * round and the log that runSlot leaves when it is given the replies that arrived and the Learn messages handled
   * in between; and if it wins, none of those Learn messages opposes it.
   */
  lemma AttemptIsRunSlot(states: seq<State>, steps: seq<Step>, i: nat, j: nat, r: nat, value: Command)
      returns (a: Attempt, result: Option<Command>)
    requires Run(states) && Busy(states, steps, i, j, r, value) && j < |steps|
    requires r < |states[j + 1].proposers| && states[j + 1].proposers[r].phase.Idle?
    ensures states[j].Shape() && r < states[j].N() && !states[j].proposers[r].phase.Idle?
    ensures a == AttemptOf(states[j].proposers[r].phase, Learned(steps, r, i, j))
    ensures LikeRunSlot(states[i], states[j + 1], r, value, a, result)
    ensures result.Some? ==> Unopposed(AppliedCount(states[i].logs[r]), result.value, a.learned)
  {
    MidAttempt(states, steps, i, j, r, value);
    assert Takes(states, steps, j);
    var s', learned := states[j], Learned(steps, r, i, j);
    a := AttemptOf(s'.proposers[r].phase, learned);
    result := EndsLikeRunSlot(states[i], s', steps[j], r, value, learned);
    if result.Some? {
      LearnsAgreeWithWin(states, steps, i, j, r);
    }
  }
}
