/** What the fleet relies on: one agreed log, applied in order everywhere, and one ring per epoch. */
module ReplicatedLog {
  import opened Directory
  import opened LearnerLog
  import opened Proposers
  import opened Cluster
  import opened Agreement
  import opened Invariant

  ghost predicate LogGrows(c1: Chosen, c2: Chosen) {
    forall slot :: slot in c1 ==> slot in c2 && c1[slot] == c2[slot]
  }

  ghost predicate Later(s: State, s': State)
    requires s.Shape() && s'.Shape()
  {
    && s'.N() == s.N()
    && s.net <= s'.net
    && forall r :: 0 <= r < s.N() ==> LogGrows(s.logs[r], s'.logs[r])
  }

  lemma NextIsLater(s: State, s': State)
    requires Next(s, s')
    ensures s'.Shape() && Later(s, s')
  {
    var step :| Enabled(s, step) && s' == Do(s, step);
  }

  lemma LaterTransitive(s1: State, s2: State, s3: State)
    requires s1.Shape() && s2.Shape() && s3.Shape() && Later(s1, s2) && Later(s2, s3)
    ensures Later(s1, s3)
  {
  }

  /** Messages and log entries are never taken back. */
  lemma {:induction false} RunOnlyGrows(states: seq<State>, i: nat, j: nat)
    requires Run(states) && i <= j < |states|
    ensures states[i].Shape() && states[j].Shape() && Later(states[i], states[j])
    decreases j
  {
    if i < j {
      RunOnlyGrows(states, i, j - 1);
      assert Follows(states, j - 1);
      NextIsLater(states[j - 1], states[j]);
      LaterTransitive(states[i], states[j - 1], states[j]);
    } else if j > 0 {
      RunOnlyGrows(states, j - 1, j - 1);
      assert Follows(states, j - 1);
      NextIsLater(states[j - 1], states[j]);
    }
  }

  /** Agreement over whole runs: whatever two moments are compared, a slot has one chosen command. */
  lemma PaxosAgreement(states: seq<State>, i: nat, j: nat, slot: nat, v: Command, w: Command)
    requires Run(states) && i <= j < |states|
    requires IsChosen(states[i], slot, v) && IsChosen(states[j], slot, w)
    ensures v == w
  {
    RunOnlyGrows(states, i, j);
    IsChosenStable(states[i], states[j], slot, v);
    InvInRun(states, j);
    ChosenIsUnique(states[j], slot, v, w);
  }

  /**
   * Once a command is chosen, every proposal for its slot made at that ballot or above, then or ever after, carries
   * it.
   */
  lemma ChosenForever(states: seq<State>, i: nat, j: nat, slot: nat, b: nat, v: Command, q: set<nat>, b': nat,
                      v': Command)
    requires Run(states) && i <= j < |states|
    requires ChosenAt(states[i], slot, b, v, q)
    requires AcceptReq(slot, b', v') in states[j].net && b <= b'
    ensures v' == v
  {
    RunOnlyGrows(states, i, j);
    InvInRun(states, j);
    assert ChosenAt(states[j], slot, b, v, q);
    LaterProposalsCarryChosen(states[j], slot, b, v, q, b', v');
  }

  lemma LearnRepeats(s: State, step: Step)
    requires Inv(s) && Enabled(s, step) && step.DeliverLearn?
    requires step.slot in s.logs[step.r]
    ensures s.logs[step.r][step.slot] == step.value
  {
    ChosenIsUnique(s, step.slot, s.logs[step.r][step.slot], step.value);
  }

  lemma WinRepeats(s: State, r: nat)
    requires Inv(s) && Winning(s, r)
    requires s.proposers[r].phase.slot in s.logs[r]
    ensures s.logs[r][s.proposers[r].phase.slot] == s.proposers[r].phase.Proposed()
  {
    var ph := s.proposers[r].phase;
    WonProposalChosen(s, r);
    ChosenIsUnique(s, ph.slot, s.logs[r][ph.slot], ph.Proposed());
  }

  /** In every run a second commit of a slot repeats the first: the branch that drops a conflicting one is dead. */
  lemma NoConflictingCommit(states: seq<State>, i: nat, step: Step)
    requires Run(states) && i < |states| && states[i].Shape() && Enabled(states[i], step)
    ensures step.DeliverLearn? && step.slot in states[i].logs[step.r] ==>
      states[i].logs[step.r][step.slot] == step.value
    ensures step.FinishAccept? && Winning(states[i], step.r) ==>
      var ph := states[i].proposers[step.r].phase;
      ph.slot in states[i].logs[step.r] ==> states[i].logs[step.r][ph.slot] == ph.Proposed()
  {
    InvInRun(states, i);
    if step.DeliverLearn? && step.slot in states[i].logs[step.r] {
      LearnRepeats(states[i], step);
    }
    if step.FinishAccept? && Winning(states[i], step.r)
       && states[i].proposers[step.r].phase.slot in states[i].logs[step.r] {
      WinRepeats(states[i], step.r);
    }
  }

  lemma CommitReaches(chosen: Chosen, slot: nat, v: Command)
    requires slot <= AppliedCount(chosen)
    requires slot in chosen ==> chosen[slot] == v
    ensures var t := Trace(Committed(chosen, slot, v)); slot < |t| && t[slot] == v
  {
    TraceGrows(chosen, Committed(chosen, slot, v));
  }

  lemma WinReaches(s: State, r: nat)
    requires Inv(s) && Winning(s, r)
    ensures var ph, log := s.proposers[r].phase, Trace(Do(s, FinishAccept(r)).logs[r]);
      ph.slot < |log| && log[ph.slot] == ph.Proposed()
  {
    var ph := s.proposers[r].phase;
    if ph.slot in s.logs[r] {
      WinRepeats(s, r);
    }
    CommitReaches(s.logs[r], ph.slot, ph.Proposed());
  }

  /** In every run, when runSlot returns a command it is already applied locally, in the slot it was proposed for,
      whatever Learn messages interleaved. */
  lemma WonCommandApplied(states: seq<State>, i: nat, r: nat)
    requires Run(states) && i < |states| && Winning(states[i], r)
    ensures var ph, log := states[i].proposers[r].phase, Trace(Do(states[i], FinishAccept(r)).logs[r]);
      ph.slot < |log| && log[ph.slot] == ph.Proposed()
  {
    InvInRun(states, i);
    WinReaches(states[i], r);
  }

  /** A won command stays applied at its slot for the rest of the run. */
  lemma WonCommandStays(states: seq<State>, i: nat, r: nat, j: nat)
    requires Run(states) && i < j < |states| && Winning(states[i], r) && states[i + 1] == Do(states[i], FinishAccept(r))
    ensures states[j].Shape() && r < states[j].N()
    ensures var ph, log := states[i].proposers[r].phase, Trace(states[j].logs[r]);
      ph.slot < |log| && log[ph.slot] == ph.Proposed()
  {
    WonCommandApplied(states, i, r);
    RunOnlyGrows(states, i + 1, j);
    assert LogGrows(states[i + 1].logs[r], states[j].logs[r]);
    TraceGrows(states[i + 1].logs[r], states[j].logs[r]);
  }

  /** Some command from `from` on removes the node, and none after it brings the node back. */
  ghost predicate RemovedSince(log: seq<Command>, id: NodeId, from: nat) {
    exists k :: from < k < |log| && Removes(log[k], id) &&
                forall m :: k < m < |log| ==> !(log[m].NodeJoin? && log[m].node.id == id)
  }

  /**
   * Join's check after Submit, in every run, whenever it is made: at any later state, and between any two of the
   * commands a Commit applies, the node is a member exactly if nothing applied by then has removed it.
   */
  lemma JoinVisibleUnlessRemoved(states: seq<State>, i: nat, r: nat, j: nat, k: nat)
    requires Run(states) && i < j < |states| && Winning(states[i], r) && states[i + 1] == Do(states[i], FinishAccept(r))
    requires states[i].proposers[r].phase.Proposed().NodeJoin? && states[j].Shape() && r < states[j].N()
    requires states[i].proposers[r].phase.slot < k <= |Trace(states[j].logs[r])|
    ensures var ph, log := states[i].proposers[r].phase, Trace(states[j].logs[r])[..k];
      var id := ph.Proposed().node.id;
      id in Replay(log).members <==> !RemovedSince(log, id, ph.slot)
  {
    var ph, log := states[i].proposers[r].phase, Trace(states[j].logs[r])[..k];
    var id := ph.Proposed().node.id;
    WonCommandStays(states, i, r, j);
    MemberIffJoined(log, id);
    LastWord(log, id, ph.slot);
  }

  /** After a join, either some join is the last word on the node or some removal is. */
  lemma {:induction false} LastWord(log: seq<Command>, id: NodeId, slot: nat)
    requires slot < |log| && log[slot].NodeJoin? && log[slot].node.id == id
    ensures (exists k: nat :: JoinedAt(log, id, k)) <==> !RemovedSince(log, id, slot)
    decreases |log| - slot
  {
    if exists m :: slot < m < |log| && (log[m].NodeJoin? && log[m].node.id == id) {
      var m :| slot < m < |log| && (log[m].NodeJoin? && log[m].node.id == id);
      LastWord(log, id, m);
    } else if forall k :: slot < k < |log| ==> !Removes(log[k], id) {
      assert JoinedAt(log, id, slot);
    }
  }

  // ----- one common sequence -----

  lemma LogsAgree(s: State, r1: nat, r2: nat)
    requires Inv(s) && r1 < s.N() && r2 < s.N()
    ensures Agree(s.logs[r1], s.logs[r2])
  {
    forall slot | slot in s.logs[r1] && slot in s.logs[r2]
      ensures s.logs[r1][slot] == s.logs[r2][slot]
    {
      ChosenIsUnique(s, slot, s.logs[r1][slot], s.logs[r2][slot]);
    }
  }

  lemma {:induction false} LongestTrace(logs: seq<Chosen>) returns (best: nat)
    requires |logs| > 0
    requires forall r1, r2 :: 0 <= r1 < |logs| && 0 <= r2 < |logs| ==> Agree(logs[r1], logs[r2])
    ensures best < |logs|
    ensures forall r :: 0 <= r < |logs| ==> Trace(logs[r]) <= Trace(logs[best])
  {
    best := 0;
    for n := 1 to |logs|
      invariant best < |logs|
      invariant forall r :: 0 <= r < n ==> AppliedCount(logs[r]) <= AppliedCount(logs[best])
    {
      if AppliedCount(logs[best]) < AppliedCount(logs[n]) {
        best := n;
      }
    }
    forall r | 0 <= r < |logs|
      ensures Trace(logs[r]) <= Trace(logs[best])
    {
      AgreeingTracesComparable(logs[r], logs[best]);
    }
  }

  lemma AllLogsAgree(states: seq<State>, i: nat)
    requires Run(states) && i < |states|
    ensures states[i].Shape()
    ensures var logs := states[i].logs;
      forall r1, r2 :: 0 <= r1 < |logs| && 0 <= r2 < |logs| ==> Agree(logs[r1], logs[r2])
  {
    InvInRun(states, i);
    var s := states[i];
    forall r1, r2 | 0 <= r1 < s.N() && 0 <= r2 < s.N()
      ensures Agree(s.logs[r1], s.logs[r2])
    {
      LogsAgree(s, r1, r2);
    }
  }

  /** In every run there is one sequence of commands of which every replica, at every moment, has applied a prefix. */
  lemma CommonSequence(states: seq<State>)
    requires Run(states)
    ensures exists log :: AllApplyPrefixesOf(states, log)
  {
    var last := |states| - 1;
    AllLogsAgree(states, last);
    var best := LongestTrace(states[last].logs);
    forall i, r | 0 <= i < |states| && 0 <= r < |states[i].logs|
      ensures Trace(states[i].logs[r]) <= Trace(states[last].logs[best])
    {
      RunOnlyGrows(states, i, last);
      assert LogGrows(states[i].logs[r], states[last].logs[r]);
      TraceGrows(states[i].logs[r], states[last].logs[r]);
      assert Trace(states[last].logs[r]) <= Trace(states[last].logs[best]);
    }
    assert AllApplyPrefixesOf(states, Trace(states[last].logs[best]));
  }

  ghost predicate AllApplyPrefixesOf(states: seq<State>, log: seq<Command>) {
    forall i, r :: 0 <= i < |states| && 0 <= r < |states[i].logs| ==> Trace(states[i].logs[r]) <= log
  }

  // ----- epochs and rings -----

  /** A ring some replica could publish at some moment of the run, also between two commands that one Commit applies. */
  ghost predicate Published(states: seq<State>, ring: View) {
    exists i: nat, r: nat, k: nat :: PublishedAt(states, ring, i, r, k)
  }

  ghost predicate PublishedAt(states: seq<State>, ring: View, i: nat, r: nat, k: nat) {
    && i < |states| && r < |states[i].logs| && k <= |Trace(states[i].logs[r])|
    && ring == Replay(Trace(states[i].logs[r])[..k])
  }

  /** Every published ring is what some prefix of the common sequence yields. */
  lemma PublishedFromSequence(states: seq<State>, log: seq<Command>, ring: View)
    requires AllApplyPrefixesOf(states, log) && Published(states, ring)
    ensures FromLog(log, ring)
  {
    var i: nat, r: nat, k: nat :| PublishedAt(states, ring, i, r, k);
    assert Trace(states[i].logs[r]) <= log;
    assert Trace(states[i].logs[r])[..k] == log[..k];
  }

  lemma SequenceDeterminesRing(log: seq<Command>, ring1: View, ring2: View)
    requires FromLog(log, ring1) && FromLog(log, ring2)
    ensures ring1.epoch == ring2.epoch ==> ring1 == ring2
  {
    var k1: nat :| k1 <= |log| && ring1 == Replay(log[..k1]);
    var k2: nat :| k2 <= |log| && ring2 == Replay(log[..k2]);
    if k1 <= k2 {
      ReplayMonotone(log[..k1], log[..k2]);
    } else {
      ReplayMonotone(log[..k2], log[..k1]);
    }
  }

  /** The epoch determines the ring: equal epochs mean equal members, whichever replicas published them and whenever. */
  lemma EpochDeterminesRing(states: seq<State>, ring1: View, ring2: View)
    requires Run(states) && Published(states, ring1) && Published(states, ring2)
    ensures ring1.epoch == ring2.epoch ==> ring1 == ring2
  {
    CommonSequence(states);
    var log :| AllApplyPrefixesOf(states, log);
    PublishedFromSequence(states, log, ring1);
    PublishedFromSequence(states, log, ring2);
    SequenceDeterminesRing(log, ring1, ring2);
  }
}
