/**
 * Bounded progress in the runs of the cluster. While a majority answers a proposer and no higher ballot reaches it,
 * the second attempt at a slot wins if the first did not, whatever was promised, sent or lost before.
 */
module Progress {
  import opened Ballots
  import opened Directory
  import opened Acceptors
  import opened LearnerLog
  import opened Proposers
  import opened Cluster
  import opened Agreement
  import opened Invariant
  import opened Attempts
  import ReplicatedLog

  // ----- ballots are fresh -----

  ghost predicate Begun(s: State, b: Ballot) {
    Index(b) < |s.proposers| && Round(b) <= s.proposers[Index(b)].round
  }

  /** Every ballot on the network belongs to a round its proposer has begun. */
  ghost predicate AllBegun(s: State) {
    forall m :: m in s.net && !m.LearnReq? ==> Begun(s, m.ballot)
  }

  /** The refusals a running proposer has heard are within the ballot it will catch up to. */
  ghost predicate Caught(ph: Phase) {
    && (ph.Preparing? ==> forall a :: a in ph.promises && !ph.promises[a].promised ==>
          ph.promises[a].promisedBallot <= ph.T1().maxPromised)
    && (ph.Accepting? ==> forall a :: a in ph.votes && !ph.votes[a].accepted ==>
          ph.votes[a].promisedBallot <= ph.T2().maxPromised)
  }

  ghost predicate AllCaught(s: State) {
    forall r :: 0 <= r < |s.proposers| ==> Caught(s.proposers[r].phase)
  }

  lemma BegunNext(s: State, step: Step)
    requires s.Shape() && InvPhase(s) && AllBegun(s) && Enabled(s, step)
    ensures AllBegun(Do(s, step))
  {
    var s' := Do(s, step);
    if step.StartSlot? {
      BallotRoundTrip(s.proposers[step.r].round + 1, step.r);
    }
    forall m | m in s'.net && !m.LearnReq?
      ensures Begun(s', m.ballot)
    {
      if m in s.net {
        assert Begun(s, m.ballot);
      }
    }
  }

  lemma CaughtNext(s: State, step: Step)
    requires s.Shape() && AllCaught(s) && Enabled(s, step)
    ensures AllCaught(Do(s, step))
  {
    var s' := Do(s, step);
    forall r | 0 <= r < |s'.proposers|
      ensures Caught(s'.proposers[r].phase)
    {
      var ph := s.proposers[r].phase;
      if step.HearPrepare? && step.r == r {
        assert s'.proposers[r].phase.arrived1[..|ph.arrived1|] == ph.arrived1;
      } else if step.HearAccept? && step.r == r {
        assert s'.proposers[r].phase.arrived2[..|ph.arrived2|] == ph.arrived2;
      }
    }
  }

  ghost predicate Sound(s: State) {
    Inv(s) && AllBegun(s) && AllCaught(s)
  }

  lemma InitSound(s: State)
    requires Init(s)
    ensures Sound(s)
  {
    InitInv(s);
  }

  lemma SoundNext(s: State, s': State)
    requires Sound(s) && Next(s, s')
    ensures Sound(s')
  {
    NextKeepsInv(s, s');
    var step :| Enabled(s, step) && s' == Do(s, step);
    BegunNext(s, step);
    CaughtNext(s, step);
  }

  lemma {:induction false} SoundInRun(states: seq<State>, i: nat)
    requires Run(states) && i < |states|
    ensures Sound(states[i])
  {
    if i == 0 {
      InitSound(states[0]);
    } else {
      SoundInRun(states, i - 1);
      assert Follows(states, i - 1);
      SoundNext(states[i - 1], states[i]);
    }
  }

  ghost predicate SoundAt(states: seq<State>, k: nat) {
    k < |states| && Sound(states[k])
  }

  ghost predicate AllSound(states: seq<State>) {
    forall k {:trigger SoundAt(states, k)} :: 0 <= k < |states| ==> SoundAt(states, k)
  }

  lemma RunIsSound(states: seq<State>)
    requires Run(states)
    ensures AllSound(states)
  {
    forall k | 0 <= k < |states|
      ensures SoundAt(states, k)
    {
      SoundInRun(states, k);
    }
  }

  // ----- a calm step -----

  /** Proposer r's attempt at a slot with its ballot, and the majority q that is to answer it. */
  datatype Bid = Bid(r: nat, q: set<nat>, slot: nat, ballot: Ballot)

  /** Acceptor a has answered the Prepare of ballot b. */
  ghost predicate Replied(s: State, a: nat, slot: nat, b: Ballot) {
    exists p :: PrepareResp(a, slot, b, p) in s.net
  }

  /** A request for the slot arrives at a member. */
  ghost predicate Reaches(s: State, step: Step, bid: Bid) {
    (step.DeliverPrepare? || step.DeliverAccept?) && step.a in bid.q && step.a < s.N() && step.slot == bid.slot
  }

  /**
   * The step does not disturb the bid: no higher ballot raises a member's promise, a member answers the Prepare once,
   * and a phase ends only when every member was heard.
   */
  ghost predicate Calm(s: State, step: Step, bid: Bid) {
    && (Reaches(s, step, bid) ==> step.ballot <= bid.ballot || step.ballot <= s.Slot(step.a, bid.slot).promised)
    && (Reaches(s, step, bid) && step.DeliverPrepare? && step.ballot == bid.ballot ==>
          !Replied(s, step.a, bid.slot, bid.ballot))
    && (bid.r < |s.proposers| ==>
          var ph := s.proposers[bid.r].phase;
          && (step == FinishPrepare(bid.r) && ph.Preparing? ==> bid.q <= ph.promises.Keys)
          && (step == FinishAccept(bid.r) && ph.Accepting? ==> bid.q <= ph.votes.Keys))
  }

  /** A refusal names a promise no lower than the ballot refused, and the member's promise is within what it replied. */
  ghost predicate Bounds(positive: bool, told: Ballot, b: Ballot, promised: Ballot) {
    if positive then promised <= b else b <= told && promised <= told
  }

  /** Member m's replies to the bid still bound its promise. */
  ghost predicate Reported(s: State, bid: Bid, m: nat) {
    && m < s.N()
    && (forall p :: PrepareResp(m, bid.slot, bid.ballot, p) in s.net ==>
          Bounds(p.promised, p.promisedBallot, bid.ballot, s.Slot(m, bid.slot).promised))
    && (forall v :: AcceptResp(m, bid.slot, bid.ballot, v) in s.net ==>
          Bounds(v.accepted, v.promisedBallot, bid.ballot, s.Slot(m, bid.slot).promised))
  }

  lemma ReportedNext(s: State, step: Step, bid: Bid, m: nat)
    requires s.Shape() && Enabled(s, step) && Calm(s, step, bid) && m in bid.q && Reported(s, bid, m)
    ensures Reported(Do(s, step), bid, m)
  {
    SlotAfter(s, step, m, bid.slot);
  }

  /** Member m can still be won for the bid. */
  ghost predicate Willing(s: State, bid: Bid, m: nat) {
    && m < s.N() && s.Slot(m, bid.slot).promised <= bid.ballot
    && (!Replied(s, m, bid.slot, bid.ballot) ==> s.Slot(m, bid.slot).promised < bid.ballot)
    && (forall p :: PrepareResp(m, bid.slot, bid.ballot, p) in s.net ==> p.promised)
    && (forall v :: AcceptResp(m, bid.slot, bid.ballot, v) in s.net ==> v.accepted)
  }

  /** The proposer is at work on the bid; once it has proposed, every member has answered the Prepare. */
  ghost predicate AtWork(s: State, bid: Bid) {
    && bid.r < |s.proposers| && !s.proposers[bid.r].phase.Idle?
    && s.proposers[bid.r].phase.slot == bid.slot && s.proposers[bid.r].phase.ballot == bid.ballot
    && (s.proposers[bid.r].phase.Accepting? ==> forall m :: m in bid.q ==> Replied(s, m, bid.slot, bid.ballot))
  }

  lemma WillingNext(s: State, step: Step, bid: Bid, m: nat)
    requires s.Shape() && InvPhase(s) && InvProposed(s) && Enabled(s, step) && Calm(s, step, bid)
    requires m in bid.q && AtWork(s, bid) && Willing(s, bid, m)
    ensures Willing(Do(s, step), bid, m)
  {
    SlotAfter(s, step, m, bid.slot);
    if Reaches(s, step, bid) && step.a == m && step.DeliverAccept? && step.ballot == bid.ballot {
      assert s.proposers[bid.r].phase.Accepting? by {
        assert AcceptReq(bid.slot, bid.ballot, step.value) in s.net;
        assert bid.ballot == s.proposers[bid.r].round * 256 + bid.r;
      }
      assert Replied(s, m, bid.slot, bid.ballot);
    }
    if Replied(s, m, bid.slot, bid.ballot) {
      var p :| PrepareResp(m, bid.slot, bid.ballot, p) in s.net;
      assert PrepareResp(m, bid.slot, bid.ballot, p) in Do(s, step).net;
    }
  }

  lemma AtWorkNext(s: State, step: Step, bid: Bid)
    requires s.Shape() && InvTallies(s) && Enabled(s, step) && Calm(s, step, bid) && AtWork(s, bid)
    requires !Do(s, step).proposers[bid.r].phase.Idle?
    ensures AtWork(Do(s, step), bid)
  {
    var s' := Do(s, step);
    if s'.proposers[bid.r].phase.Accepting? {
      forall m | m in bid.q
        ensures Replied(s', m, bid.slot, bid.ballot)
      {
        if s.proposers[bid.r].phase.Preparing? {
          assert PrepareResp(m, bid.slot, bid.ballot, s.proposers[bid.r].phase.promises[m]) in s.net;
        } else {
          var p :| PrepareResp(m, bid.slot, bid.ballot, p) in s.net;
          assert PrepareResp(m, bid.slot, bid.ballot, p) in s'.net;
        }
      }
    }
  }

  // ----- the start of an attempt -----

  /** The bid that replica r makes when it starts an attempt in state s. */
  ghost function BidOf(s: State, r: nat, q: set<nat>): Bid
    requires s.Shape() && r < s.N()
  {
    Bid(r, q, AppliedCount(s.logs[r]), MakeBallot(s.proposers[r].round + 1, r))
  }

  ghost predicate Members(s: State, q: set<nat>) {
    forall m :: m in q ==> m < s.N()
  }

  lemma BidIsFresh(s: State, r: nat, q: set<nat>)
    requires s.Shape() && AllBegun(s) && r < s.N() && s.proposers[r].round + 1 < ROUND_LIMIT
    ensures forall m :: m in s.net && !m.LearnReq? ==> m.ballot != BidOf(s, r, q).ballot
  {
    BallotRoundTrip(s.proposers[r].round + 1, r);
  }

  lemma StartsCalmly(s: State, r: nat, q: set<nat>, value: Command)
    requires Sound(s) && Enabled(s, StartSlot(r, value)) && Members(s, q)
    ensures var s', bid := Do(s, StartSlot(r, value)), BidOf(s, r, q);
      && AtWork(s', bid) && (forall m :: m in q ==> Reported(s', bid, m))
      && forall m :: m in q && s.Slot(m, bid.slot).promised < bid.ballot ==> Willing(s', bid, m)
  {
    BidIsFresh(s, r, q);
  }

  // ----- the end of an attempt -----

  /** Every member's promise is of a round the proposer has reached. */
  ghost predicate Overtaken(s: State, bid: Bid) {
    && s.Shape() && bid.r < s.N() && Round(bid.ballot) <= s.proposers[bid.r].round
    && forall m :: m in bid.q ==> m < s.N() && Round(s.Slot(m, bid.slot).promised) <= s.proposers[bid.r].round
  }

  /** An attempt that ends without a win has caught up with every member. */
  lemma LostCatchesUp(s: State, step: Step, bid: Bid)
    requires s.Shape() && InvPhase(s) && InvTallies(s) && AllCaught(s) && Enabled(s, step) && Calm(s, step, bid)
    requires AtWork(s, bid) && forall m :: m in bid.q ==> Reported(s, bid, m)
    requires Do(s, step).proposers[bid.r].phase.Idle? && !Winning(s, bid.r)
    ensures Overtaken(Do(s, step), bid)
  {
    var ph, s' := s.proposers[bid.r].phase, Do(s, step);
    assert Round(bid.ballot) == s.proposers[bid.r].round;
    var caught := if ph.Preparing? then ph.T1().maxPromised else ph.T2().maxPromised;
    assert step == if ph.Preparing? then FinishPrepare(bid.r) else FinishAccept(bid.r);
    forall m | m in bid.q
      ensures Round(s'.Slot(m, bid.slot).promised) <= s'.proposers[bid.r].round
    {
      var promised := s.Slot(m, bid.slot).promised;
      assert Reported(s, bid, m);
      assert promised <= bid.ballot || promised <= caught by {
        if ph.Preparing? {
          assert PrepareResp(m, bid.slot, bid.ballot, ph.promises[m]) in s.net;
        } else {
          assert AcceptResp(m, bid.slot, bid.ballot, ph.votes[m]) in s.net;
        }
      }
      RoundMonotone(promised, if promised <= bid.ballot then bid.ballot else caught);
    }
  }

  lemma SubsetSize(a: set<nat>, b: set<nat>)
    requires a <= b
    ensures |a| <= |b|
  {
    assert b == a + (b - a);
  }

  /** An attempt that can still win every member ends with a win. */
  lemma WillingMembersWin(s: State, step: Step, bid: Bid)
    requires s.Shape() && InvTallies(s) && Enabled(s, step) && Calm(s, step, bid) && Quorum(s.N(), bid.q)
    requires AtWork(s, bid) && forall m :: m in bid.q ==> Willing(s, bid, m)
    requires Do(s, step).proposers[bid.r].phase.Idle?
    ensures Winning(s, bid.r) && step == FinishAccept(bid.r)
  {
    var ph := s.proposers[bid.r].phase;
    if ph.Preparing? {
      assert step == FinishPrepare(bid.r);
      forall m | m in bid.q
        ensures m in Promisers(ph.promises)
      {
        assert Willing(s, bid, m);
        assert PrepareResp(m, bid.slot, bid.ballot, ph.promises[m]) in s.net;
      }
      SubsetSize(bid.q, Promisers(ph.promises));
      MajorityIsLeast(s.N(), |Promisers(ph.promises)|);
    } else {
      assert step == FinishAccept(bid.r);
      forall m | m in bid.q
        ensures m in Voters(ph.votes)
      {
        assert Willing(s, bid, m);
        assert AcceptResp(m, bid.slot, bid.ballot, ph.votes[m]) in s.net;
      }
      SubsetSize(bid.q, Voters(ph.votes));
      MajorityIsLeast(s.N(), |Voters(ph.votes)|);
    }
  }

  /** Calm steps leave the proposer ahead of every member. */
  lemma OvertakenNext(s: State, step: Step, bid: Bid)
    requires Overtaken(s, bid) && Enabled(s, step) && Calm(s, step, bid)
    ensures Overtaken(Do(s, step), bid)
  {
    forall m | m in bid.q
      ensures Round(Do(s, step).Slot(m, bid.slot).promised) <= Do(s, step).proposers[bid.r].round
    {
      SlotAfter(s, step, m, bid.slot);
      var promised := Do(s, step).Slot(m, bid.slot).promised;
      if promised <= bid.ballot {
        RoundMonotone(promised, bid.ballot);
      } else {
        RoundMonotone(promised, s.Slot(m, bid.slot).promised);
      }
    }
  }

  // ----- over a run -----

  ghost predicate CalmAt(states: seq<State>, steps: seq<Step>, k: nat, bid: Bid) {
    k < |states| && k < |steps| && Calm(states[k], steps[k], bid)
  }

  ghost predicate CalmOver(states: seq<State>, steps: seq<Step>, i: nat, j: nat, bid: Bid) {
    forall k {:trigger CalmAt(states, steps, k, bid)} :: i <= k < j ==> CalmAt(states, steps, k, bid)
  }

  /** In state i the bid is made. */
  ghost predicate BidAt(states: seq<State>, i: nat, bid: Bid) {
    && i < |states| && states[i].Shape() && bid.r < states[i].N() && Members(states[i], bid.q)
    && bid == BidOf(states[i], bid.r, bid.q)
  }

  /** The attempt with this bid starts at state i and is under way, undisturbed, at state k. */
  ghost predicate UnderWay(states: seq<State>, steps: seq<Step>, i: nat, k: nat, bid: Bid, value: Command) {
    var busy, made := Busy(states, steps, i, k, bid.r, value), BidAt(states, i, bid);
    var calm := CalmOver(states, steps, i, k, bid);
    busy && made && calm
  }

  /** The attempt with this bid starts at state i and ends, undisturbed, with the step from state j. */
  ghost predicate Attempted(states: seq<State>, steps: seq<Step>, i: nat, j: nat, bid: Bid, value: Command) {
    && UnderWay(states, steps, i, j, bid, value) && j < |steps| && CalmAt(states, steps, j, bid)
    && bid.r < |states[j + 1].proposers| && states[j + 1].proposers[bid.r].phase.Idle?
  }

  ghost predicate AllReported(s: State, bid: Bid) {
    forall m :: m in bid.q ==> Reported(s, bid, m)
  }

  ghost predicate AllWilling(s: State, bid: Bid) {
    forall m :: m in bid.q ==> Willing(s, bid, m)
  }

  ghost predicate AllBelow(s: State, bid: Bid) {
    forall m :: m in bid.q ==> m < s.N() && s.Slot(m, bid.slot).promised < bid.ballot
  }

  lemma StepUnderWay(s: State, step: Step, bid: Bid)
    requires Sound(s) && Enabled(s, step) && Calm(s, step, bid) && AtWork(s, bid) && AllReported(s, bid)
    requires !Do(s, step).proposers[bid.r].phase.Idle?
    ensures AtWork(Do(s, step), bid) && AllReported(Do(s, step), bid)
    ensures AllWilling(s, bid) ==> AllWilling(Do(s, step), bid)
  {
    AtWorkNext(s, step, bid);
    forall m | m in bid.q
      ensures Reported(Do(s, step), bid, m)
    {
      assert Reported(s, bid, m);
      ReportedNext(s, step, bid, m);
    }
    if AllWilling(s, bid) {
      forall m | m in bid.q
        ensures Willing(Do(s, step), bid, m)
      {
        assert Willing(s, bid, m);
        WillingNext(s, step, bid, m);
      }
    }
  }

  /** What holds all through an undisturbed attempt that started in state s. */
  ghost predicate Going(s: State, s': State, bid: Bid) {
    var work, reported := AtWork(s', bid), AllReported(s', bid);
    var below, willing := AllBelow(s, bid), AllWilling(s', bid);
    work && reported && (below ==> willing)
  }

  ghost predicate GoingAt(states: seq<State>, i: nat, k: nat, bid: Bid) {
    i < |states| && k < |states| && var going := Going(states[i], states[k], bid); going
  }

  lemma StartsGoing(states: seq<State>, steps: seq<Step>, i: nat, bid: Bid, value: Command)
    requires AllSound(states) && Trail(states, steps) && BidAt(states, i, bid)
    requires i < |steps| && steps[i] == StartSlot(bid.r, value)
    ensures GoingAt(states, i, i + 1, bid)
  {
    assert SoundAt(states, i);
    assert Takes(states, steps, i);
    StartsCalmly(states[i], bid.r, bid.q, value);
  }

  lemma StaysGoing(states: seq<State>, steps: seq<Step>, i: nat, k: nat, bid: Bid)
    requires AllSound(states) && Trail(states, steps) && k < |steps|
    requires GoingAt(states, i, k, bid) && CalmAt(states, steps, k, bid)
    requires bid.r < |states[k + 1].proposers| && !states[k + 1].proposers[bid.r].phase.Idle?
    ensures GoingAt(states, i, k + 1, bid)
  {
    assert SoundAt(states, k);
    assert Takes(states, steps, k);
    StepUnderWay(states[k], steps[k], bid);
  }

  lemma {:induction false} DuringAttempt(states: seq<State>, steps: seq<Step>, i: nat, k: nat, bid: Bid, value: Command)
    requires AllSound(states) && UnderWay(states, steps, i, k, bid, value)
    ensures GoingAt(states, i, k, bid)
    decreases k
  {
    if k == i + 1 {
      StartsGoing(states, steps, i, bid, value);
    } else {
      DuringAttempt(states, steps, i, k - 1, bid, value);
      assert CalmAt(states, steps, k - 1, bid);
      StaysGoing(states, steps, i, k - 1, bid);
    }
  }

  lemma {:induction false} StaysOvertaken(states: seq<State>, steps: seq<Step>, j: nat, k: nat, bid: Bid)
    requires Trail(states, steps) && j <= k <= |steps|
    requires Overtaken(states[j], bid) && CalmOver(states, steps, j, k, bid)
    ensures Overtaken(states[k], bid)
    decreases k
  {
    if k == j {
    } else {
      StaysOvertaken(states, steps, j, k - 1, bid);
      assert Takes(states, steps, k - 1) && CalmAt(states, steps, k - 1, bid);
      OvertakenNext(states[k - 1], steps[k - 1], bid);
    }
  }

  lemma {:induction false} SameSize(states: seq<State>, steps: seq<Step>, i: nat, j: nat)
    requires Trail(states, steps) && i <= j <= |steps|
    ensures states[j].N() == states[i].N()
    decreases j
  {
    if j == i {
    } else {
      SameSize(states, steps, i, j - 1);
      assert Takes(states, steps, j - 1);
    }
  }

  /** A ballot above every member's promise wins. */
  lemma HighBidWins(states: seq<State>, steps: seq<Step>, i: nat, j: nat, bid: Bid, value: Command)
    requires AllSound(states) && Attempted(states, steps, i, j, bid, value)
    requires Quorum(states[i].N(), bid.q) && AllBelow(states[i], bid)
    ensures Winning(states[j], bid.r) && steps[j] == FinishAccept(bid.r)
  {
    DuringAttempt(states, steps, i, j, bid, value);
    assert SoundAt(states, j);
    assert Takes(states, steps, j);
    SameSize(states, steps, i, j);
    WillingMembersWin(states[j], steps[j], bid);
  }

  lemma WinFinishes(states: seq<State>, steps: seq<Step>, i: nat, j: nat, bid: Bid, value: Command)
    requires Attempted(states, steps, i, j, bid, value) && Winning(states[j], bid.r)
    ensures steps[j] == FinishAccept(bid.r)
  {
    assert Takes(states, steps, j);
  }

  lemma LostBidOvertakes(states: seq<State>, steps: seq<Step>, i: nat, j: nat, bid: Bid, value: Command)
    requires AllSound(states) && Attempted(states, steps, i, j, bid, value) && !Winning(states[j], bid.r)
    ensures Overtaken(states[j + 1], bid)
  {
    DuringAttempt(states, steps, i, j, bid, value);
    assert SoundAt(states, j);
    assert Takes(states, steps, j);
    LostCatchesUp(states[j], steps[j], bid);
  }

  lemma NextBidIsAbove(s: State, bid: Bid, again: Bid)
    requires Overtaken(s, bid) && s.proposers[bid.r].round + 1 < ROUND_LIMIT
    requires again == BidOf(s, bid.r, bid.q) && again.slot == bid.slot
    ensures AllBelow(s, again)
  {
    BallotRoundTrip(s.proposers[bid.r].round + 1, bid.r);
  }

  lemma SecondIsAbove(states: seq<State>, steps: seq<Step>, i: nat, first: Bid, second: Bid, value: Command)
    requires Trail(states, steps) && i < |steps| && steps[i] == StartSlot(first.r, value) && Overtaken(states[i], first)
    requires BidAt(states, i, second) && second.r == first.r && second.q == first.q && second.slot == first.slot
    ensures AllBelow(states[i], second)
  {
    assert Takes(states, steps, i);
    NextBidIsAbove(states[i], first, second);
  }

  /** The attempt wins with the step from state j. */
  ghost predicate WonAt(states: seq<State>, steps: seq<Step>, j: nat, r: nat) {
    j < |states| && j < |steps| && Winning(states[j], r) && steps[j] == FinishAccept(r)
  }

  /** Two undisturbed attempts of one proposer at one slot, asking the same majority. */
  ghost predicate TwoAttempts(states: seq<State>, steps: seq<Step>, i: nat, j: nat, first: Bid, value: Command,
                              i': nat, j': nat, second: Bid, value': Command) {
    var attempted := Attempted(states, steps, i, j, first, value);
    var again := Attempted(states, steps, i', j', second, value');
    var quorum := i < |states| && Quorum(states[i].N(), first.q);
    var calm := CalmOver(states, steps, j, i', first);
    && attempted && again && quorum && calm && j < i'
    && second.r == first.r && second.q == first.q && second.slot == first.slot
  }

  lemma SecondBidWins(states: seq<State>, steps: seq<Step>, i: nat, j: nat, first: Bid, value: Command,
                      i': nat, j': nat, second: Bid, value': Command)
    requires AllSound(states) && TwoAttempts(states, steps, i, j, first, value, i', j', second, value')
    requires !Winning(states[j], first.r)
    ensures WonAt(states, steps, j', first.r)
  {
    LostBidOvertakes(states, steps, i, j, first, value);
    StaysOvertaken(states, steps, j + 1, i', first);
    SecondIsAbove(states, steps, i', first, second, value');
    SameSize(states, steps, i, i');
    HighBidWins(states, steps, i', j', second, value');
  }

  /**
   * In every run, from every reachable state: a proposer that a majority answers, undisturbed by higher ballots, wins
   * its first or its second attempt at a slot.
   */
  lemma SecondAttemptWins(states: seq<State>, steps: seq<Step>, i: nat, j: nat, first: Bid, value: Command,
                          i': nat, j': nat, second: Bid, value': Command)
    requires Run(states) && TwoAttempts(states, steps, i, j, first, value, i', j', second, value')
    ensures WonAt(states, steps, j, first.r) || WonAt(states, steps, j', first.r)
  {
    RunIsSound(states);
    if Winning(states[j], first.r) {
      WinFinishes(states, steps, i, j, first, value);
    } else {
      SecondBidWins(states, steps, i, j, first, value, i', j', second, value');
    }
  }

  /** In state k replica r has applied the slot. */
  ghost predicate AppliedAt(states: seq<State>, k: nat, r: nat, slot: nat) {
    k < |states| && states[k].Shape() && r < states[k].N() && slot < AppliedCount(states[k].logs[r])
  }

  lemma WinApplies(states: seq<State>, steps: seq<Step>, i: nat, j: nat, bid: Bid, value: Command, k: nat)
    requires Run(states) && Attempted(states, steps, i, j, bid, value)
    requires WonAt(states, steps, j, bid.r) && j < k < |states|
    ensures AppliedAt(states, k, bid.r, bid.slot)
  {
    assert states[j].proposers[bid.r].phase.slot == bid.slot by {
      RunIsSound(states);
      DuringAttempt(states, steps, i, j, bid, value);
    }
    assert states[j + 1] == Do(states[j], FinishAccept(bid.r)) by {
      assert Takes(states, steps, j);
    }
    ReplicatedLog.WonCommandStays(states, j, bid.r, k);
  }

  /**
   * What filling gaps relies on: the attempts go for the first slot not applied, the hole, and after two of them,
   * undisturbed, that slot is applied.
   */
  lemma HoleFilled(states: seq<State>, steps: seq<Step>, i: nat, j: nat, first: Bid, value: Command,
                   i': nat, j': nat, second: Bid, value': Command)
    requires Run(states) && TwoAttempts(states, steps, i, j, first, value, i', j', second, value')
    ensures BidAt(states, i, first) && first.slot == AppliedCount(states[i].logs[first.r])
    ensures AppliedAt(states, j' + 1, first.r, first.slot)
  {
    SecondAttemptWins(states, steps, i, j, first, value, i', j', second, value');
    if WonAt(states, steps, j, first.r) {
      WinApplies(states, steps, i, j, first, value, j' + 1);
    } else {
      WinApplies(states, steps, i', j', second, value', j' + 1);
    }
  }
}
