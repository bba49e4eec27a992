/** Every step of the cluster keeps the invariant, so it holds in every state of every run. */
module Invariant {
  import opened Options
  import opened Ballots
  import opened Directory
  import opened Acceptors
  import opened LearnerLog
  import opened Proposers
  import opened Cluster
  import opened Agreement

  lemma InitInv(s: State)
    requires Init(s)
    ensures Inv(s)
  {
  }

  lemma NextPhase(s: State, step: Step)
    requires s.Shape() && InvPhase(s) && Enabled(s, step)
    ensures InvPhase(Do(s, step))
  {
    if step.StartSlot? {
      BallotRoundTrip(s.proposers[step.r].round + 1, step.r);
    }
  }

  lemma NextProposed(s: State, step: Step)
    requires s.Shape() && InvPhase(s) && InvProposed(s) && Enabled(s, step)
    ensures InvProposed(Do(s, step))
  {
    var s' := Do(s, step);
    forall slot: nat, b: nat, v | AcceptReq(slot, b, v) in s'.net
      ensures Index(b) < s.N() && Round(b) <= s'.proposers[Index(b)].round
      ensures s'.proposers[Index(b)].phase.Preparing? ==> Round(b) < s'.proposers[Index(b)].round
    {
      if AcceptReq(slot, b, v) !in s.net {
        assert step.FinishPrepare? && b == s.proposers[step.r].round * 256 + step.r;
      }
    }
  }

  lemma NextOneValue(s: State, step: Step)
    requires s.Shape() && InvPhase(s) && InvProposed(s) && InvOneValue(s) && Enabled(s, step)
    ensures InvOneValue(Do(s, step))
  {
  }

  /** What an acceptor slot reads after a step. */
  lemma SlotAfter(s: State, step: Step, a: nat, slot: nat)
    requires s.Shape() && Enabled(s, step) && a < s.N()
    ensures Do(s, step).Slot(a, slot) ==
      if step.DeliverPrepare? && step.a == a && step.slot == slot then OnPrepare(s.Slot(a, slot), step.ballot).0
      else if step.DeliverAccept? && step.a == a && step.slot == slot
      then OnAccept(s.Slot(a, slot), step.ballot, step.value).0
      else s.Slot(a, slot)
  {
  }

  /** Messages stay, promises never fall, and a new vote is at or above the promise it met. */
  ghost predicate Grows(s: State, s': State) {
    && s'.N() == s.N()
    && s.net <= s'.net
    && (forall a: nat, slot: nat {:trigger s'.Slot(a, slot)} ::
          a < s.N() ==> s.Slot(a, slot).promised <= s'.Slot(a, slot).promised)
    && (forall a: nat, slot: nat, b: nat :: Voted(s', a, slot, b) ==>
          Voted(s, a, slot, b) || (a < s.N() && s.Slot(a, slot).promised <= b))
  }

  lemma StepGrows(s: State, step: Step)
    requires s.Shape() && Enabled(s, step)
    ensures Grows(s, Do(s, step))
  {
    forall a: nat, slot: nat | a < s.N()
      ensures s.Slot(a, slot).promised <= Do(s, step).Slot(a, slot).promised
    {
      SlotAfter(s, step, a, slot);
    }
  }

  lemma NextVotes(s: State, step: Step)
    requires s.Shape() && InvVotes(s) && Enabled(s, step)
    ensures InvVotes(Do(s, step))
  {
    var s' := Do(s, step);
    forall a: nat, slot: nat, b: nat | Voted(s', a, slot, b)
      ensures a < s.N() && s'.Slot(a, slot).acceptedValue.Some? && b <= s'.Slot(a, slot).acceptedBallot
    {
      if Voted(s, a, slot, b) {
        SlotAfter(s, step, a, slot);
      }
    }
    forall a: nat, slot: nat | a < s.N()
      ensures var sl := s'.Slot(a, slot);
        && sl.acceptedBallot <= sl.promised
        && (sl.acceptedValue.Some? ==> AcceptReq(slot, sl.acceptedBallot, sl.acceptedValue.value) in s'.net)
    {
      SlotAfter(s, step, a, slot);
    }
  }

  lemma NextAcceptResps(s: State, step: Step)
    requires s.Shape() && InvAcceptResps(s) && Enabled(s, step)
    ensures InvAcceptResps(Do(s, step))
  {
  }

  lemma PromiseKeptStable(s: State, s': State, a: nat, slot: nat, b: Ballot, p: PrepareReply)
    requires Grows(s, s') && PromiseKept(s, a, slot, b, p)
    ensures PromiseKept(s', a, slot, b, p)
  {
  }

  lemma NewPromiseKept(s: State, a: nat, slot: nat, b: Ballot)
    requires s.Shape() && InvVotes(s) && a < s.N() && PrepareReq(slot, b) in s.net
    requires OnPrepare(s.Slot(a, slot), b).1.promised
    ensures PromiseKept(Do(s, DeliverPrepare(a, slot, b)), a, slot, b, OnPrepare(s.Slot(a, slot), b).1)
  {
    var step := DeliverPrepare(a, slot, b);
    var s' := Do(s, step);
    SlotAfter(s, step, a, slot);
    forall d: nat | Voted(s', a, slot, d)
      ensures s.Slot(a, slot).acceptedValue.Some? && d <= s.Slot(a, slot).acceptedBallot
    {
      assert Voted(s, a, slot, d);
    }
  }

  lemma NextPromises(s: State, step: Step)
    requires s.Shape() && InvVotes(s) && InvPromises(s) && Enabled(s, step)
    ensures InvPromises(Do(s, step))
  {
    var s' := Do(s, step);
    StepGrows(s, step);
    forall a: nat, slot: nat, b: nat, p | PrepareResp(a, slot, b, p) in s'.net && p.promised
      ensures PromiseKept(s', a, slot, b, p)
    {
      if PrepareResp(a, slot, b, p) !in s.net {
        NewPromiseKept(s, a, slot, b);
      } else {
        PromiseKeptStable(s, s', a, slot, b, p);
      }
    }
  }

  lemma TallyMatchesStable(s: State, s': State, ph: Phase)
    requires s.net <= s'.net && s.N() == s'.N()
    ensures ph.Preparing? && TallyMatches(s, ph) ==> TallyMatches(s', ph)
    ensures ph.Accepting? && VotesMatch(s, ph) ==> VotesMatch(s', ph)
  {
  }

  lemma TallyNext(arrived: seq<Option<PrepareReply>>, p: PrepareReply)
    ensures TallyPrepares(arrived + [Some(p)]) == CountPromise(TallyPrepares(arrived), p)
  {
    assert (arrived + [Some(p)])[..|arrived|] == arrived;
  }

  lemma PromisersNext(promises: map<nat, PrepareReply>, from: nat, p: PrepareReply)
    requires from !in promises
    ensures |Promisers(promises[from := p])| == |Promisers(promises)| + if p.promised then 1 else 0
    ensures Promisers(promises[from := p]) == if p.promised then Promisers(promises) + {from} else Promisers(promises)
  {
    if p.promised {
      assert Promisers(promises[from := p]) == Promisers(promises) + {from};
    } else {
      assert Promisers(promises[from := p]) == Promisers(promises);
    }
  }

  /** Hearing one more promise keeps the tally in step with the replies. */
  lemma HearPrepareTally(s: State, ph: Phase, from: nat, p: PrepareReply)
    requires ph.Preparing? && TallyMatches(s, ph) && from !in ph.promises
    requires PrepareResp(from, ph.slot, ph.ballot, p) in s.net && InvPromises(s)
    ensures TallyMatches(s, ph.(promises := ph.promises[from := p], arrived1 := ph.arrived1 + [Some(p)]))
  {
    TallyNext(ph.arrived1, p);
    PromisersNext(ph.promises, from, p);
    if p.promised {
      assert PromiseKept(s, from, ph.slot, ph.ballot, p);
    }
  }

  lemma HearAcceptTally(s: State, ph: Phase, from: nat, vote: AcceptReply)
    requires ph.Accepting? && VotesMatch(s, ph) && from !in ph.votes
    requires AcceptResp(from, ph.slot, ph.ballot, vote) in s.net
    ensures VotesMatch(s, ph.(votes := ph.votes[from := vote], arrived2 := ph.arrived2 + [Some(vote)]))
  {
    var after := ph.votes[from := vote];
    assert (ph.arrived2 + [Some(vote)])[..|ph.arrived2|] == ph.arrived2;
    if vote.accepted {
      assert Voters(after) == Voters(ph.votes) + {from};
    } else {
      assert Voters(after) == Voters(ph.votes);
    }
  }

  lemma NextTallies(s: State, step: Step)
    requires s.Shape() && InvPromises(s) && InvTallies(s) && Enabled(s, step)
    ensures InvTallies(Do(s, step))
  {
    var s' := Do(s, step);
    forall r | 0 <= r < s.N()
      ensures var ph := s'.proposers[r].phase;
        (ph.Preparing? ==> TallyMatches(s', ph)) && (ph.Accepting? ==> VotesMatch(s', ph))
    {
      var ph := s.proposers[r].phase;
      if step.HearPrepare? && step.r == r {
        HearPrepareTally(s, ph, step.from, step.promise);
      } else if step.HearAccept? && step.r == r {
        HearAcceptTally(s, ph, step.from, step.vote);
      }
      TallyMatchesStable(s, s', s'.proposers[r].phase);
    }
  }

  lemma SafeByStable(s: State, s': State, slot: nat, b: Ballot, v: Command, q: set<nat>, c: int)
    requires Grows(s, s') && SafeBy(s, slot, b, v, q, c)
    ensures SafeBy(s', slot, b, v, q, c)
  {
  }

  /** P2c for a new proposal: the promises behind it show that nothing else can have been chosen below. */
  lemma NewProposalSafe(s: State, r: nat)
    requires s.Shape() && InvPromises(s) && InvTallies(s) && InvPhase(s)
    requires r < s.N() && s.proposers[r].phase.Preparing?
    requires s.proposers[r].phase.T1().promises >= Majority(s.N())
    ensures var ph := s.proposers[r].phase;
      Safe(s, ph.slot, ph.ballot, ph.Proposed())
  {
    var ph := s.proposers[r].phase;
    assert TallyMatches(s, ph);
    var q := Promisers(ph.promises);
    var c: int := if ph.T1().adopted.Some? then ph.T1().adoptedBallot else -1;
    forall a | a in q
      ensures PromiseKept(s, a, ph.slot, ph.ballot, ph.promises[a])
    {
      assert PrepareResp(a, ph.slot, ph.ballot, ph.promises[a]) in s.net;
    }
    forall a, d: nat | a in q && c < d < ph.ballot
      ensures !Voted(s, a, ph.slot, d)
    {
      assert PromiseKept(s, a, ph.slot, ph.ballot, ph.promises[a]);
    }
    assert SafeBy(s, ph.slot, ph.ballot, ph.Proposed(), q, c);
  }

  lemma NextSafe(s: State, step: Step)
    requires s.Shape() && InvPhase(s) && InvPromises(s) && InvTallies(s) && InvSafe(s) && Enabled(s, step)
    ensures InvSafe(Do(s, step))
  {
    var s' := Do(s, step);
    StepGrows(s, step);
    forall slot: nat, b: nat, v | AcceptReq(slot, b, v) in s'.net
      ensures Safe(s', slot, b, v)
    {
      if AcceptReq(slot, b, v) !in s.net {
        NewProposalSafe(s, step.r);
      }
      var q, c :| SafeBy(s, slot, b, v, q, c);
      SafeByStable(s, s', slot, b, v, q, c);
    }
  }

  lemma IsChosenStable(s: State, s': State, slot: nat, v: Command)
    requires s'.N() == s.N() && s.net <= s'.net && IsChosen(s, slot, v)
    ensures IsChosen(s', slot, v)
  {
    var b: nat, q :| ChosenAt(s, slot, b, v, q);
    assert ChosenAt(s', slot, b, v, q);
  }

  /** A proposer with a majority of acceptances has its proposal chosen. */
  lemma WonProposalChosen(s: State, r: nat)
    requires s.Shape() && InvTallies(s) && InvAcceptResps(s)
    requires r < s.N() && s.proposers[r].phase.Accepting?
    requires s.proposers[r].phase.T2().accepts >= Majority(s.N())
    ensures IsChosen(s, s.proposers[r].phase.slot, s.proposers[r].phase.Proposed())
  {
    var ph := s.proposers[r].phase;
    assert VotesMatch(s, ph);
    MajorityIsLeast(s.N(), ph.T2().accepts);
    assert ChosenAt(s, ph.slot, ph.ballot, ph.Proposed(), Voters(ph.votes));
  }

  lemma NextLearned(s: State, step: Step)
    requires s.Shape() && InvTallies(s) && InvAcceptResps(s) && InvLearned(s) && Enabled(s, step)
    ensures InvLearned(Do(s, step))
  {
    var s' := Do(s, step);
    forall slot: nat, v | LearnReq(slot, v) in s'.net
      ensures IsChosen(s', slot, v)
    {
      if LearnReq(slot, v) !in s.net {
        WonProposalChosen(s, step.r);
      }
      IsChosenStable(s, s', slot, v);
    }
    forall r: nat, slot | r < s.N() && slot in s'.logs[r]
      ensures IsChosen(s', slot, s'.logs[r][slot])
    {
      var v := s'.logs[r][slot];
      if slot !in s.logs[r] && step.FinishAccept? {
        WonProposalChosen(s, r);
      }
      IsChosenStable(s, s', slot, v);
    }
  }

  lemma NextTarget(s: State, step: Step)
    requires s.Shape() && InvTarget(s) && Enabled(s, step)
    ensures InvTarget(Do(s, step))
  {
    var s' := Do(s, step);
    forall r | 0 <= r < s.N()
      ensures AppliedCount(s.logs[r]) <= AppliedCount(s'.logs[r])
    {
      TraceGrows(s.logs[r], s'.logs[r]);
    }
  }

  lemma InvNext(s: State, step: Step)
    requires Inv(s) && Enabled(s, step)
    ensures Inv(Do(s, step))
  {
    NextPhase(s, step);
    NextProposed(s, step);
    NextOneValue(s, step);
    NextVotes(s, step);
    NextAcceptResps(s, step);
    NextPromises(s, step);
    NextTallies(s, step);
    NextSafe(s, step);
    NextLearned(s, step);
    NextTarget(s, step);
  }

  lemma NextKeepsInv(s: State, s': State)
    requires Inv(s) && Next(s, s')
    ensures Inv(s')
  {
    var step :| Enabled(s, step) && s' == Do(s, step);
    InvNext(s, step);
  }

  /** The invariant holds in every state of every run. */
  lemma {:induction false} InvInRun(states: seq<State>, i: nat)
    requires Run(states) && i < |states|
    ensures Inv(states[i])
  {
    if i == 0 {
      InitInv(states[0]);
    } else {
      InvInRun(states, i - 1);
      assert Follows(states, i - 1);
      NextKeepsInv(states[i - 1], states[i]);
    }
  }
}
