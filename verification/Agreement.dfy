/** The invariant of the Paxos step system, and agreement: the argument P2c of "Paxos Made Simple", section 2.2. */
module Agreement {
  import opened Ballots
  import opened Directory
  import opened Acceptors
  import opened LearnerLog
  import opened Proposers
  import opened Cluster

  // ----- quorums -----

  /** More than half of the replicas. */
  ghost predicate Quorum(n: nat, q: set<nat>) {
    (forall a :: a in q ==> a < n) && 2 * |q| > n
  }

  lemma {:induction false} RangeCard(n: nat, q: set<nat>)
    requires forall a :: a in q ==> a < n
    ensures |q| <= n
  {
    if n == 0 {
      assert q == {};
    } else {
      RangeCard(n - 1, q - {n - 1});
    }
  }

  /** Two majorities share a replica. */
  lemma QuorumsMeet(n: nat, q1: set<nat>, q2: set<nat>) returns (a: nat)
    requires Quorum(n, q1) && Quorum(n, q2)
    ensures a in q1 && a in q2
  {
    RangeCard(n, q1 + q2);
    assert |q1 + q2| + |q1 * q2| == |q1| + |q2|;
    a :| a in q1 * q2;
  }

  // ----- what has happened, read off the network -----

  /** Acceptor `a` accepted the proposal of ballot `b`. */
  predicate Voted(s: State, a: nat, slot: nat, b: Ballot) {
    AcceptResp(a, slot, b, AcceptReply(true, b)) in s.net
  }

  /** A majority accepted command `v` at ballot `b`. */
  ghost predicate ChosenAt(s: State, slot: nat, b: Ballot, v: Command, q: set<nat>) {
    && AcceptReq(slot, b, v) in s.net
    && Quorum(s.N(), q)
    && forall a :: a in q ==> Voted(s, a, slot, b)
  }

  ghost predicate IsChosen(s: State, slot: nat, v: Command) {
    exists b: nat, q :: ChosenAt(s, slot, b, v, q)
  }

  /** No acceptor of `q` accepted, or ever will, at a ballot strictly between `c` and `b`. */
  ghost predicate Silent(s: State, slot: nat, b: Ballot, q: set<nat>, c: int) {
    && (forall a :: a in q ==> a < s.N() && b <= s.Slot(a, slot).promised)
    && (forall a, d: nat :: a in q && c < d < b ==> !Voted(s, a, slot, d))
  }

  /** Why the proposal of `v` at ballot `b` is safe: a quorum past which only ballot `c` matters. */
  ghost predicate SafeBy(s: State, slot: nat, b: Ballot, v: Command, q: set<nat>, c: int) {
    && c < b
    && Quorum(s.N(), q)
    && Silent(s, slot, b, q, c)
    && (c < 0 || AcceptReq(slot, c, v) in s.net)
  }

  ghost predicate Safe(s: State, slot: nat, b: Ballot, v: Command) {
    exists q, c :: SafeBy(s, slot, b, v, q, c)
  }

  // ----- the invariant -----

  /** A running proposer uses the ballot of its current round. */
  ghost predicate InvPhase(s: State)
    requires s.Shape()
  {
    forall r :: 0 <= r < s.N() && !s.proposers[r].phase.Idle? ==>
      s.proposers[r].phase.ballot == s.proposers[r].round * 256 + r
  }

  /** Proposals carry ballots of rounds already begun; one still preparing has proposed nothing at its round. */
  ghost predicate InvProposed(s: State)
    requires s.Shape()
  {
    forall slot: nat, b: nat, v :: AcceptReq(slot, b, v) in s.net ==>
      && Index(b) < s.N()
      && Round(b) <= s.proposers[Index(b)].round
      && (s.proposers[Index(b)].phase.Preparing? ==> Round(b) < s.proposers[Index(b)].round)
  }

  /** One command per ballot. */
  ghost predicate InvOneValue(s: State) {
    forall slot: nat, b: nat, v, w :: AcceptReq(slot, b, v) in s.net && AcceptReq(slot, b, w) in s.net ==> v == w
  }

  /** An acceptor's state is the summary of its votes, and each accepted command was proposed. */
  ghost predicate InvVotes(s: State)
    requires s.Shape()
  {
    && (forall a: nat, slot: nat, b: nat :: Voted(s, a, slot, b) ==>
          && a < s.N()
          && s.Slot(a, slot).acceptedValue.Some? && b <= s.Slot(a, slot).acceptedBallot)
    && (forall a: nat, slot: nat {:trigger s.Slot(a, slot)} :: a < s.N() ==>
          var sl := s.Slot(a, slot);
          && sl.acceptedBallot <= sl.promised
          && (sl.acceptedValue.Some? ==> AcceptReq(slot, sl.acceptedBallot, sl.acceptedValue.value) in s.net))
  }

  /** Promise number `b` from `a` told the truth and binds it. */
  ghost predicate PromiseKept(s: State, a: nat, slot: nat, b: Ballot, p: PrepareReply) {
    && a < s.N() && b <= s.Slot(a, slot).promised
    && (p.acceptedValue.Some? ==>
          p.acceptedBallot < b && AcceptReq(slot, p.acceptedBallot, p.acceptedValue.value) in s.net)
    && (forall d: nat :: (if p.acceptedValue.Some? then p.acceptedBallot else -1) < d < b ==> !Voted(s, a, slot, d))
  }

  ghost predicate InvPromises(s: State) {
    forall a: nat, slot: nat, b: nat, p ::
      PrepareResp(a, slot, b, p) in s.net && p.promised ==> PromiseKept(s, a, slot, b, p)
  }

  ghost function Promisers(promises: map<nat, PrepareReply>): set<nat> {
    set a | a in promises && promises[a].promised
  }

  ghost function Voters(votes: map<nat, AcceptReply>): set<nat> {
    set a | a in votes && votes[a].accepted
  }

  /** The tally of a preparing proposer sums up the promises it heard. */
  ghost predicate TallyMatches(s: State, ph: Phase)
    requires ph.Preparing?
  {
    && (forall a :: a in ph.promises ==> PrepareResp(a, ph.slot, ph.ballot, ph.promises[a]) in s.net)
    && ph.T1().promises == |Promisers(ph.promises)|
    && (forall a :: a in Promisers(ph.promises) && ph.promises[a].acceptedValue.Some? ==>
          ph.T1().adopted.Some? && ph.promises[a].acceptedBallot <= ph.T1().adoptedBallot)
    && (ph.T1().adopted.None? ==> ph.T1().adoptedBallot == 0)
    && (ph.T1().adopted.Some? ==>
          && AcceptReq(ph.slot, ph.T1().adoptedBallot, ph.T1().adopted.value) in s.net
          && ph.T1().adoptedBallot < ph.ballot)
  }

  ghost predicate VotesMatch(s: State, ph: Phase)
    requires ph.Accepting?
  {
    && AcceptReq(ph.slot, ph.ballot, ph.Proposed()) in s.net
    && ph.T1().promises >= Majority(s.N())
    && (forall a :: a in ph.votes ==> AcceptResp(a, ph.slot, ph.ballot, ph.votes[a]) in s.net)
    && ph.T2().accepts == |Voters(ph.votes)|
  }

  ghost predicate InvTallies(s: State)
    requires s.Shape()
  {
    forall r :: 0 <= r < s.N() ==>
      var ph := s.proposers[r].phase;
      && (ph.Preparing? ==> TallyMatches(s, ph))
      && (ph.Accepting? ==> VotesMatch(s, ph))
  }

  /** An acceptance carries its own ballot back and comes from a replica. */
  ghost predicate InvAcceptResps(s: State) {
    forall a: nat, slot: nat, b: nat, vote ::
      AcceptResp(a, slot, b, vote) in s.net && vote.accepted ==> Voted(s, a, slot, b) && a < s.N()
  }

  ghost predicate InvSafe(s: State) {
    forall slot: nat, b: nat, v :: AcceptReq(slot, b, v) in s.net ==> Safe(s, slot, b, v)
  }

  /** Only chosen commands are learned, and only those are in a log. */
  ghost predicate InvLearned(s: State)
    requires s.Shape()
  {
    && (forall slot: nat, v :: LearnReq(slot, v) in s.net ==> IsChosen(s, slot, v))
    && (forall r: nat, slot :: r < s.N() && slot in s.logs[r] ==> IsChosen(s, slot, s.logs[r][slot]))
  }

  /** Replica r has counted a majority of acceptances. */
  ghost predicate Winning(s: State, r: nat) {
    s.Shape() && r < s.N() && s.proposers[r].phase.Accepting? && s.proposers[r].phase.T2().accepts >= Majority(s.N())
  }

  /** A proposer works on a slot its own log had reached. */
  ghost predicate InvTarget(s: State)
    requires s.Shape()
  {
    forall r :: 0 <= r < s.N() && !s.proposers[r].phase.Idle? ==> s.proposers[r].phase.slot <= AppliedCount(s.logs[r])
  }

  ghost predicate Inv(s: State) {
    && s.Shape()
    && InvPhase(s) && InvProposed(s) && InvOneValue(s) && InvVotes(s) && InvPromises(s)
    && InvTallies(s) && InvAcceptResps(s) && InvSafe(s) && InvLearned(s) && InvTarget(s)
  }

  // ----- agreement -----

  /** P2c: once `v` is chosen at ballot `b`, every proposal of a ballot from `b` on carries `v`. */
  lemma {:induction false} LaterProposalsCarryChosen(s: State, slot: nat, b: Ballot, v: Command, q: set<nat>,
                                                     b': Ballot, v': Command)
    requires Inv(s)
    requires ChosenAt(s, slot, b, v, q)
    requires b <= b' && AcceptReq(slot, b', v') in s.net
    ensures v' == v
    decreases b'
  {
    if b == b' {
    } else {
      var q', c :| SafeBy(s, slot, b', v', q', c);
      var a := QuorumsMeet(s.N(), q, q');
      assert Voted(s, a, slot, b);
      LaterProposalsCarryChosen(s, slot, b, v, q, c, v');
    }
  }

  /** Agreement: no slot ever has two different commands accepted by majorities. */
  lemma ChosenIsUnique(s: State, slot: nat, v: Command, w: Command)
    requires Inv(s) && IsChosen(s, slot, v) && IsChosen(s, slot, w)
    ensures v == w
  {
    var b1, q1 :| ChosenAt(s, slot, b1, v, q1);
    var b2, q2 :| ChosenAt(s, slot, b2, w, q2);
    if b1 <= b2 {
      LaterProposalsCarryChosen(s, slot, b1, v, q1, b2, w);
    } else {
      LaterProposalsCarryChosen(s, slot, b2, w, q2, b1, v);
    }
  }
}
