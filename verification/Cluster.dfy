/**
 * The cluster of internal/paxos as a step system. The network is the set of all messages
 * ever sent: a message may be delivered late, out of order, many times or never, and a call
 * its proposer gave up on may still land. Replicas are named by their index in the sorted
 * list of replica ids. Acceptors do not restart.
 */
module Cluster {
  import opened Options
  import opened Ballots
  import opened Directory
  import opened Acceptors
  import opened LearnerLog
  import opened Proposers

  datatype Message =
    | PrepareReq(slot: nat, ballot: Ballot)
    | PrepareResp(from: nat, slot: nat, ballot: Ballot, promise: PrepareReply)
    | AcceptReq(slot: nat, ballot: Ballot, value: Command)
    | AcceptResp(from: nat, slot: nat, ballot: Ballot, vote: AcceptReply)
    | LearnReq(slot: nat, value: Command)

  /** Where a replica's runSlot call stands: whom it heard, and the replies in the order they arrived.
      Each peer is heard at most once per phase. */
  datatype Phase =
    | Idle
    | Preparing(slot: nat, ballot: Ballot, value: Command,
                promises: map<nat, PrepareReply>, arrived1: seq<Option<PrepareReply>>)
    | Accepting(slot: nat, ballot: Ballot, value: Command, arrived1: seq<Option<PrepareReply>>,
                votes: map<nat, AcceptReply>, arrived2: seq<Option<AcceptReply>>)
  {
    function T1(): PrepareTally
      requires !Idle?
    {
      TallyPrepares(arrived1)
    }

    function T2(): AcceptTally
      requires Accepting?
    {
      TallyAccepts(arrived2)
    }

    function Proposed(): Command
      requires !Idle?
    {
      Proposal(T1(), value)
    }
  }

  datatype Proposer = Proposer(round: nat, phase: Phase)

  datatype State = State(
    acceptors: seq<map<nat, AcceptorSlot>>,
    proposers: seq<Proposer>,
    logs: seq<Chosen>,
    net: set<Message>)
  {
    function N(): nat {
      |acceptors|
    }

    predicate Shape() {
      0 < N() <= 256 && |proposers| == N() && |logs| == N()
    }

    function Slot(a: nat, slot: nat): AcceptorSlot
      requires a < N()
    {
      At(acceptors[a], slot)
    }
  }

  datatype Step =
    | StartSlot(r: nat, value: Command)
    | DeliverPrepare(a: nat, slot: nat, ballot: Ballot)
    | HearPrepare(r: nat, from: nat, promise: PrepareReply)
    | FinishPrepare(r: nat)
    | DeliverAccept(a: nat, slot: nat, ballot: Ballot, value: Command)
    | HearAccept(r: nat, from: nat, vote: AcceptReply)
    | FinishAccept(r: nat)
    | DeliverLearn(r: nat, slot: nat, value: Command)

  predicate Init(s: State) {
    && s.Shape()
    && s.net == {}
    && (forall a :: 0 <= a < s.N() ==> s.acceptors[a] == map[])
    && (forall r :: 0 <= r < s.N() ==> s.proposers[r] == Proposer(0, Idle))
    && (forall r :: 0 <= r < s.N() ==> s.logs[r] == map[])
  }

  predicate Enabled(s: State, step: Step)
    requires s.Shape()
  {
    match step
    case StartSlot(r, _) =>
      r < s.N() && s.proposers[r].phase.Idle? && s.proposers[r].round + 1 < ROUND_LIMIT
    case DeliverPrepare(a, slot, b) => a < s.N() && PrepareReq(slot, b) in s.net
    case HearPrepare(r, from, promise) =>
      && r < s.N() && s.proposers[r].phase.Preparing?
      && var ph := s.proposers[r].phase;
      from !in ph.promises && PrepareResp(from, ph.slot, ph.ballot, promise) in s.net
    case FinishPrepare(r) => r < s.N() && s.proposers[r].phase.Preparing?
    case DeliverAccept(a, slot, b, v) => a < s.N() && AcceptReq(slot, b, v) in s.net
    case HearAccept(r, from, vote) =>
      && r < s.N() && s.proposers[r].phase.Accepting?
      && var ph := s.proposers[r].phase;
      from !in ph.votes && AcceptResp(from, ph.slot, ph.ballot, vote) in s.net
    case FinishAccept(r) => r < s.N() && s.proposers[r].phase.Accepting?
    case DeliverLearn(r, slot, v) => r < s.N() && LearnReq(slot, v) in s.net
  }

  function WithPhase(s: State, r: nat, round: nat, phase: Phase): State
    requires s.Shape() && r < s.N()
  {
    s.(proposers := s.proposers[r := Proposer(round, phase)])
  }

  function WithSlot(s: State, a: nat, slot: nat, sl: AcceptorSlot): State
    requires s.Shape() && a < s.N()
  {
    var slots: map<nat, AcceptorSlot> := s.acceptors[a][slot := sl];
    s.(acceptors := s.acceptors[a := slots])
  }

  function Do(s: State, step: Step): (s': State)
    requires s.Shape() && Enabled(s, step)
    ensures s'.Shape() && s'.N() == s.N()
    ensures s.net <= s'.net
  {
    match step
    case StartSlot(r, value) =>
      var round := s.proposers[r].round + 1;
      var slot := AppliedCount(s.logs[r]);
      var ballot := MakeBallot(round, r);
      WithPhase(s, r, round, Preparing(slot, ballot, value, map[], []))
        .(net := s.net + {PrepareReq(slot, ballot)})

    case DeliverPrepare(a, slot, b) =>
      var (sl, reply) := OnPrepare(s.Slot(a, slot), b);
      WithSlot(s, a, slot, sl).(net := s.net + {PrepareResp(a, slot, b, reply)})

    case HearPrepare(r, from, promise) =>
      var ph := s.proposers[r].phase;
      WithPhase(s, r, s.proposers[r].round,
                ph.(promises := ph.promises[from := promise], arrived1 := ph.arrived1 + [Some(promise)]))

    case FinishPrepare(r) =>
      var p := s.proposers[r];
      var ph := p.phase;
      if ph.T1().promises < Majority(s.N()) then
        WithPhase(s, r, CatchUp(p.round, ph.T1().maxPromised), Idle)
      else
        WithPhase(s, r, p.round, Accepting(ph.slot, ph.ballot, ph.value, ph.arrived1, map[], []))
          .(net := s.net + {AcceptReq(ph.slot, ph.ballot, ph.Proposed())})

    case DeliverAccept(a, slot, b, v) =>
      var (sl, reply) := OnAccept(s.Slot(a, slot), b, v);
      WithSlot(s, a, slot, sl).(net := s.net + {AcceptResp(a, slot, b, reply)})

    case HearAccept(r, from, vote) =>
      var ph := s.proposers[r].phase;
      WithPhase(s, r, s.proposers[r].round,
                ph.(votes := ph.votes[from := vote], arrived2 := ph.arrived2 + [Some(vote)]))

    case FinishAccept(r) =>
      var p := s.proposers[r];
      var ph := p.phase;
      if ph.T2().accepts < Majority(s.N()) then
        WithPhase(s, r, CatchUp(p.round, ph.T2().maxPromised), Idle)
      else
        WithPhase(s, r, p.round, Idle)
          .(logs := s.logs[r := Committed(s.logs[r], ph.slot, ph.Proposed())],
          net := s.net + {LearnReq(ph.slot, ph.Proposed())})

    case DeliverLearn(r, slot, v) =>
      s.(logs := s.logs[r := Committed(s.logs[r], slot, v)])
  }

  ghost predicate Next(s: State, s': State) {
    s.Shape() && exists step :: Enabled(s, step) && s' == Do(s, step)
  }

  ghost predicate Follows(states: seq<State>, i: nat) {
    i + 1 < |states| && Next(states[i], states[i + 1])
  }

  /** Every finite behaviour of the cluster. */
  ghost predicate Run(states: seq<State>) {
    && |states| > 0
    && Init(states[0])
    && forall i {:trigger Follows(states, i)} :: 0 <= i < |states| - 1 ==> Follows(states, i)
  }
}
