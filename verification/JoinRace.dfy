/**
 * A run in which a node's join is committed and yet the node is not a member when its Submit returns: with two
 * replicas, while replica 0 holds back the commit of a join it has won, replica 1 completes that slot, gets a leave
 * of the same node chosen in the next one, and replica 0 learns of the leave first.
 */
module JoinRace {
  import opened Options
  import opened Ballots
  import opened Directory
  import opened Acceptors
  import opened LearnerLog
  import opened Proposers
  import opened Cluster
  import opened Agreement

  /** A stretch of a run. */
  ghost predicate Path(states: seq<State>) {
    |states| > 0 && forall k {:trigger Follows(states, k)} :: 0 <= k < |states| - 1 ==> Follows(states, k)
  }

  function Last(states: seq<State>): State
    requires |states| > 0
  {
    states[|states| - 1]
  }

  lemma Extend(states: seq<State>, step: Step) returns (more: seq<State>)
    requires Path(states) && Last(states).Shape() && Enabled(Last(states), step)
    ensures Path(more) && more[0] == states[0] && Last(more) == Do(Last(states), step)
    ensures more == states + [Do(Last(states), step)]
  {
    var s := Last(states);
    more := states + [Do(s, step)];
    assert Next(s, Do(s, step));
    forall k | 0 <= k < |more| - 1
      ensures Follows(more, k)
    {
      if k < |states| - 1 {
        assert Follows(states, k);
      }
    }
  }

  /** Two replicas; whatever the acceptors hold for the slot, they hold alike. */
  ghost predicate Pair(s: State, slot: nat, sl: AcceptorSlot) {
    s.Shape() && s.N() == 2 && s.Slot(0, slot) == sl && s.Slot(1, slot) == sl
  }

  /** Nothing but slot `slot` of the acceptors, replica r's proposer and the network differs. */
  ghost predicate OnlyAttempt(s: State, t: State, r: nat, slot: nat)
    requires s.Shape() && t.Shape() && s.N() == t.N() == 2 && r < 2
  {
    && t.logs == s.logs && s.net <= t.net && t.proposers[1 - r] == s.proposers[1 - r]
    && forall a: nat, other: nat :: a < 2 && other != slot ==> t.Slot(a, other) == s.Slot(a, other)
  }

  /** Replica r starts an attempt and both acceptors promise. */
  lemma BothPromise(states: seq<State>, r: nat, value: Command, slot: nat, b: Ballot, sl: AcceptorSlot)
      returns (more: seq<State>)
    requires Path(states) && Pair(Last(states), slot, sl) && Enabled(Last(states), StartSlot(r, value))
    requires slot == AppliedCount(Last(states).logs[r])
    requires b == MakeBallot(Last(states).proposers[r].round + 1, r) > sl.promised
    ensures Path(more) && more[0] == states[0] && Pair(Last(more), slot, sl.(promised := b))
    ensures OnlyAttempt(Last(states), Last(more), r, slot)
    ensures Last(more).proposers[r] ==
      Proposer(Last(states).proposers[r].round + 1, Preparing(slot, b, value, map[], []))
    ensures forall a: nat :: a < 2 ==> PrepareResp(a, slot, b, OnPrepare(sl, b).1) in Last(more).net
  {
    var p1 := Extend(states, StartSlot(r, value));
    var p2 := Extend(p1, DeliverPrepare(0, slot, b));
    more := Extend(p2, DeliverPrepare(1, slot, b));
  }

  lemma TallyOfTwo(p: PrepareReply)
    requires p.promised
    ensures TallyPrepares([Some(p), Some(p)]).promises == 2
    ensures TallyPrepares([Some(p), Some(p)]).adopted == p.acceptedValue
  {
    var one := [Some(p)];
    assert one[..0] == [];
    assert TallyPrepares(one) == CountPromise(NO_PROMISES, p);
    assert [Some(p), Some(p)][..1] == one;
  }

  lemma VotesOfTwo(v: AcceptReply)
    requires v.accepted
    ensures TallyAccepts([Some(v), Some(v)]).accepts == 2
  {
    var one := [Some(v)];
    assert one[..0] == [];
    assert TallyAccepts(one) == CountAccept(NO_ACCEPTS, v);
    assert [Some(v), Some(v)][..1] == one;
  }

  /** What the promises lead replica r to propose: a command already accepted, or its own. */
  function Carried(sl: AcceptorSlot, value: Command): Command {
    if sl.acceptedValue.Some? then sl.acceptedValue.value else value
  }

  /** Replica r hears both promises and sends its proposal. */
  lemma BothHeard(states: seq<State>, r: nat, value: Command, slot: nat, b: Ballot, p: PrepareReply)
      returns (more: seq<State>)
    requires Path(states) && Last(states).Shape() && Last(states).N() == 2 && r < 2 && p.promised
    requires Last(states).proposers[r].phase == Preparing(slot, b, value, map[], [])
    requires forall a: nat :: a < 2 ==> PrepareResp(a, slot, b, p) in Last(states).net
    ensures Path(more) && more[0] == states[0] && Last(more).Shape() && Last(more).N() == 2
    ensures Last(more).acceptors == Last(states).acceptors && Last(more).logs == Last(states).logs
    ensures Last(more).proposers == Last(states).proposers[r := Proposer(Last(states).proposers[r].round,
              Accepting(slot, b, value, [Some(p), Some(p)], map[], []))]
    ensures var v := if p.acceptedValue.Some? then p.acceptedValue.value else value;
      Last(more).net == Last(states).net + {AcceptReq(slot, b, v)}
  {
    TallyOfTwo(p);
    var p1 := Extend(states, HearPrepare(r, 0, p));
    assert [] + [Some(p)] == [Some(p)];
    var p2 := Extend(p1, HearPrepare(r, 1, p));
    assert [Some(p)] + [Some(p)] == [Some(p), Some(p)];
    assert Last(p2).proposers[r].phase.arrived1 == [Some(p), Some(p)];
    more := Extend(p2, FinishPrepare(r));
  }

  /** Both acceptors accept the proposal. */
  lemma BothAccept(states: seq<State>, slot: nat, b: Ballot, v: Command, sl: AcceptorSlot) returns (more: seq<State>)
    requires Path(states) && Pair(Last(states), slot, sl) && sl.promised == b
    requires AcceptReq(slot, b, v) in Last(states).net
    ensures Path(more) && more[0] == states[0] && Pair(Last(more), slot, AcceptorSlot(b, b, Some(v)))
    ensures Last(more).proposers == Last(states).proposers && Last(more).logs == Last(states).logs
    ensures forall a: nat, other: nat ::
      a < 2 && other != slot ==> Last(more).Slot(a, other) == Last(states).Slot(a, other)
    ensures forall a: nat :: a < 2 ==> AcceptResp(a, slot, b, AcceptReply(true, b)) in Last(more).net
  {
    var p1 := Extend(states, DeliverAccept(0, slot, b, v));
    more := Extend(p1, DeliverAccept(1, slot, b, v));
  }

  /** Replica r hears both votes. */
  lemma BothVotesHeard(states: seq<State>, r: nat, ph: Phase) returns (more: seq<State>)
    requires Path(states) && Last(states).Shape() && Last(states).N() == 2 && r < 2
    requires ph == Last(states).proposers[r].phase && ph.Accepting? && ph.votes == map[] && ph.arrived2 == []
    requires forall a: nat ::
      a < 2 ==> AcceptResp(a, ph.slot, ph.ballot, AcceptReply(true, ph.ballot)) in Last(states).net
    ensures Path(more) && more[0] == states[0] && Last(more).Shape() && Last(more).N() == 2
    ensures Last(more).acceptors == Last(states).acceptors && Last(more).logs == Last(states).logs
    ensures Last(more).proposers[1 - r] == Last(states).proposers[1 - r]
    ensures Last(more).proposers[r].round == Last(states).proposers[r].round && Winning(Last(more), r)
    ensures var ph' := Last(more).proposers[r].phase; ph'.slot == ph.slot && ph'.Proposed() == ph.Proposed()
  {
    var vote := AcceptReply(true, ph.ballot);
    VotesOfTwo(vote);
    var p1 := Extend(states, HearAccept(r, 0, vote));
    assert [] + [Some(vote)] == [Some(vote)];
    more := Extend(p1, HearAccept(r, 1, vote));
    assert [Some(vote)] + [Some(vote)] == [Some(vote), Some(vote)];
  }

  /** An undisturbed attempt, up to the point where replica r is about to commit. */
  lemma SoloWin(states: seq<State>, r: nat, value: Command, slot: nat, b: Ballot, sl: AcceptorSlot)
      returns (more: seq<State>)
    requires Path(states) && Pair(Last(states), slot, sl) && Enabled(Last(states), StartSlot(r, value))
    requires slot == AppliedCount(Last(states).logs[r])
    requires b == MakeBallot(Last(states).proposers[r].round + 1, r) > sl.promised
    ensures Path(more) && more[0] == states[0] && Pair(Last(more), slot, AcceptorSlot(b, b, Some(Carried(sl, value))))
    ensures Last(more).logs == Last(states).logs && Last(more).proposers[1 - r] == Last(states).proposers[1 - r]
    ensures forall a: nat, other: nat ::
      a < 2 && other != slot ==> Last(more).Slot(a, other) == Last(states).Slot(a, other)
    ensures Last(more).proposers[r].round == Last(states).proposers[r].round + 1 && Winning(Last(more), r)
    ensures var ph := Last(more).proposers[r].phase; ph.slot == slot && ph.Proposed() == Carried(sl, value)
  {
    var v := Carried(sl, value);
    var p1 := BothPromise(states, r, value, slot, b, sl);
    var p2 := BothHeard(p1, r, value, slot, b, OnPrepare(sl, b).1);
    var p3 := BothAccept(p2, slot, b, v, sl.(promised := b));
    TallyOfTwo(OnPrepare(sl, b).1);
    more := BothVotesHeard(p3, r, Last(p3).proposers[r].phase);
    forall a: nat, other: nat | a < 2 && other != slot
      ensures Last(more).Slot(a, other) == Last(states).Slot(a, other)
    {
      assert Last(p1).Slot(a, other) == Last(states).Slot(a, other);
      assert Last(p3).Slot(a, other) == Last(p2).Slot(a, other);
    }
  }

  lemma CountOfOne(v: Command)
    ensures AppliedCount(map[0 := v]) == 1
  {
    AppliedCountUnique(map[0 := v], 1);
  }

  /** Replica 0 is about to commit the join; replica 1 has completed that slot too. */
  lemma BothWin(join: Command, leave: Command) returns (states: seq<State>)
    ensures Path(states) && Init(states[0]) && Last(states).Shape() && Last(states).N() == 2
    ensures var s := Last(states);
      && Winning(s, 0) && s.proposers[0].phase.slot == 0 && s.proposers[0].phase.Proposed() == join
      && s.proposers[1] == Proposer(1, Idle) && s.logs == [map[], map[0 := join]]
      && s.Slot(0, 1) == FRESH && s.Slot(1, 1) == FRESH
  {
    var s := State([map[], map[]], [Proposer(0, Idle), Proposer(0, Idle)], [map[], map[]], {});
    BallotRoundTrip(1, 0);
    BallotRoundTrip(1, 1);
    AppliedCountUnique(map[], 0);
    var p1 := SoloWin([s], 0, join, 0, 256, FRESH);
    var p2 := SoloWin(p1, 1, leave, 0, 257, AcceptorSlot(256, 256, Some(join)));
    states := Extend(p2, FinishAccept(1));
    forall a: nat | a < 2
      ensures Last(states).Slot(a, 1) == FRESH
    {
      assert Last(p2).Slot(a, 1) == Last(p1).Slot(a, 1) == s.Slot(a, 1);
    }
  }

  /** Replica 1 gets the leave chosen in the next slot, and replica 0 learns of it. */
  lemma LeaveLearned(states: seq<State>, join: Command, leave: Command) returns (more: seq<State>)
    requires Path(states) && Pair(Last(states), 1, FRESH) && Winning(Last(states), 0)
    requires Last(states).proposers[1] == Proposer(1, Idle) && Last(states).logs == [map[], map[0 := join]]
    ensures Path(more) && more[0] == states[0] && Last(more).Shape() && Last(more).N() == 2
    ensures Last(more).proposers[0] == Last(states).proposers[0] && Last(more).logs[0] == map[1 := leave]
  {
    CountOfOne(join);
    BallotRoundTrip(2, 1);
    var p1 := SoloWin(states, 1, leave, 1, 513, FRESH);
    var p2 := Extend(p1, FinishAccept(1));
    more := Extend(p2, DeliverLearn(0, 1, leave));
  }

  lemma JoinThenLeave(node: NodeInfo)
    ensures Trace(map[1 := NodeLeave(node.id), 0 := NodeJoin(node)]) == [NodeJoin(node), NodeLeave(node.id)]
    ensures node.id !in Replay([NodeJoin(node), NodeLeave(node.id)]).members
  {
    var join, leave := NodeJoin(node), NodeLeave(node.id);
    AppliedCountUnique(map[1 := leave, 0 := join], 2);
    assert [join, leave][..1] == [join];
  }

  /** The internal error of Join can happen: its command is committed, and the node is not a member. */
  lemma JoinCommittedButRemoved(node: NodeInfo) returns (states: seq<State>, i: nat)
    ensures Run(states) && i + 1 < |states| && Winning(states[i], 0)
    ensures states[i].proposers[0].phase.Proposed() == NodeJoin(node) && states[i + 1] == Do(states[i], FinishAccept(0))
    ensures node.id !in Replay(Trace(states[i + 1].logs[0])).members
  {
    var join, leave := NodeJoin(node), NodeLeave(node.id);
    var p1 := BothWin(join, leave);
    var p2 := LeaveLearned(p1, join, leave);
    states := Extend(p2, FinishAccept(0));
    i := |states| - 2;
    assert Follows(states, i);
    JoinThenLeave(node);
    assert Last(states).logs[0] == map[1 := leave, 0 := join];
  }
}
