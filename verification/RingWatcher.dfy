/** The fleet side of internal/ringwatch: which rings a watcher takes, and which connections it keeps. */
module RingWatcher {
  import opened Options
  import opened Directory
  import opened Cluster
  import opened ReplicatedLog

  /** Anything not newer than the held ring is a stale replay, except that epoch 0 is always taken. */
  predicate Takes(held: Option<View>, ring: View) {
    !(held.Some? && ring.epoch <= held.value.epoch && ring.epoch != 0)
  }

  function HeldAfter(held: Option<View>, ring: View): Option<View> {
    if Takes(held, ring) then Some(ring) else held
  }

  /** The ring a watcher holds after a whole history of received rings, from any replicas. */
  function Held(received: seq<View>): Option<View> {
    if received == [] then None
    else HeldAfter(Held(received[..|received| - 1]), received[|received| - 1])
  }

  function Epoch(held: Option<View>): nat {
    if held.None? then 0 else held.value.epoch
  }

  lemma {:induction false} HeldWasReceived(received: seq<View>)
    ensures received != [] ==> Held(received).Some? && Held(received).value in received
  {
    if received == [] {
    } else {
      HeldWasReceived(received[..|received| - 1]);
    }
  }

  lemma HeldNext(received: seq<View>, ring: View)
    ensures Held(received + [ring]) == HeldAfter(Held(received), ring)
  {
    assert (received + [ring])[..|received|] == received;
  }

  /** The held epoch falls exactly when a ring of epoch 0 arrives over a later one. */
  lemma EpochFallsOnlyToZero(received: seq<View>, ring: View)
    ensures Epoch(Held(received + [ring])) < Epoch(Held(received)) <==> ring.epoch == 0 && Epoch(Held(received)) > 0
  {
    HeldNext(received, ring);
  }

  /** So without an epoch-0 ring the held epoch only rises. */
  lemma {:induction false} EpochMonotoneWithoutZero(received: seq<View>, more: seq<View>)
    requires forall i :: 0 <= i < |more| ==> more[i].epoch > 0
    ensures Epoch(Held(received)) <= Epoch(Held(received + more))
    ensures forall i :: 0 <= i < |more| ==> more[i].epoch <= Epoch(Held(received + more))
  {
    if more == [] {
      assert received + more == received;
    } else {
      var k := |more| - 1;
      var before := received + more[..k];
      EpochMonotoneWithoutZero(received, more[..k]);
      assert Held(received + more) == HeldAfter(Held(before), more[k]) by {
        assert received + more == before + [more[k]];
        HeldNext(before, more[k]);
      }
      assert forall i :: 0 <= i < k ==> more[..k][i] == more[i];
    }
  }

  /** Ring k is the last that was news: epoch 0, or newer than everything since the last epoch 0 before it. */
  ghost predicate LastNews(received: seq<View>, k: nat) {
    && k < |received|
    && (forall j :: k < j < |received| ==> 0 < received[j].epoch <= received[k].epoch)
    && (forall j: nat :: j < k && 0 < received[k].epoch <= received[j].epoch ==> ZeroBetween(received, j, k))
  }

  ghost predicate ZeroBetween(received: seq<View>, j: nat, k: nat) {
    exists z :: j < z < k < |received| && received[z].epoch == 0
  }

  /** Over a whole history a watcher holds the last ring that was news ... */
  lemma {:induction false} HeldIsLastNews(received: seq<View>) returns (k: nat)
    requires received != []
    ensures LastNews(received, k) && Held(received) == Some(received[k])
  {
    var n := |received| - 1;
    var init := received[..n];
    if Takes(Held(init), received[n]) {
      k := n;
      forall j: nat | j < n && 0 < received[n].epoch <= received[j].epoch
        ensures ZeroBetween(received, j, n)
      {
        TakenAfterZero(received, j);
      }
    } else {
      k := HeldIsLastNews(init);
      forall j: nat | j < k && 0 < received[k].epoch <= received[j].epoch
        ensures ZeroBetween(received, j, k)
      {
        assert ZeroBetween(init, j, k);
      }
    }
  }

  lemma TakenAfterZero(received: seq<View>, j: nat)
    requires j < |received| - 1 && Takes(Held(received[..|received| - 1]), received[|received| - 1])
    requires 0 < received[|received| - 1].epoch <= received[j].epoch
    ensures ZeroBetween(received, j, |received| - 1)
  {
    var n := |received| - 1;
    var upto, more := received[..j + 1], received[j + 1..n];
    assert upto[..j] == received[..j];
    assert received[..n] == upto + more;
    if forall i :: 0 <= i < |more| ==> more[i].epoch > 0 {
      EpochMonotoneWithoutZero(upto, more);
    } else {
      var i :| 0 <= i < |more| && more[i].epoch == 0;
      assert received[j + 1 + i].epoch == 0;
    }
  }

  /** ... and there is only one such ring. */
  lemma LastNewsOnce(received: seq<View>, k: nat, k': nat)
    requires LastNews(received, k) && LastNews(received, k')
    ensures k == k'
  {
    assert k < k' ==> ZeroBetween(received, k, k');
    assert k' < k ==> ZeroBetween(received, k', k);
  }

  /** A lagging replica's empty ring does set a watcher back. */
  lemma EpochCanFall(node: NodeInfo)
    ensures var ring := Replay([NodeJoin(node)]);
      Epoch(Held([ring])) == 1 && Epoch(Held([ring, EMPTY_VIEW])) == 0
  {
    var ring := Replay([NodeJoin(node)]);
    assert [NodeJoin(node)][..0] == [];
    assert [ring][..0] == [];
    assert [ring, EMPTY_VIEW][..1] == [ring];
  }

  /**
   * In every run there is one sequence of commands such that whatever any watcher holds is what a prefix of it yields.
   */
  lemma HeldFromCommonSequence(states: seq<State>) returns (log: seq<Command>)
    requires Run(states)
    ensures AllApplyPrefixesOf(states, log)
    ensures forall received: seq<View> :: received != [] && AllPublished(states, received) ==>
      Held(received).Some? && FromLog(log, Held(received).value)
  {
    CommonSequence(states);
    log :| AllApplyPrefixesOf(states, log);
    forall received: seq<View> | received != [] && AllPublished(states, received)
      ensures Held(received).Some? && FromLog(log, Held(received).value)
    {
      HeldWasReceived(received);
      PublishedFromSequence(states, log, Held(received).value);
    }
  }

  ghost predicate AllPublished(states: seq<State>, received: seq<View>) {
    forall ring :: ring in received ==> Published(states, ring)
  }

  /** Two watchers that hold the same epoch hold the same ring, whatever replicas fed them and when. */
  lemma WatchersAgreeOnEpoch(states: seq<State>, received1: seq<View>, received2: seq<View>)
    requires Run(states) && AllPublished(states, received1) && AllPublished(states, received2)
    requires received1 != [] && received2 != []
    ensures Epoch(Held(received1)) == Epoch(Held(received2)) ==> Held(received1) == Held(received2)
  {
    HeldWasReceived(received1);
    HeldWasReceived(received2);
    var r1, r2 := Held(received1).value, Held(received2).value;
    EpochDeterminesRing(states, r1, r2);
  }

  /** The connections after a ring is taken: one per reachable member, an existing one kept as it was. */
  function Connections(conns: map<NodeId, string>, members: map<NodeId, NodeInfo>, dialable: set<string>)
      : map<NodeId, string> {
    map id | id in members && (id in conns || members[id].addr in dialable)
      :: if id in conns then conns[id] else members[id].addr
  }

  /** The connections after a series of rings taken, each with the addresses that could be dialled then. */
  function ConnsAfter(rings: seq<View>, dials: seq<set<string>>): map<NodeId, string>
    requires |rings| == |dials|
  {
    if rings == [] then map[]
    else
      var n := |rings| - 1;
      Connections(ConnsAfter(rings[..n], dials[..n]), rings[n].members, dials[n])
  }

  /** A member is connected since the latest ring it could be dialled at, at the address it had there. */
  lemma {:induction false} DialledSince(rings: seq<View>, dials: seq<set<string>>, id: NodeId) returns (j: nat)
    requires |rings| == |dials| && id in ConnsAfter(rings, dials)
    ensures j < |rings| && forall k :: j <= k < |rings| ==> id in rings[k].members
    ensures ConnsAfter(rings, dials)[id] == rings[j].members[id].addr && rings[j].members[id].addr in dials[j]
    ensures id !in ConnsAfter(rings[..j], dials[..j])
  {
    var n := |rings| - 1;
    if id in ConnsAfter(rings[..n], dials[..n]) {
      j := DialledSince(rings[..n], dials[..n], id);
      assert rings[..n][..j] == rings[..j] && dials[..n][..j] == dials[..j];
      assert forall k :: j <= k < n ==> rings[..n][k] == rings[k];
    } else {
      j := n;
    }
  }

  /** The connections are at the ring's addresses exactly when every kept one was dialled at its member's address. */
  lemma ConnectionsMatch(conns: map<NodeId, string>, members: map<NodeId, NodeInfo>, dialable: set<string>)
    ensures var after := Connections(conns, members, dialable);
      (forall id :: id in after ==> after[id] == members[id].addr)
      <==> (forall id :: id in conns && id in members ==> conns[id] == members[id].addr)
  {
    var after := Connections(conns, members, dialable);
    if forall id :: id in after ==> after[id] == members[id].addr {
      forall id | id in conns && id in members
        ensures conns[id] == members[id].addr
      {
        assert id in after;
      }
    }
  }

  /** A real mismatch: a node that joins again at another address keeps its connection to the first one. */
  lemma MovedNodeKeepsConnection(id: NodeId, a: NodeInfo, b: NodeInfo)
    requires a.id == b.id == id && a.addr != b.addr
    ensures var rings := [Replay([NodeJoin(a)]), Replay([NodeJoin(a), NodeJoin(b)])];
      && Takes(Held([rings[0]]), rings[1]) && id in rings[1].members && rings[1].members[id].addr == b.addr
      && forall dials: seq<set<string>> :: |dials| == 2 && a.addr in dials[0] ==>
           id in ConnsAfter(rings, dials) && ConnsAfter(rings, dials)[id] == a.addr
  {
    var first, second := Replay([NodeJoin(a)]), Replay([NodeJoin(a), NodeJoin(b)]);
    assert [NodeJoin(a)][..0] == [] && [NodeJoin(a), NodeJoin(b)][..1] == [NodeJoin(a)];
    assert [first][..0] == [] && [first, second][..1] == [first];
    forall dials: seq<set<string>> | |dials| == 2 && a.addr in dials[0]
      ensures id in ConnsAfter([first, second], dials) && ConnsAfter([first, second], dials)[id] == a.addr
    {
      assert dials[..1] == [dials[0]] && [dials[0]][..0] == [];
      assert id in ConnsAfter([first], [dials[0]]) && ConnsAfter([first], [dials[0]])[id] == a.addr;
    }
  }

  class Watcher {
    const dialNodes: bool
    var ring: Option<View>
    /** Node id to the address its connection was dialled at; clients follow conns one to one. */
    var conns: map<NodeId, string>

    constructor (dialNodes: bool)
      ensures this.dialNodes == dialNodes && ring == None && conns == map[]
    {
      this.dialNodes := dialNodes;
      ring, conns := None, map[];
    }

    /** `dialable` says which addresses a dial succeeds for. */
    method Apply(r: View, dialable: set<string>) returns (taken: bool)
      modifies this
      ensures taken == Takes(old(ring), r)
      ensures ring == HeldAfter(old(ring), r)
      ensures conns == if taken && dialNodes then Connections(old(conns), r.members, dialable) else old(conns)
      ensures taken <==> old(ring).None? || r.epoch > old(ring).value.epoch || r.epoch == 0
      ensures ring == if taken then Some(r) else old(ring)
      ensures taken && dialNodes ==> forall id :: id in conns <==>
        id in r.members && (id in old(conns) || r.members[id].addr in dialable)
      ensures taken && dialNodes ==> forall id :: id in conns ==>
        conns[id] == if id in old(conns) then old(conns)[id] else r.members[id].addr
    {
      if ring.Some? && r.epoch <= ring.value.epoch && r.epoch != 0 {
        return false;
      }
      ring := Some(r);
      if dialNodes {
        DialMissing(r.members, dialable);
        DropGone(r.members);
      }
      return true;
    }

    method DialMissing(members: map<NodeId, NodeInfo>, dialable: set<string>)
      modifies this`conns
      ensures conns == old(conns) +
        (map id | id in members && id !in old(conns) && members[id].addr in dialable :: members[id].addr)
    {
      var todo := members.Keys;
      while todo != {}
        invariant todo <= members.Keys
        invariant conns == old(conns) +
          (map id | id in members && id !in todo && id !in old(conns) && members[id].addr in dialable
             :: members[id].addr)
        decreases todo
      {
        var id :| id in todo;
        if id !in conns && members[id].addr in dialable {
          conns := conns[id := members[id].addr];
        }
        todo := todo - {id};
      }
    }

    method DropGone(members: map<NodeId, NodeInfo>)
      modifies this`conns
      ensures conns == map id | id in old(conns) && id in members :: old(conns)[id]
    {
      var todo := conns.Keys;
      while todo != {}
        invariant todo <= old(conns).Keys
        invariant conns == map id | id in old(conns) && (id in todo || id in members) :: old(conns)[id]
        decreases todo
      {
        var id :| id in todo;
        if id !in members {
          conns := conns - {id};
        }
        todo := todo - {id};
      }
    }
  }
}
