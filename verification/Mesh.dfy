/** What the layers give together: agreement on the membership becomes agreement on where every block lives. */
module Mesh {
  import opened Options
  import opened BlockTypes
  import opened Directory
  import opened HashRing
  import opened LearnerLog
  import opened RingWatcher
  import opened Gateway
  import opened Fleet
  import opened Recency
  import opened LruStore
  import opened CacheNode
  import opened Gaps
  import Warmers
  import Prefetch
  import Cluster
  import WatchStream
  import ReplicatedLog

  function AddrsOf(v: View): map<HashRing.NodeId, string> {
    map id | id in v.members :: v.members[id].addr
  }

  /** r is the hash ring a process builds from the ring it holds. */
  ghost predicate BuiltFrom(r: Ring, held: Option<View>, l: Layout) {
    held.Some? && r.epoch == held.value.epoch && r.addrs == AddrsOf(held.value) && Built(r, l)
  }

  /** What the send loops of a replica send, at any moment of any interleaving, are rings it could publish. */
  lemma SentArePublished(states: seq<Cluster.State>, i: nat, r: nat, stream: seq<WatchStream.State>, j: nat, w: nat)
    requires Cluster.Run(states) && i < |states| && r < |states[i].logs|
    requires WatchStream.Run(stream) && j < |stream| && w < |stream[j].watchers|
    requires stream[j].log <= Trace(states[i].logs[r])
    ensures AllPublished(states, stream[j].watchers[w].sent)
  {
    WatchStream.SentEpochsIncrease(stream, j, w);
    var log, sent := stream[j].log, stream[j].watchers[w].sent;
    forall ring | ring in sent
      ensures ReplicatedLog.Published(states, ring)
    {
      var n :| 0 <= n < |sent| && sent[n] == ring;
      assert FromLog(log, sent[n]);
      var k: nat :| k <= |log| && ring == Replay(log[..k]);
      assert log[..k] == Trace(states[i].logs[r])[..k];
      assert ReplicatedLog.PublishedAt(states, ring, i, r, k);
    }
  }

  /**
   * Any two gateways whose rings carry the same epoch send every block to the same owners at the same addresses:
   * in every run of the consensus protocol, whichever replicas published the rings and however they arrived.
   */
  lemma SameEpochSameOwners(states: seq<Cluster.State>, received1: seq<View>, received2: seq<View>,
                            r1: Ring, r2: Ring, l: Layout, id: BlockId, n: int)
    requires Cluster.Run(states) && l.perNode > 0 && |id| >= 8
    requires AllPublished(states, received1) && AllPublished(states, received2)
    requires BuiltFrom(r1, Held(received1), l) && BuiltFrom(r2, Held(received2), l) && r1.epoch == r2.epoch
    ensures OwnersOf(r1, id, n) == OwnersOf(r2, id, n) && r1.addrs == r2.addrs
    ensures forall x :: x in OwnersOf(r1, id, n) ==>
      x in Held(received1).value.members && r1.addrs[x] == r2.addrs[x] == Held(received1).value.members[x].addr
  {
    assert received1 != [] && received2 != [];
    WatchersAgreeOnEpoch(states, received1, received2);
    SameMembersSameOwners(r1, r2, l, KeyOf(id));
    var count: nat := if n < 0 then 0 else n;
    OwnersCount(r1, l, id, count, count);
  }

  function IdsIn(list: seq<Item>): set<BlockId> {
    set i | 0 <= i < |list| :: list[i].block.id
  }

  // ----- misses before hits -----

  function IdsOf(blocks: seq<Block>): seq<BlockId> {
    seq(|blocks|, i requires 0 <= i < |blocks| => blocks[i].id)
  }

  lemma HasIsIn(list: seq<Item>, id: BlockId)
    ensures id in IdsIn(list) <==> Has(list, id)
  {
    if id in IdsIn(list) {
      var i: nat :| i < |list| && list[i].block.id == id;
      assert At(list, i, id);
    }
    if i: nat :| At(list, i, id) {
      assert list[i].block.id in IdsIn(list);
    }
  }

  /** Nodes that all hold the same list: a lookup finds exactly what the list holds. */
  lemma FoundIsHeld(q: Query, l: Layout, rf: nat, list: seq<Item>, i: nat)
    requires q.Ok(l) && |q.ring.addrs| > 0 && rf > 0 && i < |q.chain|
    requires forall rep, x :: q.net(rep, x) == Holds(IdsIn(list))
    ensures Found(q, l, i, rf) <==> Has(list, q.chain[i])
  {
    HasIsIn(list, q.chain[i]);
    OwnersCount(q.ring, l, q.chain[i], 1, 1);
    if Has(list, q.chain[i]) {
      assert q.Says(l, i, 0);
    }
  }

  /** The lookup misses some block and finds a later one. */
  ghost predicate MissBeforeHit(q: Query, l: Layout, rf: nat)
    requires q.Ok(l)
  {
    exists i: nat, j: nat :: i < j < |q.chain| && !Found(q, l, i, rf) && Found(q, l, j, rf)
  }

  lemma MissIsGap(q: Query, l: Layout, rf: nat, blocks: seq<Block>, list: seq<Item>)
    requires q.Ok(l) && q.chain == IdsOf(blocks)
    requires forall i: nat :: i < |blocks| ==> (Found(q, l, i, rf) <==> Has(list, blocks[i].id))
    ensures MissBeforeHit(q, l, rf) <==> !GapFree(blocks, list)
  {
    if !GapFree(blocks, list) {
      var i, j :| 0 <= i < j < |blocks| && Has(list, blocks[j].id) && !Has(list, blocks[i].id);
      assert !Found(q, l, i, rf) && Found(q, l, j, rf);
    }
  }

  /**
   * Exactly when a miss makes the rest of the chain a miss, for chains of any length whose blocks every node was sent:
   * when the blocks that fit a store at all come first and fit together.
   */
  lemma GapIff(q: Query, l: Layout, rf: nat, blocks: seq<Block>, capacity: nat)
    requires q.Ok(l) && |q.ring.addrs| > 0 && rf > 0 && q.chain == IdsOf(blocks) && DistinctBlocks(blocks)
    requires forall rep, x :: q.net(rep, x) == Holds(IdsIn(PutAll([], blocks, capacity)))
    ensures !MissBeforeHit(q, l, rf) <==> FitsFirst(blocks, capacity) && WeightFrom(blocks, 0, capacity) <= capacity
  {
    var list := PutAll([], blocks, capacity);
    forall i: nat | i < |blocks|
      ensures Found(q, l, i, rf) <==> Has(list, blocks[i].id)
    {
      FoundIsHeld(q, l, rf, list, i);
    }
    MissIsGap(q, l, rf, blocks, list);
    GapFreeIff(blocks, capacity);
  }

  /** A concrete gap: two blocks that each fit a store but not together. */
  lemma EvictionOpensGap(q: Query, l: Layout, rf: nat, blocks: seq<Block>, capacity: nat)
    requires q.Ok(l) && |q.ring.addrs| > 0 && rf > 0 && q.chain == IdsOf(blocks) && |blocks| == 2
    requires forall rep, x :: q.net(rep, x) == Holds(IdsIn(PutAll([], blocks, capacity)))
    requires blocks[0].id != blocks[1].id && BlockSize(blocks[0]) <= capacity
    requires BlockSize(blocks[1]) <= capacity < BlockSize(blocks[0]) + BlockSize(blocks[1])
    ensures !Found(q, l, 0, rf) && Found(q, l, 1, rf)
  {
    GapIff(q, l, rf, blocks, capacity);
    TwoTooMany(blocks, capacity);
    var i: nat, j: nat :| i < j < |q.chain| && !Found(q, l, i, rf) && Found(q, l, j, rf);
  }

  // ----- what a write leaves to be found -----

  lemma {:induction false} ShareIsGiven(blocks: seq<Block>, rings: seq<Option<Ring>>, l: Layout, rf: nat,
                                        x: HashRing.NodeId, b: Block)
    requires |blocks| <= |rings| && AllBuilt(rings, l) && b in Share(blocks, rings, l, rf, x)
    ensures b in blocks && |b.id| == HASH_SIZE
  {
    var k := |blocks| - 1;
    assert blocks == blocks[..k] + [blocks[k]];
    if b in Share(blocks[..k], rings, l, rf, x) {
      ShareIsGiven(blocks[..k], rings, l, rf, x, b);
    }
  }

  /** A block that goes to x stands in its share right behind what went there before. */
  lemma {:induction false} ShareAt(blocks: seq<Block>, rings: seq<Option<Ring>>, l: Layout, rf: nat, x: HashRing.NodeId,
                                   i: nat)
    requires |blocks| <= |rings| && AllBuilt(rings, l) && i < |blocks| && Owns(rings[i], l, blocks[i].id, rf, x)
    ensures Share(blocks[..i], rings, l, rf, x) + [blocks[i]] <= Share(blocks, rings, l, rf, x)
    decreases |blocks|
  {
    var k := |blocks| - 1;
    if i == k {
    } else {
      ShareAt(blocks[..k], rings, l, rf, x, i);
      assert blocks[..k][..i] == blocks[..i];
    }
  }

  lemma {:induction false} ShareDistinct(blocks: seq<Block>, rings: seq<Option<Ring>>, l: Layout, rf: nat,
                                         x: HashRing.NodeId)
    requires |blocks| <= |rings| && AllBuilt(rings, l) && DistinctBlocks(blocks)
    ensures DistinctBlocks(Share(blocks, rings, l, rf, x))
  {
    if blocks == [] {
    } else {
      var k := |blocks| - 1;
      var before := Share(blocks[..k], rings, l, rf, x);
      ShareDistinct(blocks[..k], rings, l, rf, x);
      forall i | 0 <= i < |before|
        ensures before[i].id != blocks[k].id
      {
        ShareIsGiven(blocks[..k], rings, l, rf, x, before[i]);
      }
    }
  }

  /** Block i fits the store of x, together with all that goes to x after it. */
  ghost predicate Keeps(blocks: seq<Block>, rings: seq<Option<Ring>>, l: Layout, rf: nat, x: HashRing.NodeId,
                        capacity: nat, i: nat)
    requires |blocks| <= |rings| && AllBuilt(rings, l) && i < |blocks|
  {
    && Fits(Sized(blocks[i]), capacity)
    && WeightFrom(Share(blocks, rings, l, rf, x), |Share(blocks[..i], rings, l, rf, x)|, capacity) <= capacity
  }

  lemma OwnerHoldsIff(blocks: seq<Block>, rings: seq<Option<Ring>>, l: Layout, rf: nat, x: HashRing.NodeId,
                      capacity: nat, i: nat)
    requires |blocks| <= |rings| && AllBuilt(rings, l) && i < |blocks| && DistinctBlocks(blocks)
    requires Owns(rings[i], l, blocks[i].id, rf, x)
    ensures Has(PutAll([], Share(blocks, rings, l, rf, x), capacity), blocks[i].id)
      <==> Keeps(blocks, rings, l, rf, x, capacity, i)
  {
    ShareAt(blocks, rings, l, rf, x, i);
    ShareDistinct(blocks, rings, l, rf, x);
    HeldIff(Share(blocks, rings, l, rf, x), capacity, |Share(blocks[..i], rings, l, rf, x)|);
  }

  /** Every member was empty before the write, took its share, and answers with what it then holds. */
  ghost predicate AnswersShare(q: Query, rf: nat, blocks: seq<Block>, rings: seq<Option<Ring>>, l: Layout,
                               capacities: HashRing.NodeId -> nat)
    requires |blocks| <= |rings| && AllBuilt(rings, l)
  {
    forall rep: nat, x :: rep < rf && x in q.ring.addrs ==>
      q.net(rep, x) == Holds(IdsIn(PutAll([], Share(blocks, rings, l, rf, x), capacities(x))))
  }

  /**
   * Exactly what a match finds after a write to empty stores of any capacities: block i is found if and only if one of
   * its first rf owners has room for it together with all that was sent there after it.
   */
  lemma WrittenFoundIff(q: Query, l: Layout, rf: nat, blocks: seq<Block>, rings: seq<Option<Ring>>,
                        capacities: HashRing.NodeId -> nat, i: nat)
    requires q.Ok(l) && |blocks| <= |rings| && forall k :: 0 <= k < |rings| ==> rings[k] == Some(q.ring)
    requires q.chain == IdsOf(blocks) && DistinctBlocks(blocks) && i < |blocks|
    requires AnswersShare(q, rf, blocks, rings, l, capacities)
    ensures Found(q, l, i, rf) <==>
      exists x :: x in OwnersOf(q.ring, q.chain[i], rf) && Keeps(blocks, rings, l, rf, x, capacities(x), i)
  {
    var owners := OwnersOf(q.ring, q.chain[i], rf);
    OwnersCount(q.ring, l, q.chain[i], rf, rf);
    forall rep: nat | rep < rf
      ensures q.Says(l, i, rep)
        <==> rep < |owners| && Keeps(blocks, rings, l, rf, owners[rep], capacities(owners[rep]), i)
    {
      OwnersCount(q.ring, l, q.chain[i], rep + 1, rep + 1);
      if rep < |owners| {
        var x := owners[rep];
        assert q.OwnerAt(l, i, rep) == Some(x);
        OwnerHoldsIff(blocks, rings, l, rf, x, capacities(x), i);
        HasIsIn(PutAll([], Share(blocks, rings, l, rf, x), capacities(x)), q.chain[i]);
      }
    }
    if x :| x in owners && Keeps(blocks, rings, l, rf, x, capacities(x), i) {
      var rep: nat :| rep < |owners| && owners[rep] == x;
      assert q.Says(l, i, rep);
    }
    if Found(q, l, i, rf) {
      var rep: nat :| rep < rf && q.Says(l, i, rep);
      assert owners[rep] in owners;
    }
  }

  /** The commands due for every block of a chain when the ring changes from r to r' are delivered in time. */
  ghost predicate AllWarmed(r: Ring, r': Ring, rf: nat, chain: seq<BlockId>, stats: map<BlockId, Prefetch.Stat>,
                            deadlineMs: int, run: seq<Delivery>)
    requires Sorted(r.vnodes) && Sorted(r'.vnodes)
  {
    forall i :: 0 <= i < |chain| ==>
      && |chain[i]| == HASH_SIZE && chain[i] in stats
      && DueDelivered(r, r', rf, chain[i], stats[chain[i]], deadlineMs, run)
  }

  /** Every owner of the block on the ring has a token for each command it gets. */
  ghost predicate OwnersCanPay(r: Ring, rf: nat, id: BlockId, fleet: Sites, run: seq<Delivery>)
    requires Sorted(r.vnodes) && |id| >= 8
  {
    forall x :: x in OwnersOf(r, id, rf) && x in fleet ==> CanPay(fleet[x], x, run, 0)
  }

  /** The node answers, in every round, from at least what its store holds. */
  ghost predicate AnswersFrom(q: Query, rf: nat, x: HashRing.NodeId, fleet: Sites) {
    forall rep: nat :: rep < rf ==>
      q.net(rep, x).Holds? && forall id :: x in fleet && Has(fleet[x].list, id) ==> id in q.net(rep, x).blocks
  }

  /** The node is in order and has room for what it holds together with the blocks it is sent. */
  ghost predicate RoomFor(s: Warmers.Site, blocks: seq<Block>, size: BlockId -> nat) {
    && Within(s, Ids(s.list) + IdsOf(blocks), size) && Weight(Ids(s.list) + IdsOf(blocks), size) <= s.cap
    && forall b :: b in blocks ==> BlockSize(b) == size(b.id)
  }

  lemma SentIsHeld(s: Warmers.Site, blocks: seq<Block>, size: BlockId -> nat)
    requires RoomFor(s, blocks, size)
    ensures forall b :: b in blocks ==> Has(PutAll(s.list, blocks, s.cap), b.id)
  {
    forall b | b in blocks
      ensures b.id in Ids(s.list) + IdsOf(blocks)
    {
      var i :| 0 <= i < |blocks| && blocks[i] == b;
      assert IdsOf(blocks)[i] == b.id;
    }
    ReceivedWithin(s, blocks, Ids(s.list) + IdsOf(blocks), size);
  }

  lemma {:induction false} OnlyMembersAreSent(blocks: seq<Block>, rings: seq<Option<Ring>>, r: Ring, l: Layout, rf: nat,
                                              x: HashRing.NodeId)
    requires |blocks| <= |rings| && AllBuilt(rings, l) && forall k :: 0 <= k < |rings| ==> rings[k] == Some(r)
    requires Built(r, l) && x !in r.addrs
    ensures Share(blocks, rings, l, rf, x) == []
  {
    if blocks == [] {
    } else {
      var k := |blocks| - 1;
      OnlyMembersAreSent(blocks[..k], rings, r, l, rf, x);
      if |blocks[k].id| == HASH_SIZE {
        OwnersCount(r, l, blocks[k].id, rf, rf);
      }
    }
  }

  /** The node served a PutBlocks stream of these blocks with its epoch never ahead of theirs. */
  ghost predicate Took(s: Warmers.Site, s': Warmers.Site, blocks: seq<Block>, epoch: nat) {
    exists mines, put, status, stored, existing ::
      && PutOutcome(s.list, s'.list, s.cap, Stamped(blocks, epoch), mines, put, status, stored, existing)
      && forall i :: 0 <= i < |mines| ==> !Behind(mines[i], epoch)
  }

  /** A node with room that took well-formed blocks holds them all. */
  lemma TakenIsHeld(s: Warmers.Site, s': Warmers.Site, blocks: seq<Block>, epoch: nat, size: BlockId -> nat)
    requires Took(s, s', blocks, epoch) && RoomFor(s, blocks, size)
    requires forall b :: b in blocks ==> |b.id| == HASH_SIZE && |b.parent| == HASH_SIZE
    ensures forall b :: b in blocks ==> Has(s'.list, b.id)
  {
    var mines, put, status, stored, existing :|
      && PutOutcome(s.list, s'.list, s.cap, Stamped(blocks, epoch), mines, put, status, stored, existing)
      && forall i :: 0 <= i < |mines| ==> !Behind(mines[i], epoch);
    StampedAllPut(s.list, s'.list, s.cap, blocks, epoch, mines, put, status, stored, existing);
    SentIsHeld(s, blocks, size);
  }

  /**
   * From the write through the stores to the match: send blocks by one ring to nodes with room for them, and a match
   * on that ring finds every chain of these blocks in full while fewer than rf nodes reject or lose their stream or
   * fail, and the others answer from their stores.
   */
  lemma {:induction false} WrittenChainMatches(
      q: Query, l: Layout, rf: nat, blocks: seq<Block>, rings: seq<Option<Ring>>, epoch: nat, fleet: Sites,
      fleet': Sites, size: BlockId -> nat, bad: set<HashRing.NodeId>, resp: Response)
    requires q.Ok(l) && |bad| < rf <= |q.ring.addrs| && Matched(q, l, rf, resp)
    requires |blocks| <= |rings| && forall k :: 0 <= k < |rings| ==> rings[k] == Some(q.ring)
    requires AllWritten(q.chain, blocks) && forall b :: b in blocks ==> |b.parent| == HASH_SIZE
    requires forall x :: x in q.ring.addrs && x !in bad ==>
      && x in fleet && RoomFor(fleet[x], Share(blocks, rings, l, rf, x), size)
      && x in fleet' && Took(fleet[x], fleet'[x], Share(blocks, rings, l, rf, x), epoch)
    requires forall x :: x !in bad ==> AnswersFrom(q, rf, x, fleet')
    ensures resp.depth == |q.chain|
  {
    forall rep: nat, x | rep < rf && x !in bad
      ensures q.net(rep, x).Holds? && forall b :: b in Share(blocks, rings, l, rf, x) ==> b.id in q.net(rep, x).blocks
    {
      assert AnswersFrom(q, rf, x, fleet');
      if x in q.ring.addrs {
        var share := Share(blocks, rings, l, rf, x);
        forall b | b in share
          ensures |b.id| == HASH_SIZE && |b.parent| == HASH_SIZE
        {
          ShareIsGiven(blocks, rings, l, rf, x, b);
        }
        TakenIsHeld(fleet[x], fleet'[x], share, epoch, size);
      } else {
        OnlyMembersAreSent(blocks, rings, q.ring, l, rf, x);
      }
    }
    PutThenMatch(q, l, rf, blocks, rings, bad, resp);
  }

  /**
   * Through a ring change: if every block of a chain survives at old owners, and the warming planned for it is
   * delivered in time to stores with room and buckets with tokens for it, in any order, among other commands and with
   * any repeats, then matching on the new ring still finds the whole chain while fewer than rf nodes fail and the
   * others answer from their stores.
   */
  lemma {:induction false} WarmedChainStillMatches(
      q: Query, r: Ring, l: Layout, rf: nat, stats: map<BlockId, Prefetch.Stat>, deadlineMs: int,
      fleets: seq<Sites>, at: string -> HashRing.NodeId, run: seq<Delivery>, size: BlockId -> nat,
      bad: set<HashRing.NodeId>, resp: Response)
    requires q.Ok(l) && Built(r, l) && |bad| < rf <= |q.ring.addrs| && Matched(q, l, rf, resp)
    requires Campaign(fleets, at, run) && AllHaveRoom(fleets[0], run, size) && Listens(q.ring, fleets[0], at)
    requires AllWarmed(r, q.ring, rf, q.chain, stats, deadlineMs, run)
    requires forall i :: 0 <= i < |q.chain| ==> Survives(r, q.ring, rf, q.chain[i], fleets[0])
    requires forall i :: 0 <= i < |q.chain| ==> OwnersCanPay(q.ring, rf, q.chain[i], fleets[0], run)
    requires forall x :: x !in bad ==> AnswersFrom(q, rf, x, fleets[|run|])
    ensures resp.depth == |q.chain|
  {
    forall i: nat, rep: nat |
      i < |q.chain| && rep < rf && q.OwnerAt(l, i, rep).Some? && q.OwnerAt(l, i, rep).value !in bad
      ensures q.Says(l, i, rep)
    {
      var id, x := q.chain[i], q.OwnerAt(l, i, rep).value;
      assert Survives(r, q.ring, rf, id, fleets[0]) && OwnersCanPay(q.ring, rf, id, fleets[0], run);
      WarmingRestores(r, q.ring, l, l, rf, id, stats[id], deadlineMs, fleets, at, run, size);
      assert OwnersOf(q.ring, id, rf)[rep] == x;
      assert AnswersFrom(q, rf, x, fleets[|run|]);
    }
    ToleratesFailures(q, l, rf, bad, resp);
  }
}
