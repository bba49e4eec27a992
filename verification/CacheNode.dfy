/** The cache node's service over its store: the epoch check, Contains and PutBlocks. */
module CacheNode {
  import opened Options
  import opened BlockTypes
  import opened Recency
  import opened LruStore

  datatype Status = Served | FailedPrecondition | InvalidArgument

  /** The caller's ring is older than the newest this node has seen; no ring here, or epoch 0 there, passes. */
  predicate Behind(mine: Option<nat>, caller: nat) {
    mine.Some? && 0 < caller < mine.value
  }

  predicate AllSound(ids: seq<BlockId>) {
    forall i :: 0 <= i < |ids| ==> |ids[i]| == HASH_SIZE
  }

  /** The list after every one of the ids is used, in order. */
  ghost function TouchAll(l: seq<Item>, ids: seq<BlockId>): seq<Item> {
    if ids == [] then l else Touched(TouchAll(l, ids[..|ids| - 1]), ids[|ids| - 1])
  }

  lemma {:induction false} TouchAllKeeps(l: seq<Item>, ids: seq<BlockId>, id: BlockId)
    ensures Has(TouchAll(l, ids), id) <==> Has(l, id)
  {
    if ids == [] {
    } else {
      var n := |ids| - 1;
      TouchAllKeeps(l, ids[..n], id);
      TouchedKeeps(TouchAll(l, ids[..n]), ids[n], id);
    }
  }

  /** The list after every one of the blocks is put, in order. */
  ghost function PutAll(l: seq<Item>, blocks: seq<Block>, capacity: nat): seq<Item> {
    if blocks == [] then l
    else AfterPut(PutAll(l, blocks[..|blocks| - 1], capacity), Sized(blocks[|blocks| - 1]), capacity)
  }

  /** How many of the blocks are newly stored. */
  ghost function StoredIn(l: seq<Item>, blocks: seq<Block>, capacity: nat): nat {
    if blocks == [] then 0
    else
      var n := |blocks| - 1;
      var stored := Stores(PutAll(l, blocks[..n], capacity), Sized(blocks[n]), capacity);
      StoredIn(l, blocks[..n], capacity) + if stored then 1 else 0
  }

  // ----- Contains -----

  /** The first k ids are well formed and have been looked up, each counting as a use. */
  ghost predicate Looked(before: seq<Item>, after: seq<Item>, ids: seq<BlockId>, k: nat, present: seq<bool>) {
    && |present| == k <= |ids| && AllSound(ids[..k]) && after == TouchAll(before, ids[..k])
    && forall j :: 0 <= j < k ==> present[j] == Has(before, ids[j])
  }

  lemma LookedNext(before: seq<Item>, after: seq<Item>, ids: seq<BlockId>, k: nat, present: seq<bool>)
    requires Looked(before, after, ids, k, present) && k < |ids| && |ids[k]| == HASH_SIZE
    ensures Looked(before, Touched(after, ids[k]), ids, k + 1, present + [Has(after, ids[k])])
  {
    TouchAllKeeps(before, ids[..k], ids[k]);
    assert ids[..k + 1][..k] == ids[..k];
  }

  // ----- PutBlocks -----

  datatype PutRequest = PutRequest(epoch: nat, block: Option<Block>)

  /** What PutBlocks answers to one request: the epoch is checked first, then the block. */
  function Check(mine: Option<nat>, r: PutRequest): Status {
    if Behind(mine, r.epoch) then FailedPrecondition
    else if r.block.None? || |r.block.value.id| != HASH_SIZE || |r.block.value.parent| != HASH_SIZE then InvalidArgument
    else Served
  }

  /** The first requests, as many as there are blocks, were served with these blocks. */
  ghost predicate ServedWith(requests: seq<PutRequest>, mines: seq<Option<nat>>, blocks: seq<Block>) {
    && |blocks| <= |requests| == |mines|
    && forall i :: 0 <= i < |blocks| ==> Check(mines[i], requests[i]).Served? && requests[i].block == Some(blocks[i])
  }

  lemma ServedNext(requests: seq<PutRequest>, mines: seq<Option<nat>>, blocks: seq<Block>)
    requires ServedWith(requests, mines, blocks) && |blocks| < |requests|
    requires Check(mines[|blocks|], requests[|blocks|]).Served?
    ensures ServedWith(requests, mines, blocks + [requests[|blocks|].block.value])
  {
  }

  /** The blocks were put one after the other, `stored` of them newly. */
  ghost predicate PutSoFar(before: seq<Item>, after: seq<Item>, capacity: nat, blocks: seq<Block>, stored: nat,
                           existing: nat) {
    && after == PutAll(before, blocks, capacity)
    && stored == StoredIn(before, blocks, capacity) && stored + existing == |blocks|
  }

  lemma PutNext(before: seq<Item>, after: seq<Item>, capacity: nat, blocks: seq<Block>, stored: nat, existing: nat,
                b: Block)
    requires PutSoFar(before, after, capacity, blocks, stored, existing)
    ensures var added := Stores(after, Sized(b), capacity);
      PutSoFar(before, AfterPut(after, Sized(b), capacity), capacity, blocks + [b],
               stored + (if added then 1 else 0), existing + (if added then 0 else 1))
  {
    assert (blocks + [b])[..|blocks|] == blocks;
  }

  /** What PutBlocks comes to: these blocks were put, and the first request not served, if any, decided the status. */
  ghost predicate PutOutcome(before: seq<Item>, after: seq<Item>, capacity: nat, requests: seq<PutRequest>,
                             mines: seq<Option<nat>>, blocks: seq<Block>, status: Status, stored: nat, existing: nat) {
    var served, put := ServedWith(requests, mines, blocks), PutSoFar(before, after, capacity, blocks, stored, existing);
    && served && put
    && status == (if |blocks| == |requests| then Served else Check(mines[|blocks|], requests[|blocks|]))
    && (|blocks| < |requests| ==> !status.Served?)
  }

  /** The blocks as the gateway sends them on: all with the epoch of one ring. */
  function Stamped(blocks: seq<Block>, epoch: nat): seq<PutRequest> {
    seq(|blocks|, i requires 0 <= i < |blocks| => PutRequest(epoch, Some(blocks[i])))
  }

  /** Well-formed blocks stamped with an epoch that is never behind the node's are all put, and the call succeeds. */
  lemma StampedAllPut(before: seq<Item>, after: seq<Item>, capacity: nat, blocks: seq<Block>, epoch: nat,
                      mines: seq<Option<nat>>, put: seq<Block>, status: Status, stored: nat, existing: nat)
    requires PutOutcome(before, after, capacity, Stamped(blocks, epoch), mines, put, status, stored, existing)
    requires forall i :: 0 <= i < |mines| ==> !Behind(mines[i], epoch)
    requires forall b :: b in blocks ==> |b.id| == HASH_SIZE && |b.parent| == HASH_SIZE
    ensures status.Served? && after == PutAll(before, blocks, capacity)
  {
    assert |put| == |blocks|;
    forall i | 0 <= i < |put|
      ensures put[i] == blocks[i]
    {
      assert Stamped(blocks, epoch)[i].block == Some(put[i]);
    }
    assert put == blocks;
  }

  /** Stamped with an epoch behind the node's, none is put, and the caller is told to find a newer ring. */
  lemma StampedRefused(before: seq<Item>, after: seq<Item>, capacity: nat, blocks: seq<Block>, epoch: nat,
                       mines: seq<Option<nat>>, put: seq<Block>, status: Status, stored: nat, existing: nat)
    requires PutOutcome(before, after, capacity, Stamped(blocks, epoch), mines, put, status, stored, existing)
    requires blocks != [] && mines[0].Some? && 0 < epoch < mines[0].value
    ensures status.FailedPrecondition? && after == before && stored == existing == 0
  {
    assert put == [];
  }

  class Server {
    const store: LRU

    constructor (store: LRU)
      ensures this.store == store
    {
      this.store := store;
    }

    /**
     * One bit per id, true exactly for the blocks held before the call; every id looked at counts as a use. Stops at
     * the first malformed id, and looks at none when the caller is behind.
     */
    method Contains(mine: Option<nat>, caller: nat, ids: seq<BlockId>)
        returns (status: Status, present: seq<bool>, ghost k: nat)
      requires store.Valid()
      modifies store
      ensures store.Valid() && Looked(old(store.ll), store.ll, ids, k, present)
      ensures status ==
        if Behind(mine, caller) then FailedPrecondition else if k < |ids| then InvalidArgument else Served
      ensures if Behind(mine, caller) then k == 0 else k < |ids| ==> |ids[k]| != HASH_SIZE
      ensures status.FailedPrecondition? <==> mine.Some? && caller != 0 && caller < mine.value
      ensures status.Served? ==> |present| == |ids| && forall j :: 0 <= j < |ids| ==> |ids[j]| == 32
    {
      present, k := [], 0;
      if Behind(mine, caller) {
        return FailedPrecondition, present, k;
      }
      var i := 0;
      while i < |ids| && |ids[i]| == HASH_SIZE
        invariant i <= |ids| && store.Valid() && Looked(old(store.ll), store.ll, ids, i, present)
      {
        LookedNext(old(store.ll), store.ll, ids, i, present);
        var held := store.Contains(ids[i]);
        present := present + [held];
        i := i + 1;
      }
      k := i;
      status := if i < |ids| then InvalidArgument else Served;
    }

    /** Puts blocks until the first request that is refused; `mines[i]` is the node's epoch when request i arrives. */
    method PutBlocks(requests: seq<PutRequest>, mines: seq<Option<nat>>)
        returns (status: Status, stored: nat, existing: nat, ghost blocks: seq<Block>)
      requires store.Valid() && |mines| == |requests|
      modifies store
      ensures store.Valid()
      ensures PutOutcome(old(store.ll), store.ll, store.cap, requests, mines, blocks, status, stored, existing)
      ensures forall i :: 0 <= i < |blocks| ==>
        && (mines[i].None? || requests[i].epoch == 0 || mines[i].value <= requests[i].epoch)
        && |blocks[i].id| == |blocks[i].parent| == 32
      ensures |blocks| < |requests| ==>
        var mine, r := mines[|blocks|], requests[|blocks|];
        && (status.FailedPrecondition? <==> mine.Some? && r.epoch != 0 && r.epoch < mine.value)
        && (status.InvalidArgument? ==> r.block.Some? ==> |r.block.value.id| != 32 || |r.block.value.parent| != 32)
    {
      stored, existing, blocks := 0, 0, [];
      var i := 0;
      while i < |requests| && Check(mines[i], requests[i]).Served?
        invariant i == |blocks| <= |requests| && store.Valid() && ServedWith(requests, mines, blocks)
        invariant PutSoFar(old(store.ll), store.ll, store.cap, blocks, stored, existing)
      {
        var b := requests[i].block.value;
        ServedNext(requests, mines, blocks);
        PutNext(old(store.ll), store.ll, store.cap, blocks, stored, existing, b);
        var added := store.Put(b);
        if added {
          stored := stored + 1;
        } else {
          existing := existing + 1;
        }
        blocks := blocks + [b];
        i := i + 1;
      }
      status := if i < |requests| then Check(mines[i], requests[i]) else Served;
    }
  }
}
