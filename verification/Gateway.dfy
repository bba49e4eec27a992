/**
 * The gateway's prefix matching and write routing. The cache nodes answer as they like: in each round a node
 * may have no client, fail, reject the ring epoch, or answer from whatever it holds at that moment.
 */
module Gateway {
  import opened Options
  import opened BlockTypes
  import opened Sequences
  import opened HashRing

  datatype Answer = NoClient | Failed(wrongEpoch: bool) | Holds(blocks: set<BlockId>)

  datatype BlockRef = BlockRef(id: BlockId, addr: string)

  datatype Response = Response(depth: nat, refs: seq<BlockRef>, epoch: nat)

  /** One chain of block ids looked up on one ring; `net(rep, x)` is what node x answers in round rep. */
  datatype Query = Query(ring: Ring, chain: seq<BlockId>, net: (nat, NodeId) -> Answer) {
    ghost predicate Ok(l: Layout) {
      && Built(ring, l) && l.perNode > 0
      && (forall i :: 0 <= i < |chain| ==> |chain[i]| == HASH_SIZE)
    }

    /** The owner asked about block i in round rep. */
    ghost function OwnerAt(l: Layout, i: nat, rep: nat): Option<NodeId>
      requires Ok(l)
    {
      if i >= |chain| || rep >= |OwnerOrder(ring, KeyOf(chain[i]))| then None
      else Some(OwnerOrder(ring, KeyOf(chain[i]))[rep])
    }

    /** That owner is reachable and answers that it has the block. */
    ghost predicate Says(l: Layout, i: nat, rep: nat)
      requires Ok(l)
    {
      var o := OwnerAt(l, i, rep);
      o.Some? && net(rep, o.value).Holds? && chain[i] in net(rep, o.value).blocks
    }

    /** The owner asked rejects the ring epoch. */
    ghost predicate Stale(l: Layout, i: nat, rep: nat)
      requires Ok(l)
    {
      OwnerAt(l, i, rep).Some? && net(rep, OwnerAt(l, i, rep).value) == Failed(true)
    }

    ghost predicate Unroutable(l: Layout, i: nat, rep: nat)
      requires Ok(l)
    {
      OwnerAt(l, i, rep).Some? && net(rep, OwnerAt(l, i, rep).value).NoClient?
    }
  }

  ghost predicate InChain(q: Query, indices: seq<nat>) {
    forall k :: 0 <= k < |indices| ==> indices[k] < |q.chain|
  }

  lemma NoRepeatAppend(s: seq<nat>, t: seq<nat>)
    requires NoRepeat(s) && NoRepeat(t) && forall i :: i in t ==> i !in s
    ensures NoRepeat(s + t)
  {
    NoRepeatIff(s);
    NoRepeatIff(t);
    NoRepeatIff(s + t);
    forall i, j | 0 <= i < j < |s + t|
      ensures (s + t)[i] != (s + t)[j]
    {
      assert i < |s| <= j ==> t[j - |s|] in t;
    }
  }

  // ----- one round -----

  /** The indices handled so far, grouped by the owner to ask. */
  ghost predicate Batched(q: Query, l: Layout, rep: nat, handled: seq<nat>, batches: map<NodeId, seq<nat>>)
    requires q.Ok(l)
  {
    && (forall x :: x in batches ==> batches[x] != [] && NoRepeat(batches[x]) && !q.net(rep, x).NoClient?)
    && (forall x, i :: x in batches && i in batches[x] ==> i in handled && q.OwnerAt(l, i, rep) == Some(x))
    && (forall i :: i in handled && q.OwnerAt(l, i, rep).Some? && !q.Unroutable(l, i, rep) ==>
          q.OwnerAt(l, i, rep).value in batches && i in batches[q.OwnerAt(l, i, rep).value])
  }

  /** What has no client goes straight to the next round. */
  ghost predicate SetAside(q: Query, l: Layout, rep: nat, handled: seq<nat>, unroutable: seq<nat>)
    requires q.Ok(l)
  {
    NoRepeat(unroutable) && forall i :: i in unroutable <==> i in handled && q.Unroutable(l, i, rep)
  }

  /** The owner in round rep, as the code finds it: the last of the first rep + 1 owners. */
  method FindOwner(q: Query, ghost l: Layout, i: nat, rep: nat) returns (o: Option<NodeId>)
    requires q.Ok(l) && i < |q.chain|
    ensures o == q.OwnerAt(l, i, rep)
  {
    var owners := Owners(q.ring, q.chain[i], rep + 1, l);
    o := if |owners| <= rep then None else Some(owners[rep]);
  }

  /** The batch of x with one more index, begun if there is none yet. */
  function Extended(batches: map<NodeId, seq<nat>>, x: NodeId, i: nat): seq<nat> {
    (if x in batches then batches[x] else []) + [i]
  }

  lemma ExtendedOnce(q: Query, l: Layout, rep: nat, handled: seq<nat>, i: nat, batches: map<NodeId, seq<nat>>,
                     x: NodeId)
    requires q.Ok(l) && i !in handled && Batched(q, l, rep, handled, batches)
    ensures NoRepeat(Extended(batches, x, i))
    ensures forall k :: k in Extended(batches, x, i) ==> k == i || (x in batches && k in batches[x])
  {
    var before: seq<nat> := if x in batches then batches[x] else [];
    NoRepeatNext(before, i);
  }

  lemma BatchedNext(q: Query, l: Layout, rep: nat, handled: seq<nat>, i: nat, batches: map<NodeId, seq<nat>>, x: NodeId)
    requires q.Ok(l) && i !in handled && Batched(q, l, rep, handled, batches)
    requires q.OwnerAt(l, i, rep) == Some(x) && !q.net(rep, x).NoClient?
    ensures Batched(q, l, rep, handled + [i], batches[x := Extended(batches, x, i)])
  {
    ExtendedOnce(q, l, rep, handled, i, batches, x);
  }

  lemma SetAsideNext(q: Query, l: Layout, rep: nat, handled: seq<nat>, i: nat, unroutable: seq<nat>)
    requires q.Ok(l) && i !in handled && SetAside(q, l, rep, handled, unroutable)
    ensures SetAside(q, l, rep, handled + [i], if q.Unroutable(l, i, rep) then unroutable + [i] else unroutable)
  {
    NoRepeatNext(unroutable, i);
  }

  lemma SkippedNext(q: Query, l: Layout, rep: nat, handled: seq<nat>, i: nat, batches: map<NodeId, seq<nat>>)
    requires q.Ok(l) && Batched(q, l, rep, handled, batches)
    requires q.OwnerAt(l, i, rep).None? || q.Unroutable(l, i, rep)
    ensures Batched(q, l, rep, handled + [i], batches)
  {
  }

  /** Puts the index into its owner's batch, which is begun if there is none yet. */
  method Enqueue(batches0: map<NodeId, seq<nat>>, x: NodeId, i: nat) returns (batches: map<NodeId, seq<nat>>)
    ensures batches == batches0[x := Extended(batches0, x, i)]
  {
    batches := batches0;
    if x !in batches {
      batches := batches[x := []];
    }
    batches := batches[x := batches[x] + [i]];
  }

  method AddToBatch(q: Query, ghost l: Layout, rep: nat, ghost handled: seq<nat>, i: nat,
                    batches0: map<NodeId, seq<nat>>, unroutable0: seq<nat>)
      returns (batches: map<NodeId, seq<nat>>, unroutable: seq<nat>)
    requires q.Ok(l) && i < |q.chain| && i !in handled
    requires Batched(q, l, rep, handled, batches0) && SetAside(q, l, rep, handled, unroutable0)
    ensures Batched(q, l, rep, handled + [i], batches) && SetAside(q, l, rep, handled + [i], unroutable)
  {
    batches, unroutable := batches0, unroutable0;
    SetAsideNext(q, l, rep, handled, i, unroutable);
    var o := FindOwner(q, l, i, rep);
    if o.None? {
      SkippedNext(q, l, rep, handled, i, batches);
    } else if o.value !in batches && q.net(rep, o.value).NoClient? {
      SkippedNext(q, l, rep, handled, i, batches);
      unroutable := unroutable + [i];
    } else {
      BatchedNext(q, l, rep, handled, i, batches, o.value);
      batches := Enqueue(batches, o.value, i);
    }
  }

  method MakeBatches(q: Query, ghost l: Layout, indices: seq<nat>, rep: nat)
      returns (batches: map<NodeId, seq<nat>>, unroutable: seq<nat>)
    requires q.Ok(l) && NoRepeat(indices) && InChain(q, indices)
    ensures Batched(q, l, rep, indices, batches) && SetAside(q, l, rep, indices, unroutable)
  {
    batches, unroutable := map[], [];
    NoRepeatIff(indices);
    for k := 0 to |indices|
      invariant Batched(q, l, rep, indices[..k], batches) && SetAside(q, l, rep, indices[..k], unroutable)
    {
      batches, unroutable := AddToBatch(q, l, rep, indices[..k], indices[k], batches, unroutable);
      assert indices[..k + 1] == indices[..k] + [indices[k]];
    }
    assert indices[..|indices|] == indices;
  }

  predicate Bit(bits: seq<bool>, j: nat) {
    j < |bits| && bits[j]
  }

  /** What arrives of a node's reply: a bit per id asked for, of which any trailing false ones may be missing. */
  method Receive(blocks: set<BlockId>, ids: seq<BlockId>) returns (present: seq<bool>)
    ensures forall j: nat :: j < |ids| ==> (Bit(present, j) <==> ids[j] in blocks)
  {
    present := [];
    for j := 0 to |ids|
      invariant |present| == j && forall k :: 0 <= k < j ==> present[k] == (ids[k] in blocks)
    {
      present := present + [ids[j] in blocks];
    }
    var length: nat := |present|;
    while length > 0 && !present[length - 1]
      invariant length <= |present| && forall j :: length <= j < |present| ==> !present[j]
    {
      if * {
        break;
      }
      length := length - 1;
    }
    present := present[..length];
  }

  /** The indices of a batch whose bit is set. */
  ghost function Yes(bits: seq<bool>, batch: seq<nat>): set<nat> {
    set j: nat | j < |batch| && Bit(bits, j) :: batch[j]
  }

  ghost predicate Marked(p0: seq<bool>, h0: seq<NodeId>, p: seq<bool>, h: seq<NodeId>, yes: set<nat>, x: NodeId) {
    && |p| == |p0| && |h| == |h0| && |p| == |h|
    && forall i: nat :: i < |p| ==> p[i] == (p0[i] || i in yes) && h[i] == if i in yes then x else h0[i]
  }

  ghost predicate Retried(retry0: seq<nat>, batch: seq<nat>, yes: set<nat>, retry: seq<nat>) {
    NoRepeat(retry) && forall i :: i in retry <==> i in retry0 || (i in batch && i !in yes)
  }

  lemma YesNext(bits: seq<bool>, batch: seq<nat>, j: nat)
    requires j < |batch|
    ensures Yes(bits, batch[..j + 1]) == Yes(bits, batch[..j]) + if Bit(bits, j) then {batch[j]} else {}
    ensures forall i :: i in Yes(bits, batch[..j]) ==> i in batch[..j]
  {
    var more, less := Yes(bits, batch[..j + 1]), Yes(bits, batch[..j]);
    forall i | i in less
      ensures i in more
    {
      var k: nat :| k < j && Bit(bits, k) && batch[..j][k] == i;
      assert batch[..j + 1][k] == i;
    }
    if Bit(bits, j) {
      assert batch[..j + 1][j] in more;
    }
  }

  /** One more index, that no earlier one equals: it is retried unless its bit is set. */
  lemma RetriedNext(retry0: seq<nat>, done: seq<nat>, yes: set<nat>, retry: seq<nat>, idx: nat, bit: bool)
    requires Retried(retry0, done, yes, retry) && idx !in done && idx !in retry0 && idx !in yes
    ensures Retried(retry0, done + [idx], if bit then yes + {idx} else yes, if bit then retry else retry + [idx])
  {
    NoRepeatNext(retry, idx);
    assert forall i :: i in done + [idx] <==> i in done || i == idx;
    assert forall i :: i in retry + [idx] <==> i in retry || i == idx;
  }

  /** Files the bits of one answer. */
  method FileBits(bits: seq<bool>, x: NodeId, batch: seq<nat>, retry0: seq<nat>,
                  present: array<bool>, holders: array<NodeId>) returns (retry: seq<nat>)
    requires present.Length == holders.Length && forall j :: 0 <= j < |batch| ==> batch[j] < present.Length
    requires NoRepeat(batch) && NoRepeat(retry0) && forall i :: i in batch ==> i !in retry0
    modifies present, holders
    ensures Marked(old(present[..]), old(holders[..]), present[..], holders[..], Yes(bits, batch), x)
    ensures Retried(retry0, batch, Yes(bits, batch), retry)
  {
    retry := retry0;
    for j := 0 to |batch|
      invariant Marked(old(present[..]), old(holders[..]), present[..], holders[..], Yes(bits, batch[..j]), x)
      invariant Retried(retry0, batch[..j], Yes(bits, batch[..j]), retry)
    {
      var idx := batch[j];
      assert batch[..j + 1] == batch[..j] + [idx];
      NotBefore(batch, j);
      YesNext(bits, batch, j);
      RetriedNext(retry0, batch[..j], Yes(bits, batch[..j]), retry, idx, Bit(bits, j));
      if j < |bits| && bits[j] {
        present[idx] := true;
        holders[idx] := x;
      } else {
        retry := retry + [idx];
      }
    }
    assert batch[..|batch|] == batch;
  }

  /** Files the answer to one batch, under the lock. */
  method Complete(q: Query, ghost l: Layout, rep: nat, x: NodeId, batch: seq<nat>, retry0: seq<nat>,
                  present: array<bool>, holders: array<NodeId>) returns (retry: seq<nat>, wrongEpoch: bool)
    requires q.Ok(l) && present.Length == holders.Length == |q.chain|
    requires NoRepeat(batch) && NoRepeat(retry0) && forall i :: i in batch ==> i !in retry0
    requires InChain(q, batch) && forall i :: i in batch ==> q.OwnerAt(l, i, rep) == Some(x)
    requires !q.net(rep, x).NoClient?
    modifies present, holders
    ensures forall i: nat :: i < |q.chain| ==>
      && present[i] == (old(present[i]) || (i in batch && q.Says(l, i, rep)))
      && holders[i] == if i in batch && q.Says(l, i, rep) then x else old(holders[i])
    ensures NoRepeat(retry) && forall i :: i in retry <==> i in retry0 || (i in batch && !q.Says(l, i, rep))
    ensures wrongEpoch <==> q.net(rep, x) == Failed(true)
  {
    retry := retry0;
    match q.net(rep, x)
    case Failed(we) =>
      NoRepeatAppend(retry0, batch);
      retry, wrongEpoch := retry + batch, we;
    case Holds(blocks) =>
      var ids := seq(|batch|, j requires 0 <= j < |batch| => q.chain[batch[j]]);
      var bits := Receive(blocks, ids);
      retry := FileBits(bits, x, batch, retry0, present, holders);
      wrongEpoch := false;
      SaysIsYes(q, l, rep, x, batch, bits, ids, blocks);
      assert forall i: nat :: i < |q.chain| ==> present[..][i] == present[i] && holders[..][i] == holders[i];
  }

  lemma SaysIsYes(q: Query, l: Layout, rep: nat, x: NodeId, batch: seq<nat>, bits: seq<bool>, ids: seq<BlockId>,
                  blocks: set<BlockId>)
    requires q.Ok(l) && InChain(q, batch) && forall i :: i in batch ==> q.OwnerAt(l, i, rep) == Some(x)
    requires q.net(rep, x) == Holds(blocks) && |ids| == |batch|
    requires forall j: nat :: j < |batch| ==> ids[j] == q.chain[batch[j]]
    requires forall j: nat :: j < |ids| ==> (Bit(bits, j) <==> ids[j] in blocks)
    ensures forall i :: i in Yes(bits, batch) <==> i in batch && q.Says(l, i, rep)
  {
    forall i | i in batch
      ensures i in Yes(bits, batch) <==> q.Says(l, i, rep)
    {
      var j: nat :| j < |batch| && batch[j] == i;
      assert Bit(bits, j) <==> ids[j] in blocks;
      if i in Yes(bits, batch) {
        var k: nat :| k < |batch| && Bit(bits, k) && batch[k] == i;
        assert ids[k] in blocks;
      }
    }
  }

  /** Index i is among those asked about, and its owner's answer has been filed. */
  ghost predicate Filed(q: Query, l: Layout, rep: nat, indices: seq<nat>, todo: set<NodeId>, i: nat)
    requires q.Ok(l)
  {
    i in indices && q.OwnerAt(l, i, rep).Some? && q.OwnerAt(l, i, rep).value !in todo
  }

  lemma BatchFacts(q: Query, l: Layout, rep: nat, indices: seq<nat>, batches: map<NodeId, seq<nat>>,
                   todo: set<NodeId>, x: NodeId)
    requires q.Ok(l) && InChain(q, indices) && Batched(q, l, rep, indices, batches) && x in todo && todo <= batches.Keys
    ensures InChain(q, batches[x]) && forall i :: i in batches[x] ==> q.OwnerAt(l, i, rep) == Some(x)
    ensures forall i: nat ::
      Filed(q, l, rep, indices, todo - {x}, i) <==> Filed(q, l, rep, indices, todo, i) || i in batches[x]
  {
    forall k | 0 <= k < |batches[x]|
      ensures batches[x][k] < |q.chain|
    {
      assert batches[x][k] in indices;
    }
  }

  lemma StaleAnswers(q: Query, l: Layout, rep: nat, indices: seq<nat>, batches: map<NodeId, seq<nat>>)
    requires q.Ok(l) && Batched(q, l, rep, indices, batches)
    ensures (exists x :: x in batches && q.net(rep, x) == Failed(true))
      <==> exists i :: i in indices && q.Stale(l, i, rep)
  {
    if x :| x in batches && q.net(rep, x) == Failed(true) {
      assert batches[x][0] in batches[x];
      assert batches[x][0] in indices && q.Stale(l, batches[x][0], rep);
    }
    if i :| i in indices && q.Stale(l, i, rep) {
      assert q.OwnerAt(l, i, rep).value in batches;
    }
  }

  /**
   * One round, whatever order the answers come in: every index asked about is found at its owner, goes on to
   * the next round, or has run out of owners.
   */
  method ProbeReplica(q: Query, ghost l: Layout, indices: seq<nat>, rep: nat, present: array<bool>,
                      holders: array<NodeId>)
      returns (retry: seq<nat>, wrongEpoch: bool)
    requires q.Ok(l) && present.Length == holders.Length == |q.chain|
    requires NoRepeat(indices) && InChain(q, indices)
    modifies present, holders
    ensures forall i: nat :: i < |q.chain| ==>
      && present[i] == (old(present[i]) || (i in indices && q.Says(l, i, rep)))
      && holders[i] == if i in indices && q.Says(l, i, rep) then q.OwnerAt(l, i, rep).value else old(holders[i])
    ensures NoRepeat(retry)
    ensures forall i :: i in retry <==> i in indices && q.OwnerAt(l, i, rep).Some? && !q.Says(l, i, rep)
    ensures wrongEpoch <==> exists i :: i in indices && q.Stale(l, i, rep)
  {
    var batches;
    batches, retry := MakeBatches(q, l, indices, rep);
    wrongEpoch := false;
    var todo := batches.Keys;
    while todo != {}
      invariant todo <= batches.Keys
      invariant forall i: nat :: i < |q.chain| ==>
        && present[i] == (old(present[i]) || (Filed(q, l, rep, indices, todo, i) && q.Says(l, i, rep)))
        && holders[i] ==
           if Filed(q, l, rep, indices, todo, i) && q.Says(l, i, rep) then q.OwnerAt(l, i, rep).value
           else old(holders[i])
      invariant NoRepeat(retry) && forall i :: i in retry <==> Filed(q, l, rep, indices, todo, i) && !q.Says(l, i, rep)
      invariant wrongEpoch <==> exists x :: x in batches && x !in todo && q.net(rep, x) == Failed(true)
    {
      var x :| x in todo;
      BatchFacts(q, l, rep, indices, batches, todo, x);
      var we;
      retry, we := Complete(q, l, rep, x, batches[x], retry, present, holders);
      wrongEpoch := wrongEpoch || we;
      todo := todo - {x};
    }
    StaleAnswers(q, l, rep, indices, batches);
  }

  // ----- the whole match -----

  /** Some owner among the first `rounds` says it has block i. */
  ghost predicate Found(q: Query, l: Layout, i: nat, rounds: nat)
    requires q.Ok(l)
  {
    exists rep: nat :: rep < rounds && q.Says(l, i, rep)
  }

  /** Every one of the first `rounds` owners exists and does not say so. */
  ghost predicate Open(q: Query, l: Layout, i: nat, rounds: nat)
    requires q.Ok(l)
  {
    forall rep: nat :: rep < rounds ==> q.OwnerAt(l, i, rep).Some? && !q.Says(l, i, rep)
  }

  /** The first owner that says it has block i. */
  ghost predicate FirstHolder(q: Query, l: Layout, i: nat, x: NodeId, rounds: nat)
    requires q.Ok(l)
  {
    exists rep: nat :: rep < rounds && q.Says(l, i, rep) && Open(q, l, i, rep) && q.OwnerAt(l, i, rep) == Some(x)
  }

  /** Once out of owners, or once found, later rounds add nothing. */
  lemma NothingLater(q: Query, l: Layout, i: nat, rounds: nat, more: nat)
    requires q.Ok(l) && rounds <= more && !Open(q, l, i, rounds)
    ensures Found(q, l, i, more) <==> Found(q, l, i, rounds)
  {
    var rep: nat :| rep < rounds && (q.OwnerAt(l, i, rep).None? || q.Says(l, i, rep));
    if late: nat :| late < more && q.Says(l, i, late) {
      if late >= rounds {
        assert q.Says(l, i, rep);
      }
    }
  }

  /** State of the fan-out after `rounds` rounds: answers so far, and what is still to be asked. */
  ghost predicate Progress(q: Query, l: Layout, rounds: nat, present: seq<bool>, holders: seq<NodeId>, probe: seq<nat>)
    requires q.Ok(l)
  {
    && |present| == |holders| == |q.chain| && NoRepeat(probe) && InChain(q, probe)
    && (forall i: nat :: i < |q.chain| ==> (present[i] <==> Found(q, l, i, rounds)))
    && (forall i: nat :: i < |q.chain| && present[i] ==> FirstHolder(q, l, i, holders[i], rounds))
    && (forall i: nat :: i < |q.chain| ==> (i in probe <==> Open(q, l, i, rounds)))
  }

  lemma NextRound(q: Query, l: Layout, rounds: nat, i: nat)
    requires q.Ok(l)
    ensures Found(q, l, i, rounds + 1) <==> Found(q, l, i, rounds) || q.Says(l, i, rounds)
    ensures Open(q, l, i, rounds + 1)
      <==> Open(q, l, i, rounds) && q.OwnerAt(l, i, rounds).Some? && !q.Says(l, i, rounds)
    ensures Found(q, l, i, rounds) ==> !Open(q, l, i, rounds)
    ensures !Open(q, l, i, rounds) && q.Says(l, i, rounds) ==> Found(q, l, i, rounds)
  {
    if !Open(q, l, i, rounds) {
      NothingLater(q, l, i, rounds, rounds + 1);
    }
  }

  lemma RoundKeepsProgress(q: Query, l: Layout, rounds: nat, p: seq<bool>, h: seq<NodeId>, probe: seq<nat>,
                           p': seq<bool>, h': seq<NodeId>, retry: seq<nat>)
    requires q.Ok(l) && Progress(q, l, rounds, p, h, probe) && |p'| == |h'| == |q.chain|
    requires forall i: nat :: i < |q.chain| ==>
      && p'[i] == (p[i] || (i in probe && q.Says(l, i, rounds)))
      && h'[i] == if i in probe && q.Says(l, i, rounds) then q.OwnerAt(l, i, rounds).value else h[i]
    requires NoRepeat(retry)
    requires forall i :: i in retry <==> i in probe && q.OwnerAt(l, i, rounds).Some? && !q.Says(l, i, rounds)
    ensures Progress(q, l, rounds + 1, p', h', retry)
  {
    forall k | 0 <= k < |retry|
      ensures retry[k] < |q.chain|
    {
      assert retry[k] in retry;
      var j :| 0 <= j < |probe| && probe[j] == retry[k];
    }
    forall i: nat | i < |q.chain|
      ensures p'[i] <==> Found(q, l, i, rounds + 1)
      ensures i in retry <==> Open(q, l, i, rounds + 1)
      ensures p'[i] ==> FirstHolder(q, l, i, h'[i], rounds + 1)
    {
      NextRound(q, l, rounds, i);
    }
  }

  /** Some node asked in the first `rounds` rounds rejected the ring epoch. */
  ghost predicate Rejected(q: Query, l: Layout, rounds: nat)
    requires q.Ok(l)
  {
    exists rep: nat, i: nat :: rep < rounds && Open(q, l, i, rep) && q.Stale(l, i, rep)
  }

  /** Told by the owners: one of them, asked because those before it did not have the block, rejects the epoch. */
  lemma RejectedIff(q: Query, l: Layout, rounds: nat)
    requires q.Ok(l)
    ensures Rejected(q, l, rounds) <==> exists i: nat, rep: nat ::
      i < |q.chain| && AskedStale(q, OwnersOf(q.ring, q.chain[i], rounds), q.chain[i], rep)
  {
    forall i: nat, rep: nat | i < |q.chain| && rep < rounds
      ensures AskedStale(q, OwnersOf(q.ring, q.chain[i], rounds), q.chain[i], rep)
        <==> Open(q, l, i, rep) && q.Stale(l, i, rep)
    {
      var owners := OwnersOf(q.ring, q.chain[i], rounds);
      assert forall k: nat :: k <= rep ==> (k < |owners| <==> q.OwnerAt(l, i, k).Some?);
      assert forall k: nat :: k <= rep && k < |owners| ==> owners[k] == q.OwnerAt(l, i, k).value;
    }
    if rep: nat, i: nat :| rep < rounds && Open(q, l, i, rep) && q.Stale(l, i, rep) {
      assert AskedStale(q, OwnersOf(q.ring, q.chain[i], rounds), q.chain[i], rep);
    }
    if i: nat, rep: nat :| i < |q.chain| && AskedStale(q, OwnersOf(q.ring, q.chain[i], rounds), q.chain[i], rep) {
      assert Open(q, l, i, rep) && q.Stale(l, i, rep);
    }
  }

  ghost predicate AskedStale(q: Query, owners: seq<NodeId>, id: BlockId, rep: nat) {
    && rep < |owners| && q.net(rep, owners[rep]) == Failed(true)
    && forall k: nat :: k < rep ==> !(q.net(k, owners[k]).Holds? && id in q.net(k, owners[k]).blocks)
  }

  /** Of these owners, asked in order, number rep is the first that has the block. */
  ghost predicate FirstToHave(q: Query, owners: seq<NodeId>, id: BlockId, rep: nat) {
    && rep < |owners| && q.net(rep, owners[rep]).Holds? && id in q.net(rep, owners[rep]).blocks
    && forall k: nat :: k < rep ==> !(q.net(k, owners[k]).Holds? && id in q.net(k, owners[k]).blocks)
  }

  lemma OwnerAtIs(q: Query, l: Layout, i: nat, rounds: nat, rep: nat)
    requires q.Ok(l) && i < |q.chain| && rep < rounds
    ensures var owners := OwnersOf(q.ring, q.chain[i], rounds);
      q.OwnerAt(l, i, rep) == if rep < |owners| then Some(owners[rep]) else None
  {
  }

  lemma SaysIs(q: Query, l: Layout, i: nat, rounds: nat, rep: nat)
    requires q.Ok(l) && i < |q.chain| && rep < rounds
    ensures var owners := OwnersOf(q.ring, q.chain[i], rounds);
      q.Says(l, i, rep) <==>
      rep < |owners| && q.net(rep, owners[rep]).Holds? && q.chain[i] in q.net(rep, owners[rep]).blocks
  {
    OwnerAtIs(q, l, i, rounds, rep);
  }

  /** A block is found iff one of its owners has it, */
  lemma FoundIff(q: Query, l: Layout, i: nat, rf: nat)
    requires q.Ok(l) && i < |q.chain|
    ensures var owners := OwnersOf(q.ring, q.chain[i], rf);
      Found(q, l, i, rf) <==> exists rep: nat ::
        rep < |owners| && q.net(rep, owners[rep]).Holds? && q.chain[i] in q.net(rep, owners[rep]).blocks
  {
    forall rep: nat | rep < rf
      ensures var owners := OwnersOf(q.ring, q.chain[i], rf);
        q.Says(l, i, rep) <==>
        rep < |owners| && q.net(rep, owners[rep]).Holds? && q.chain[i] in q.net(rep, owners[rep]).blocks
    {
      SaysIs(q, l, i, rf, rep);
    }
  }

  /** and the address told for it is that of the first such owner. */
  lemma LocatedMeans(q: Query, l: Layout, rf: nat, i: nat, addr: string) returns (rep: nat)
    requires q.Ok(l) && i < |q.chain| && Located(q, l, rf, i, addr)
    ensures var owners := OwnersOf(q.ring, q.chain[i], rf);
      && FirstToHave(q, owners, q.chain[i], rep) && owners[rep] in q.ring.addrs && addr == q.ring.addrs[owners[rep]]
  {
    var x :| x in q.ring.addrs && FirstHolder(q, l, i, x, rf) && addr == q.ring.addrs[x];
    rep :| rep < rf && q.Says(l, i, rep) && Open(q, l, i, rep) && q.OwnerAt(l, i, rep) == Some(x);
    SaysIs(q, l, i, rf, rep);
    OwnerAtIs(q, l, i, rf, rep);
    forall k: nat | k < rep
      ensures var owners := OwnersOf(q.ring, q.chain[i], rf);
        !(q.net(k, owners[k]).Holds? && q.chain[i] in q.net(k, owners[k]).blocks)
    {
      SaysIs(q, l, i, rf, k);
      assert !q.Says(l, i, k);
    }
  }

  lemma RejectedNext(q: Query, l: Layout, rounds: nat, probe: seq<nat>)
    requires q.Ok(l) && forall i: nat :: i < |q.chain| ==> (i in probe <==> Open(q, l, i, rounds))
    requires InChain(q, probe)
    ensures Rejected(q, l, rounds + 1) <==> Rejected(q, l, rounds) || exists i :: i in probe && q.Stale(l, i, rounds)
  {
    if rep: nat, i: nat :| rep < rounds + 1 && Open(q, l, i, rep) && q.Stale(l, i, rep) {
      assert rep == rounds ==> i in probe;
    }
    if i :| i in probe && q.Stale(l, i, rounds) {
      assert Open(q, l, i, rounds);
    }
  }

  lemma NothingOpen(q: Query, l: Layout, rounds: nat, more: nat)
    requires q.Ok(l) && rounds <= more && forall i: nat :: i < |q.chain| ==> !Open(q, l, i, rounds)
    ensures Rejected(q, l, more) <==> Rejected(q, l, rounds)
  {
    if rep: nat, i: nat :| rep < more && Open(q, l, i, rep) && q.Stale(l, i, rep) {
      assert rep >= rounds ==> Open(q, l, i, rounds);
    }
  }

  /** The longest all-found prefix, each block with the address of the first owner that has it. */
  ghost predicate Matched(q: Query, l: Layout, rf: nat, resp: Response)
    requires q.Ok(l)
  {
    && resp.epoch == q.ring.epoch
    && resp.depth == |resp.refs| <= |q.chain|
    && (forall i: nat :: i < resp.depth ==> Found(q, l, i, rf))
    && (resp.depth < |q.chain| ==> !Found(q, l, resp.depth, rf))
    && (forall i: nat :: i < resp.depth ==> resp.refs[i].id == q.chain[i] && Located(q, l, rf, i, resp.refs[i].addr))
  }

  ghost predicate Located(q: Query, l: Layout, rf: nat, i: nat, addr: string)
    requires q.Ok(l)
  {
    exists x :: x in q.ring.addrs && FirstHolder(q, l, i, x, rf) && addr == q.ring.addrs[x]
  }

  lemma FanOutDone(q: Query, l: Layout, rounds: nat, rf: nat, present: seq<bool>, holders: seq<NodeId>, probe: seq<nat>)
    requires q.Ok(l) && Progress(q, l, rounds, present, holders, probe) && rounds <= rf && (rounds == rf || probe == [])
    ensures forall i: nat :: i < |q.chain| ==> (present[i] <==> Found(q, l, i, rf))
    ensures forall i: nat :: i < |q.chain| && present[i] ==> FirstHolder(q, l, i, holders[i], rf)
    ensures Rejected(q, l, rf) <==> Rejected(q, l, rounds)
  {
    if rounds < rf {
      NothingOpen(q, l, rounds, rf);
      forall i: nat | i < |q.chain|
        ensures Found(q, l, i, rf) <==> Found(q, l, i, rounds)
      {
        NothingLater(q, l, i, rounds, rf);
      }
    }
  }

  method Round(q: Query, ghost l: Layout, replica: nat, probe: seq<nat>, present: array<bool>, holders: array<NodeId>)
      returns (retry: seq<nat>, wrongEpoch: bool)
    requires q.Ok(l) && Progress(q, l, replica, present[..], holders[..], probe)
    modifies present, holders
    ensures Progress(q, l, replica + 1, present[..], holders[..], retry)
    ensures Rejected(q, l, replica + 1) <==> Rejected(q, l, replica) || wrongEpoch
  {
    ghost var p, h := present[..], holders[..];
    RejectedNext(q, l, replica, probe);
    retry, wrongEpoch := ProbeReplica(q, l, probe, replica, present, holders);
    RoundKeepsProgress(q, l, replica, p, h, probe, present[..], holders[..], retry);
  }

  lemma NothingAsked(q: Query, l: Layout, present: seq<bool>, holders: seq<NodeId>, probe: seq<nat>)
    requires q.Ok(l) && |present| == |holders| == |probe| == |q.chain|
    requires forall i :: 0 <= i < |q.chain| ==> !present[i] && probe[i] == i
    ensures Progress(q, l, 0, present, holders, probe) && !Rejected(q, l, 0)
  {
    NoRepeatIff(probe);
    forall i: nat | i < |q.chain|
      ensures i in probe
    {
      assert probe[i] == i;
    }
  }

  /** The fan-out over the replicas; it stops early when nothing is left to ask. */
  method FanOut(q: Query, ghost l: Layout, rf: nat)
      returns (present: array<bool>, holders: array<NodeId>, wrongEpoch: bool)
    requires q.Ok(l)
    ensures present.Length == holders.Length == |q.chain|
    ensures forall i: nat :: i < |q.chain| ==> (present[i] <==> Found(q, l, i, rf))
    ensures forall i: nat :: i < |q.chain| && present[i] ==> FirstHolder(q, l, i, holders[i], rf)
    ensures wrongEpoch <==> Rejected(q, l, rf)
  {
    var n := |q.chain|;
    present := new bool[n](_ => false);
    holders := new NodeId[n](_ => "");
    var probe: seq<nat> := seq(n, i => i);
    var replica: nat := 0;
    wrongEpoch := false;
    NothingAsked(q, l, present[..], holders[..], probe);
    while replica < rf && |probe| > 0
      invariant replica <= rf && Progress(q, l, replica, present[..], holders[..], probe)
      invariant wrongEpoch <==> Rejected(q, l, replica)
    {
      var we;
      probe, we := Round(q, l, replica, probe, present, holders);
      wrongEpoch := wrongEpoch || we;
      replica := replica + 1;
    }
    FanOutDone(q, l, replica, rf, present[..], holders[..], probe);
  }

  lemma HolderIsMember(q: Query, l: Layout, rf: nat, i: nat, x: NodeId)
    requires q.Ok(l) && FirstHolder(q, l, i, x, rf)
    ensures x in q.ring.addrs
  {
    var rep: nat :| rep < rf && q.Says(l, i, rep) && q.OwnerAt(l, i, rep) == Some(x);
    OwnersAreMembers(q.ring, l, KeyOf(q.chain[i]), x);
  }

  /** matchOnRing. */
  method MatchOnRing(q: Query, ghost l: Layout, rf: nat) returns (resp: Response, wrongEpoch: bool)
    requires q.Ok(l)
    ensures Matched(q, l, rf, resp) && (wrongEpoch <==> Rejected(q, l, rf))
  {
    var present, holders;
    present, holders, wrongEpoch := FanOut(q, l, rf);
    var depth: nat := 0;
    while depth < present.Length && present[depth]
      invariant depth <= present.Length && forall i: nat :: i < depth ==> present[i]
      modifies {}
    {
      depth := depth + 1;
    }
    var refs: seq<BlockRef> := [];
    for i := 0 to depth
      invariant |refs| == i
      invariant forall j: nat :: j < i ==> refs[j].id == q.chain[j] && Located(q, l, rf, j, refs[j].addr)
      modifies {}
    {
      HolderIsMember(q, l, rf, i, holders[i]);
      refs := refs + [BlockRef(q.chain[i], q.ring.addrs[holders[i]])];
    }
    resp := Response(depth, refs, q.ring.epoch);
  }

  // ----- Match: one retry on a newer ring -----

  datatype MatchResult = InvalidArgument | Reply(resp: Response)

  ghost predicate AllBuilt(rings: seq<Option<Ring>>, l: Layout) {
    l.perNode > 0 && forall k :: 0 <= k < |rings| && rings[k].Some? ==> Built(rings[k].value, l)
  }

  /** There are nodes to ask, and blocks to ask about. */
  predicate Askable(r: Option<Ring>, chain: seq<BlockId>) {
    r.Some? && r.value.addrs != map[] && chain != []
  }

  ghost predicate SoundIds(chain: seq<BlockId>) {
    forall i :: 0 <= i < |chain| ==> |chain[i]| == 32
  }

  /** A node rejected the epoch of the first ring, and a newer ring is at hand. */
  ghost predicate Retries(chain: seq<BlockId>, rings: seq<Option<Ring>>, nets: seq<(nat, NodeId) -> Answer>, l: Layout,
                          rf: nat)
    requires |rings| == 3 && |nets| == 2 && AllBuilt(rings, l) && SoundIds(chain)
  {
    && rings[0].Some? && rings[1].Some? && rings[0].value.epoch < rings[1].value.epoch
    && rings[0].value.addrs != map[] && chain != []
    && Rejected(Query(rings[0].value, chain, nets[0]), l, rf)
  }

  /**
   * What Match must answer. `rings` are the successive readings of the current ring and `nets` the answers in the two
   * attempts. The second attempt happens only when a node rejected the epoch and a newer ring is at hand; its answer
   * stands.
   */
  ghost predicate MatchOutcome(chain: seq<BlockId>, rings: seq<Option<Ring>>, nets: seq<(nat, NodeId) -> Answer>,
                               l: Layout, rf: nat, m: MatchResult)
    requires |rings| == 3 && |nets| == 2 && AllBuilt(rings, l)
  {
    if !SoundIds(chain) then m == InvalidArgument
    else
      && m.Reply?
      && var (r, net) := if Retries(chain, rings, nets, l, rf) then (rings[2], nets[1]) else (rings[0], nets[0]);
      if r.None? || r.value.addrs == map[] || chain == [] then m.resp == Response(0, [], 0)
      else Matched(Query(r.value, chain, net), l, rf, m.resp)
  }

  /** One attempt of Match on the ring read. */
  method Attempt(chain: seq<BlockId>, r: Ring, net: (nat, NodeId) -> Answer, ghost l: Layout, rf: nat)
      returns (resp: Response, wrongEpoch: bool)
    requires Built(r, l) && l.perNode > 0 && SoundIds(chain)
    ensures Matched(Query(r, chain, net), l, rf, resp) && (wrongEpoch <==> Rejected(Query(r, chain, net), l, rf))
  {
    resp, wrongEpoch := MatchOnRing(Query(r, chain, net), l, rf);
  }

  method Match(chain: seq<BlockId>, rings: seq<Option<Ring>>, nets: seq<(nat, NodeId) -> Answer>, ghost l: Layout,
               rf: nat)
      returns (m: MatchResult)
    requires |rings| == 3 && |nets| == 2 && AllBuilt(rings, l)
    ensures MatchOutcome(chain, rings, nets, l, rf, m)
  {
    for i := 0 to |chain|
      invariant forall j :: 0 <= j < i ==> |chain[j]| == HASH_SIZE
    {
      if |chain[i]| != HASH_SIZE {
        return InvalidArgument;
      }
    }
    if !Askable(rings[0], chain) {
      return Reply(Response(0, [], 0));
    }
    var resp, wrongEpoch := Attempt(chain, rings[0].value, nets[0], l, rf);
    if wrongEpoch && rings[1].Some? && rings[1].value.epoch > rings[0].value.epoch {
      if !Askable(rings[2], chain) {
        return Reply(Response(0, [], 0));
      }
      resp, wrongEpoch := Attempt(chain, rings[2].value, nets[1], l, rf);
    }
    return Reply(resp);
  }

  // ----- failure tolerance -----

  lemma {:induction false} OneLeft(s: seq<NodeId>, bad: set<NodeId>) returns (k: nat)
    requires NoRepeat(s) && |bad| < |s|
    ensures k < |s| && s[k] !in bad
  {
    if s[0] !in bad {
      k := 0;
    } else {
      NoRepeatIff(s);
      NoRepeatIff(s[1..]);
      k := OneLeft(s[1..], bad - {s[0]});
      k := k + 1;
    }
  }

  /** Every owner of block i outside `bad`, among the first rf, is reachable and has it. */
  ghost predicate HeldOutside(q: Query, l: Layout, i: nat, rf: nat, bad: set<NodeId>)
    requires q.Ok(l)
  {
    forall rep: nat ::
      rep < rf && q.OwnerAt(l, i, rep).Some? && q.OwnerAt(l, i, rep).value !in bad ==> q.Says(l, i, rep)
  }

  lemma SomeOwnerSays(q: Query, l: Layout, i: nat, rf: nat, bad: set<NodeId>)
    requires q.Ok(l) && i < |q.chain| && |bad| < rf <= |q.ring.addrs| && HeldOutside(q, l, i, rf, bad)
    ensures Found(q, l, i, rf)
  {
    var owners := OwnersOf(q.ring, q.chain[i], rf);
    OwnersCount(q.ring, l, q.chain[i], rf, rf);
    var rep := OneLeft(owners, bad);
    assert q.OwnerAt(l, i, rep) == Some(owners[rep]);
    assert q.Says(l, i, rep);
  }

  /** With at least rf members and fewer than rf of them failing, a fully replicated chain is matched in full. */
  lemma ToleratesFailures(q: Query, l: Layout, rf: nat, bad: set<NodeId>, resp: Response)
    requires q.Ok(l) && |bad| < rf <= |q.ring.addrs| && Matched(q, l, rf, resp)
    requires forall i: nat :: i < |q.chain| ==> HeldOutside(q, l, i, rf, bad)
    ensures resp.depth == |q.chain|
  {
    if resp.depth < |q.chain| {
      SomeOwnerSays(q, l, resp.depth, rf, bad);
    }
  }

  /** A fully replicated chain on a ring with enough members and fewer than rf of them failing. */
  ghost predicate Replicated(chain: seq<BlockId>, r: Option<Ring>, net: (nat, NodeId) -> Answer, l: Layout, rf: nat,
                             bad: set<NodeId>)
    requires SoundIds(chain) && l.perNode > 0 && (r.Some? ==> Built(r.value, l))
  {
    && r.Some? && |bad| < rf <= |r.value.addrs|
    && forall i: nat :: i < |chain| ==> HeldOutside(Query(r.value, chain, net), l, i, rf, bad)
  }

  /** Match itself finds a fully replicated chain in full, whether or not it retries on a newer ring. */
  lemma MatchTolerates(chain: seq<BlockId>, rings: seq<Option<Ring>>, nets: seq<(nat, NodeId) -> Answer>, l: Layout,
                       rf: nat, bad: set<NodeId>, bad': set<NodeId>, m: MatchResult)
    requires |rings| == 3 && |nets| == 2 && AllBuilt(rings, l) && MatchOutcome(chain, rings, nets, l, rf, m)
    requires SoundIds(chain) && chain != [] && Replicated(chain, rings[0], nets[0], l, rf, bad)
    requires Retries(chain, rings, nets, l, rf) ==> Replicated(chain, rings[2], nets[1], l, rf, bad')
    ensures m.Reply? && m.resp.depth == |chain|
  {
    if Retries(chain, rings, nets, l, rf) {
      assert rings[2].value.addrs != map[];
      ToleratesFailures(Query(rings[2].value, chain, nets[1]), l, rf, bad', m.resp);
    } else {
      assert rings[0].value.addrs != map[];
      ToleratesFailures(Query(rings[0].value, chain, nets[0]), l, rf, bad, m.resp);
    }
  }

  // ----- PutBlocks: routing writes to owners -----

  ghost predicate Owns(r: Option<Ring>, l: Layout, id: BlockId, rf: nat, x: NodeId)
    requires r.Some? ==> Built(r.value, l)
  {
    r.Some? && |id| == HASH_SIZE && x in OwnersOf(r.value, id, rf)
  }

  /** The blocks that go to x, in the order they arrived; `rings[k]` is the ring read when block k arrives. */
  ghost function Share(blocks: seq<Block>, rings: seq<Option<Ring>>, l: Layout, rf: nat, x: NodeId): seq<Block>
    requires |blocks| <= |rings| && AllBuilt(rings, l)
  {
    if blocks == [] then []
    else
      var k := |blocks| - 1;
      Share(blocks[..k], rings, l, rf, x) + if Owns(rings[k], l, blocks[k].id, rf, x) then [blocks[k]] else []
  }

  function SentTo(byOwner: map<NodeId, seq<Block>>, x: NodeId): seq<Block> {
    if x in byOwner then byOwner[x] else []
  }

  method AppendToAll(byOwner0: map<NodeId, seq<Block>>, owners: seq<NodeId>, b: Block)
      returns (byOwner: map<NodeId, seq<Block>>)
    requires NoRepeat(owners)
    ensures forall x :: SentTo(byOwner, x) == SentTo(byOwner0, x) + if x in owners then [b] else []
  {
    byOwner := byOwner0;
    NoRepeatIff(owners);
    for k := 0 to |owners|
      invariant forall x :: SentTo(byOwner, x) == SentTo(byOwner0, x) + if x in owners[..k] then [b] else []
    {
      assert owners[..k + 1] == owners[..k] + [owners[k]];
      byOwner := byOwner[owners[k] := SentTo(byOwner, owners[k]) + [b]];
    }
    assert owners[..|owners|] == owners;
  }

  method RouteOne(byOwner0: map<NodeId, seq<Block>>, r: Option<Ring>, b: Block, ghost l: Layout, rf: nat)
      returns (byOwner: map<NodeId, seq<Block>>)
    requires |b.id| == HASH_SIZE && (r.Some? ==> Built(r.value, l) && l.perNode > 0)
    ensures forall x :: SentTo(byOwner, x) == SentTo(byOwner0, x) + if Owns(r, l, b.id, rf, x) then [b] else []
  {
    if r.None? {
      return byOwner0;
    }
    OwnersCount(r.value, l, b.id, 0, rf);
    if |r.value.addrs| == 0 {
      return byOwner0;
    }
    var owners := Owners(r.value, b.id, rf, l);
    byOwner := AppendToAll(byOwner0, owners, b);
  }

  predicate Malformed(b: Option<Block>) {
    b.None? || |b.value.id| != HASH_SIZE
  }

  /** Every node is sent its share of the blocks. */
  ghost predicate Routed(byOwner: map<NodeId, seq<Block>>, blocks: seq<Block>, rings: seq<Option<Ring>>, l: Layout,
                         rf: nat)
    requires |blocks| <= |rings| && AllBuilt(rings, l)
  {
    forall x :: SentTo(byOwner, x) == Share(blocks, rings, l, rf, x)
  }

  method RouteNext(byOwner0: map<NodeId, seq<Block>>, ghost blocks: seq<Block>, rings: seq<Option<Ring>>, k: nat,
                   b: Block, ghost l: Layout, rf: nat) returns (byOwner: map<NodeId, seq<Block>>)
    requires |blocks| == k < |rings| && AllBuilt(rings, l) && |b.id| == HASH_SIZE
    requires Routed(byOwner0, blocks, rings, l, rf)
    ensures Routed(byOwner, blocks + [b], rings, l, rf)
  {
    byOwner := RouteOne(byOwner0, rings[k], b, l, rf);
    assert (blocks + [b])[..k] == blocks;
  }

  /**
   * Every block goes exactly once to each of its first rf owners; one malformed block fails the whole call. The
   * writes carry the epoch of the ring read `last`, after all blocks.
   */
  method Route(blocks: seq<Option<Block>>, rings: seq<Option<Ring>>, last: Option<Ring>, ghost l: Layout, rf: nat)
      returns (byOwner: Option<map<NodeId, seq<Block>>>, epoch: nat, ghost sound: seq<Block>)
    requires |blocks| <= |rings| && AllBuilt(rings, l)
    ensures byOwner.None? <==> exists k :: 0 <= k < |blocks| && (blocks[k].None? || |blocks[k].value.id| != 32)
    ensures byOwner.Some? ==> |sound| == |blocks| && forall k :: 0 <= k < |blocks| ==> blocks[k] == Some(sound[k])
    ensures byOwner.Some? ==> Routed(byOwner.value, sound, rings, l, rf)
    ensures byOwner.Some? ==> epoch == if last.Some? then last.value.epoch else 0
  {
    var out: map<NodeId, seq<Block>> := map[];
    sound := [];
    for k := 0 to |blocks|
      invariant |sound| == k && forall j :: 0 <= j < k ==> blocks[j] == Some(sound[j]) && !Malformed(blocks[j])
      invariant Routed(out, sound, rings, l, rf)
    {
      if Malformed(blocks[k]) {
        return None, 0, sound;
      }
      var b := blocks[k].value;
      out := RouteNext(out, sound, rings, k, b, l, rf);
      sound := sound + [b];
    }
    byOwner := Some(out);
    epoch := if last.Some? then last.value.epoch else 0;
  }

  /** A node is sent exactly the blocks that it owned by the ring read when they came. */
  lemma {:induction false} ShareIff(blocks: seq<Block>, rings: seq<Option<Ring>>, l: Layout, rf: nat, x: NodeId,
                                    b: Block)
    requires |blocks| <= |rings| && AllBuilt(rings, l)
    ensures b in Share(blocks, rings, l, rf, x) <==> exists k: nat ::
      k < |blocks| && blocks[k] == b && rings[k].Some? && |b.id| == 32 && x in OwnersOf(rings[k].value, b.id, rf)
  {
    if blocks == [] {
    } else {
      var n := |blocks| - 1;
      ShareIff(blocks[..n], rings, l, rf, x, b);
      assert forall k: nat :: k < n ==> blocks[..n][k] == blocks[k];
    }
  }

  /** ... in the order they came. */
  lemma {:induction false} ShareInOrder(blocks: seq<Block>, rings: seq<Option<Ring>>, l: Layout, rf: nat, x: NodeId)
    requires |blocks| <= |rings| && AllBuilt(rings, l)
    ensures Sublist(Share(blocks, rings, l, rf, x), blocks)
  {
    if blocks == [] {
    } else {
      var k := |blocks| - 1;
      var sent := Share(blocks[..k], rings, l, rf, x);
      ShareInOrder(blocks[..k], rings, l, rf, x);
      SublistNext(sent, blocks[..k], blocks[k]);
      assert blocks == blocks[..k] + [blocks[k]];
      assert sent + [] == sent;
    }
  }

  lemma {:induction false} ShareHolds(blocks: seq<Block>, rings: seq<Option<Ring>>, l: Layout, rf: nat, x: NodeId,
                                      k: nat)
    requires |blocks| <= |rings| && AllBuilt(rings, l) && k < |blocks| && Owns(rings[k], l, blocks[k].id, rf, x)
    ensures blocks[k] in Share(blocks, rings, l, rf, x)
  {
    if k == |blocks| - 1 {
    } else {
      ShareHolds(blocks[..|blocks| - 1], rings, l, rf, x, k);
    }
  }

  ghost predicate AllWritten(chain: seq<BlockId>, blocks: seq<Block>) {
    forall i :: 0 <= i < |chain| ==> exists k :: 0 <= k < |blocks| && blocks[k].id == chain[i]
  }

  /**
   * Write, then match on the same ring: if fewer than rf nodes fail and the others still hold what they were
   * sent, every chain of written blocks is matched in full.
   */
  lemma {:induction false} PutThenMatch(q: Query, l: Layout, rf: nat, blocks: seq<Block>, rings: seq<Option<Ring>>,
                                        bad: set<NodeId>, resp: Response)
    requires q.Ok(l) && |bad| < rf <= |q.ring.addrs| && Matched(q, l, rf, resp)
    requires |blocks| <= |rings| && forall k :: 0 <= k < |rings| ==> rings[k] == Some(q.ring)
    requires AllWritten(q.chain, blocks)
    requires forall rep: nat, x :: rep < rf && x !in bad ==>
      q.net(rep, x).Holds? && forall b :: b in Share(blocks, rings, l, rf, x) ==> b.id in q.net(rep, x).blocks
    ensures resp.depth == |q.chain|
  {
    forall i: nat, rep: nat |
      i < |q.chain| && rep < rf && q.OwnerAt(l, i, rep).Some? && q.OwnerAt(l, i, rep).value !in bad
      ensures q.Says(l, i, rep)
    {
      var x := q.OwnerAt(l, i, rep).value;
      var k :| 0 <= k < |blocks| && blocks[k].id == q.chain[i];
      assert OwnersOf(q.ring, q.chain[i], rf)[rep] == x;
      ShareHolds(blocks, rings, l, rf, x, k);
    }
    ToleratesFailures(q, l, rf, bad, resp);
  }
}
