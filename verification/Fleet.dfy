/**
 * The cache nodes as warm commands reach them: every node with its store and its token bucket, commands delivered in
 * any order and any number of times, each handled as a warmer handles it.
 */
module Fleet {
  import opened Options
  import opened BlockTypes
  import opened Sequences
  import opened Recency
  import opened HashRing
  import opened LruStore
  import opened CacheNode
  import opened Warmers
  import opened Prefetch

  /** A command as it reaches its target: the target's clocks, and whether the source could be reached. */
  datatype Delivery = Delivery(cmd: WarmCommand, wallMs: int, now: real, reached: bool)

  type Sites = map<NodeId, Site>

  // ----- one node -----

  ghost predicate SizesAre(l: seq<Item>, size: BlockId -> nat) {
    forall i :: 0 <= i < |l| ==> l[i] == Sized(l[i].block) && l[i].weight == size(l[i].block.id)
  }

  function Weight(ids: seq<BlockId>, size: BlockId -> nat): nat {
    if ids == [] then 0 else Weight(ids[..|ids| - 1], size) + size(ids[|ids| - 1])
  }

  lemma {:induction false} WeightAppend(a: seq<BlockId>, b: seq<BlockId>, size: BlockId -> nat)
    ensures Weight(a + b, size) == Weight(a, size) + Weight(b, size)
  {
    if b == [] {
      assert a + b == a;
    } else {
      WeightAppend(a, b[..|b| - 1], size);
      assert (a + b)[..|a + b| - 1] == a + b[..|b| - 1];
    }
  }

  function Ids(l: seq<Item>): seq<BlockId> {
    seq(|l|, i requires 0 <= i < |l| => l[i].block.id)
  }

  lemma {:induction false} WeightOfIds(l: seq<Item>, size: BlockId -> nat)
    requires SizesAre(l, size)
    ensures Weight(Ids(l), size) == Total(l)
  {
    if l == [] {
    } else {
      var n := |l| - 1;
      WeightOfIds(l[..n], size);
      assert Ids(l)[..n] == Ids(l[..n]);
    }
  }

  /** A list of distinct blocks weighs no more than any list of ids that names them all. */
  lemma {:induction false} TotalWithin(l: seq<Item>, ids: seq<BlockId>, size: BlockId -> nat)
    requires Distinct(l) && SizesAre(l, size) && forall i :: 0 <= i < |l| ==> l[i].block.id in ids
    ensures Total(l) <= Weight(ids, size)
    decreases |ids|
  {
    if l == [] {
    } else {
      assert l[0].block.id in ids;
      var n := |ids| - 1;
      assert ids == ids[..n] + [ids[n]];
      if Has(l, ids[n]) {
        var k: nat :| At(l, k, ids[n]);
        TotalWithout(l, k);
        TotalWithin(Without(l, k), ids[..n], size);
      } else {
        forall i | 0 <= i < |l|
          ensures l[i].block.id in ids[..n]
        {
          assert !At(l, i, ids[n]);
        }
        TotalWithin(l, ids[..n], size);
      }
    }
  }

  /** The node's list is in order, and holds nothing but blocks it was expected to hold. */
  ghost predicate Within(s: Site, expected: seq<BlockId>, size: BlockId -> nat) {
    && Ok(s.list, s.cap) && SizesAre(s.list, size)
    && (forall id :: Has(s.list, id) ==> id in expected)
  }

  lemma TouchedWithin(s: Site, id: BlockId, expected: seq<BlockId>, size: BlockId -> nat)
    requires Within(s, expected, size)
    ensures Within(s.(list := Touched(s.list, id)), expected, size)
  {
    TouchedOk(s.list, id, s.cap);
    var l := Touched(s.list, id);
    forall i | 0 <= i < |l|
      ensures l[i] == Sized(l[i].block) && l[i].weight == size(l[i].block.id)
    {
      TouchedHolds(s.list, id, l[i]);
      var j :| 0 <= j < |s.list| && s.list[j] == l[i];
    }
    forall other | Has(l, other)
      ensures other in expected
    {
      TouchedKeeps(s.list, id, other);
    }
  }

  /** With room for all that is expected, a put evicts nothing. */
  lemma PutWithin(s: Site, b: Block, expected: seq<BlockId>, size: BlockId -> nat)
    requires Within(s, expected, size) && Weight(expected, size) <= s.cap
    requires !Has(s.list, b.id) && b.id in expected && BlockSize(b) == size(b.id)
    ensures Within(s.(list := AfterPut(s.list, Sized(b), s.cap)), expected, size)
    ensures forall id :: Has(AfterPut(s.list, Sized(b), s.cap), id) <==> Has(s.list, id) || id == b.id
  {
    var l := [Sized(b)] + s.list;
    forall i | 0 <= i < |s.list|
      ensures s.list[i].block.id != b.id && s.list[i].block.id in expected
    {
      assert !At(s.list, i, b.id);
      assert At(s.list, i, s.list[i].block.id);
    }
    TotalWithin(l, expected, size);
    TotalAppend([Sized(b)], s.list);
    TotalOne(Sized(b));
    assert AfterPut(s.list, Sized(b), s.cap) == l;
    PutOk(s.list, Sized(b), s.cap);
    forall id
      ensures Has(l, id) <==> Has(s.list, id) || id == b.id
    {
      PutBesideOthers(s.list, Sized(b), s.cap, id);
    }
  }

  /** A node with room for all it is sent holds, in the end, what it held and everything it was sent. */
  lemma {:induction false} ReceivedWithin(s: Site, blocks: seq<Block>, expected: seq<BlockId>, size: BlockId -> nat)
    requires Within(s, expected, size) && Weight(expected, size) <= s.cap
    requires forall b :: b in blocks ==> b.id in expected && BlockSize(b) == size(b.id)
    ensures Within(s.(list := PutAll(s.list, blocks, s.cap)), expected, size)
    ensures forall id ::
      Has(PutAll(s.list, blocks, s.cap), id) <==> Has(s.list, id) || exists b :: b in blocks && b.id == id
  {
    if blocks == [] {
    } else {
      var n := |blocks| - 1;
      var b := blocks[n];
      assert blocks == blocks[..n] + [b];
      ReceivedWithin(s, blocks[..n], expected, size);
      var before := s.(list := PutAll(s.list, blocks[..n], s.cap));
      if Has(before.list, b.id) {
        TouchedWithin(before, b.id, expected, size);
        forall id
          ensures Has(Touched(before.list, b.id), id) <==> Has(before.list, id)
        {
          TouchedKeeps(before.list, b.id, id);
        }
      } else {
        PutWithin(before, b, expected, size);
      }
    }
  }

  /** The bucket has a token for each of the next n commands. */
  ghost predicate Pays(b: Bucket, rate: real, n: nat) {
    rate > 0.0 && Sound(b, rate) && n as real <= b.tokens
  }

  lemma AllowedWhenPaid(b: Bucket, rate: real, now: real, n: nat)
    requires Pays(b, rate, n + 1) && b.last <= now
    ensures Allowed(b, rate, now).1 && Pays(Allowed(b, rate, now).0, rate, n) && Allowed(b, rate, now).0.last == now
  {
    RefillBounded(b, rate, now);
  }

  /**
   * What a command does to its target: the list stays as expected, nothing is lost, and the block arrives if it can.
   */
  lemma HandledWithin(x: NodeId, s: Site, d: Delivery, fetched: Option<Block>, expected: seq<BlockId>,
                      size: BlockId -> nat)
    requires Within(s, expected, size) && Weight(expected, size) <= s.cap && d.cmd.id in expected
    requires fetched.Some? ==> fetched.value.id == d.cmd.id && BlockSize(fetched.value) == size(d.cmd.id)
    ensures var s' := SiteAfter(x, s, d.cmd, d.wallMs, d.now, fetched);
      && Within(s', expected, size) && s'.cap == s.cap && s'.rate == s.rate
      && (forall id :: Has(s.list, id) ==> Has(s'.list, id))
    ensures var fate := FateOf(x, s, d.cmd, d.wallMs, d.now, fetched);
      fate.Present? || fate.Executed? ==> Has(SiteAfter(x, s, d.cmd, d.wallMs, d.now, fetched).list, d.cmd.id)
  {
    var fate := FateOf(x, s, d.cmd, d.wallMs, d.now, fetched);
    if fate.Present? {
      TouchedWithin(s, d.cmd.id, expected, size);
      forall id ensures Has(Touched(s.list, d.cmd.id), id) <==> Has(s.list, id) { TouchedKeeps(s.list, d.cmd.id, id); }
    } else if fate.Executed? {
      PutWithin(s, fetched.value, expected, size);
    }
  }

  // ----- the fleet -----

  /** The block a target fetches: what the node that listens at the source address holds under the id. */
  ghost function Fetched(fleet: Sites, at: string -> NodeId, d: Delivery): Option<Block> {
    var source := at(d.cmd.source);
    if d.reached && source in fleet && Has(fleet[source].list, d.cmd.id)
    then (var k: nat :| At(fleet[source].list, k, d.cmd.id); Some(fleet[source].list[k].block))
    else None
  }

  ghost function FateIn(fleet: Sites, at: string -> NodeId, d: Delivery): Fate
    requires d.cmd.target in fleet
  {
    FateOf(d.cmd.target, fleet[d.cmd.target], d.cmd, d.wallMs, d.now, Fetched(fleet, at, d))
  }

  /** The source's copy is touched when it is fetched; the target is what its warmer leaves. */
  ghost function Deliver(fleet: Sites, at: string -> NodeId, d: Delivery): Sites {
    if d.cmd.target !in fleet then fleet
    else
      var x, source := d.cmd.target, at(d.cmd.source);
      var served: Sites :=
        if FateIn(fleet, at, d).Executed?
        then fleet[source := fleet[source].(list := Touched(fleet[source].list, d.cmd.id))] else fleet;
      served[x := SiteAfter(x, fleet[x], d.cmd, d.wallMs, d.now, Fetched(fleet, at, d))]
  }

  /** The fleet before and after every delivery of a run. */
  ghost predicate Campaign(fleets: seq<Sites>, at: string -> NodeId, run: seq<Delivery>) {
    && |fleets| == |run| + 1
    && forall k {:trigger DeliveredAt(fleets, at, run, k)} :: 0 <= k < |run| ==> DeliveredAt(fleets, at, run, k)
  }

  ghost predicate DeliveredAt(fleets: seq<Sites>, at: string -> NodeId, run: seq<Delivery>, k: nat) {
    k < |run| && k + 1 < |fleets| && fleets[k + 1] == Deliver(fleets[k], at, run[k])
  }

  /** The blocks that commands ask a node to fetch, each once, besides those it already has. */
  ghost function Newcomers(run: seq<Delivery>, x: NodeId, l: seq<Item>): seq<BlockId> {
    if run == [] then []
    else
      var before, d := Newcomers(run[..|run| - 1], x, l), run[|run| - 1];
      if d.cmd.target == x && !Has(l, d.cmd.id) && d.cmd.id !in before then before + [d.cmd.id] else before
  }

  /** What a node may come to hold. */
  ghost function Expected(s: Site, x: NodeId, run: seq<Delivery>): seq<BlockId> {
    Ids(s.list) + Newcomers(run, x, s.list)
  }

  /** What a caller can check beforehand: what a node holds and what it is asked to fetch fit together. */
  ghost predicate HasRoom(s: Site, x: NodeId, run: seq<Delivery>, size: BlockId -> nat) {
    && Ok(s.list, s.cap) && SizesAre(s.list, size)
    && Total(s.list) + Weight(Newcomers(run, x, s.list), size) <= s.cap
  }

  lemma {:induction false} CommandedIsExpected(s: Site, x: NodeId, run: seq<Delivery>, d: Delivery)
    requires d in run && d.cmd.target == x
    ensures d.cmd.id in Expected(s, x, run)
    decreases |run|
  {
    var n := |run| - 1;
    assert run == run[..n] + [run[n]];
    if Has(s.list, d.cmd.id) {
      var k: nat :| At(s.list, k, d.cmd.id);
      assert Ids(s.list)[k] == d.cmd.id;
    } else if d in run[..n] {
      CommandedIsExpected(s, x, run[..n], d);
      assert Newcomers(run[..n], x, s.list) <= Newcomers(run, x, s.list);
      assert d.cmd.id in Newcomers(run[..n], x, s.list) || d.cmd.id in Ids(s.list);
    }
  }

  lemma RoomSuffices(s: Site, x: NodeId, run: seq<Delivery>, size: BlockId -> nat)
    requires HasRoom(s, x, run, size)
    ensures Within(s, Expected(s, x, run), size) && Weight(Expected(s, x, run), size) <= s.cap
  {
    WeightOfIds(s.list, size);
    WeightAppend(Ids(s.list), Newcomers(run, x, s.list), size);
    forall id | Has(s.list, id)
      ensures id in Expected(s, x, run)
    {
      var i: nat :| At(s.list, i, id);
      assert Ids(s.list)[i] == id;
    }
  }

  // ----- nothing is lost -----

  ghost predicate SiteKept(s0: Site, s: Site, x: NodeId, run: seq<Delivery>, size: BlockId -> nat) {
    && Within(s, Expected(s0, x, run), size) && s.cap == s0.cap && s.rate == s0.rate
    && (forall id :: Has(s0.list, id) ==> Has(s.list, id))
  }

  /** Every node still holds what it held, and nothing unexpected. */
  ghost predicate Kept(start: Sites, fleet: Sites, run: seq<Delivery>, size: BlockId -> nat) {
    && fleet.Keys == start.Keys
    && forall x {:trigger SiteKept(start[x], fleet[x], x, run, size)} ::
         x in start ==> SiteKept(start[x], fleet[x], x, run, size)
  }

  ghost predicate AllHaveRoom(start: Sites, run: seq<Delivery>, size: BlockId -> nat) {
    forall x {:trigger HasRoom(start[x], x, run, size)} :: x in start ==> HasRoom(start[x], x, run, size)
  }

  ghost predicate Grows(l: seq<Item>, l': seq<Item>) {
    forall id :: Has(l, id) ==> Has(l', id)
  }

  lemma FetchedIsGenuine(start: Sites, fleet: Sites, at: string -> NodeId, d: Delivery, run: seq<Delivery>,
                         size: BlockId -> nat)
    requires Kept(start, fleet, run, size) && Fetched(fleet, at, d).Some?
    ensures var b := Fetched(fleet, at, d).value; b.id == d.cmd.id && BlockSize(b) == size(d.cmd.id)
  {
    var source := at(d.cmd.source);
    assert SiteKept(start[source], fleet[source], source, run, size);
    var k: nat :| At(fleet[source].list, k, d.cmd.id) && Fetched(fleet, at, d).value == fleet[source].list[k].block;
    assert fleet[source].list[k] == Sized(fleet[source].list[k].block);
  }

  lemma TargetKept(start: Sites, fleet: Sites, at: string -> NodeId, d: Delivery, run: seq<Delivery>,
                   size: BlockId -> nat)
    requires Kept(start, fleet, run, size) && AllHaveRoom(start, run, size) && d in run && d.cmd.target in start
    ensures var x := d.cmd.target;
      && SiteKept(start[x], Deliver(fleet, at, d)[x], x, run, size)
      && Grows(fleet[x].list, Deliver(fleet, at, d)[x].list)
      && (FateIn(fleet, at, d).Present? || FateIn(fleet, at, d).Executed? ==>
            Has(Deliver(fleet, at, d)[x].list, d.cmd.id))
  {
    var x := d.cmd.target;
    assert SiteKept(start[x], fleet[x], x, run, size) && HasRoom(start[x], x, run, size);
    RoomSuffices(start[x], x, run, size);
    CommandedIsExpected(start[x], x, run, d);
    if Fetched(fleet, at, d).Some? {
      FetchedIsGenuine(start, fleet, at, d, run, size);
    }
    HandledWithin(x, fleet[x], d, Fetched(fleet, at, d), Expected(start[x], x, run), size);
  }

  lemma OthersKept(start: Sites, fleet: Sites, at: string -> NodeId, d: Delivery, run: seq<Delivery>,
                   size: BlockId -> nat, x: NodeId)
    requires Kept(start, fleet, run, size) && x in start && x != d.cmd.target
    ensures SiteKept(start[x], Deliver(fleet, at, d)[x], x, run, size)
    ensures Grows(fleet[x].list, Deliver(fleet, at, d)[x].list)
    ensures Deliver(fleet, at, d)[x].bucket == fleet[x].bucket
  {
    assert SiteKept(start[x], fleet[x], x, run, size);
    if d.cmd.target in fleet && FateIn(fleet, at, d).Executed? && x == at(d.cmd.source) {
      TouchedWithin(fleet[x], d.cmd.id, Expected(start[x], x, run), size);
      forall id
        ensures Has(Touched(fleet[x].list, d.cmd.id), id) <==> Has(fleet[x].list, id)
      {
        TouchedKeeps(fleet[x].list, d.cmd.id, id);
      }
    }
  }

  lemma DeliverGrows(fleets: seq<Sites>, at: string -> NodeId, run: seq<Delivery>, k: nat, size: BlockId -> nat,
                     x: NodeId)
    requires Campaign(fleets, at, run) && k < |run| && AllHaveRoom(fleets[0], run, size)
    requires Kept(fleets[0], fleets[k], run, size) && x in fleets[0]
    ensures x in fleets[k + 1] && SiteKept(fleets[0][x], fleets[k + 1][x], x, run, size)
    ensures Grows(fleets[k][x].list, fleets[k + 1][x].list)
  {
    assert DeliveredAt(fleets, at, run, k);
    if x == run[k].cmd.target {
      TargetKept(fleets[0], fleets[k], at, run[k], run, size);
    } else {
      OthersKept(fleets[0], fleets[k], at, run[k], run, size, x);
    }
  }

  lemma SameNodes(fleets: seq<Sites>, at: string -> NodeId, run: seq<Delivery>, k: nat)
    requires Campaign(fleets, at, run) && k < |run|
    ensures fleets[k + 1].Keys == fleets[k].Keys
  {
    assert DeliveredAt(fleets, at, run, k);
  }

  /** After every delivery of the run. */
  lemma {:induction false} AllKept(fleets: seq<Sites>, at: string -> NodeId, run: seq<Delivery>, k: nat,
                                   size: BlockId -> nat)
    requires Campaign(fleets, at, run) && k <= |run| && AllHaveRoom(fleets[0], run, size)
    ensures Kept(fleets[0], fleets[k], run, size)
  {
    if k == 0 {
      forall x | x in fleets[0]
        ensures SiteKept(fleets[0][x], fleets[0][x], x, run, size)
      {
        assert HasRoom(fleets[0][x], x, run, size);
        RoomSuffices(fleets[0][x], x, run, size);
      }
    } else {
      AllKept(fleets, at, run, k - 1, size);
      SameNodes(fleets, at, run, k - 1);
      forall x | x in fleets[0]
        ensures SiteKept(fleets[0][x], fleets[k][x], x, run, size)
      {
        DeliverGrows(fleets, at, run, k - 1, size, x);
      }
    }
  }

  /** What a node holds after some of the run it holds after more of it. */
  lemma {:induction false} HoldsOn(fleets: seq<Sites>, at: string -> NodeId, run: seq<Delivery>, i: nat, j: nat,
                                   size: BlockId -> nat, x: NodeId, id: BlockId)
    requires Campaign(fleets, at, run) && i <= j <= |run| && AllHaveRoom(fleets[0], run, size)
    requires x in fleets[0] && x in fleets[i] && Has(fleets[i][x].list, id)
    ensures x in fleets[j] && Has(fleets[j][x].list, id)
    decreases j
  {
    if i == j {
    } else {
      HoldsOn(fleets, at, run, i, j - 1, size, x, id);
      AllKept(fleets, at, run, j - 1, size);
      DeliverGrows(fleets, at, run, j - 1, size, x);
    }
  }

  // ----- the budget lasts -----

  /** How many deliveries from k on are for x. */
  function Remaining(run: seq<Delivery>, k: nat, x: NodeId): nat
    decreases |run| - k
  {
    if k >= |run| then 0 else (if run[k].cmd.target == x then 1 else 0) + Remaining(run, k + 1, x)
  }

  /** The node's clock does not go back between the deliveries to it. */
  ghost predicate ClockRises(run: seq<Delivery>, x: NodeId, k: nat, last: real) {
    && (forall j {:trigger run[j].now} :: k <= j < |run| && run[j].cmd.target == x ==> last <= run[j].now)
    && (forall i, j {:trigger run[i].now, run[j].now} ::
          0 <= i < j < |run| && run[i].cmd.target == run[j].cmd.target == x ==> run[i].now <= run[j].now)
  }

  /** What a caller can check beforehand: the bucket has a token for every command the node will get. */
  ghost predicate CanPay(s: Site, x: NodeId, run: seq<Delivery>, k: nat) {
    Pays(s.bucket, s.rate, Remaining(run, k, x)) && ClockRises(run, x, k, s.bucket.last)
  }

  lemma BucketAfter(x: NodeId, s: Site, d: Delivery, fetched: Option<Block>)
    ensures SiteAfter(x, s, d.cmd, d.wallMs, d.now, fetched).rate == s.rate
    ensures SiteAfter(x, s, d.cmd, d.wallMs, d.now, fetched).bucket in {s.bucket, Allowed(s.bucket, s.rate, d.now).0}
  {
  }

  /** A node that could pay for the rest of the run still can after one delivery. */
  lemma PaysOn(x: NodeId, s: Site, s': Site, run: seq<Delivery>, k: nat)
    requires k < |run| && CanPay(s, x, run, k) && s'.rate == s.rate
    requires s'.bucket == s.bucket || (run[k].cmd.target == x && s'.bucket == Allowed(s.bucket, s.rate, run[k].now).0)
    ensures CanPay(s', x, run, k + 1)
    ensures run[k].cmd.target == x ==> Allowed(s.bucket, s.rate, run[k].now).1
  {
    if run[k].cmd.target == x {
      AllowedWhenPaid(s.bucket, s.rate, run[k].now, Remaining(run, k + 1, x));
    }
  }

  lemma PaysAt(fleets: seq<Sites>, at: string -> NodeId, run: seq<Delivery>, k: nat, size: BlockId -> nat, x: NodeId)
    requires Campaign(fleets, at, run) && k < |run| && Kept(fleets[0], fleets[k], run, size) && x in fleets[0]
    requires x in fleets[k] && CanPay(fleets[k][x], x, run, k)
    ensures x in fleets[k + 1] && CanPay(fleets[k + 1][x], x, run, k + 1)
    ensures run[k].cmd.target == x ==> Allowed(fleets[k][x].bucket, fleets[k][x].rate, run[k].now).1
  {
    assert DeliveredAt(fleets, at, run, k);
    if run[k].cmd.target == x {
      BucketAfter(x, fleets[k][x], run[k], Fetched(fleets[k], at, run[k]));
    } else {
      OthersKept(fleets[0], fleets[k], at, run[k], run, size, x);
    }
    PaysOn(x, fleets[k][x], fleets[k + 1][x], run, k);
  }

  lemma {:induction false} PaysAlways(fleets: seq<Sites>, at: string -> NodeId, run: seq<Delivery>, k: nat,
                                      size: BlockId -> nat, x: NodeId)
    requires Campaign(fleets, at, run) && k <= |run| && AllHaveRoom(fleets[0], run, size)
    requires x in fleets[0] && CanPay(fleets[0][x], x, run, 0)
    ensures x in fleets[k] && CanPay(fleets[k][x], x, run, k)
  {
    if k == 0 {
    } else {
      PaysAlways(fleets, at, run, k - 1, size, x);
      AllKept(fleets, at, run, k - 1, size);
      PaysAt(fleets, at, run, k - 1, size, x);
    }
  }

  // ----- a command that is delivered in time brings its block -----

  /** The command reaches its target before its deadline, and the source can be reached. */
  ghost predicate InTime(d: Delivery) {
    d.reached && (d.cmd.deadlineMs <= 0 || d.wallMs <= d.cmd.deadlineMs)
  }

  lemma Arrives(fleets: seq<Sites>, at: string -> NodeId, run: seq<Delivery>, k: nat, size: BlockId -> nat)
    requires Campaign(fleets, at, run) && k < |run| && AllHaveRoom(fleets[0], run, size)
    requires InTime(run[k]) && |run[k].cmd.id| == HASH_SIZE && run[k].cmd.source != ""
    requires run[k].cmd.target in fleets[0] && CanPay(fleets[0][run[k].cmd.target], run[k].cmd.target, run, 0)
    requires at(run[k].cmd.source) in fleets[0] && Has(fleets[0][at(run[k].cmd.source)].list, run[k].cmd.id)
    ensures run[k].cmd.target in fleets[|run|] && Has(fleets[|run|][run[k].cmd.target].list, run[k].cmd.id)
  {
    var d := run[k];
    var x, source := d.cmd.target, at(d.cmd.source);
    AllKept(fleets, at, run, k, size);
    PaysAlways(fleets, at, run, k, size, x);
    PaysAt(fleets, at, run, k, size, x);
    HoldsOn(fleets, at, run, 0, k, size, source, d.cmd.id);
    assert Has(fleets[k + 1][x].list, d.cmd.id) by {
      assert DeliveredAt(fleets, at, run, k);
      assert Fetched(fleets[k], at, d).Some?;
      assert FateIn(fleets[k], at, d).Present? || FateIn(fleets[k], at, d).Executed?;
      TargetKept(fleets[0], fleets[k], at, d, run, size);
    }
    HoldsOn(fleets, at, run, k + 1, |run|, size, x, d.cmd.id);
  }

  /** The commands due for a block are delivered in time, each at least once, wherever in the run. */
  ghost predicate DueDelivered(r: Ring, r': Ring, rf: nat, id: BlockId, st: Stat, deadlineMs: int, run: seq<Delivery>)
    requires Sorted(r.vnodes) && Sorted(r'.vnodes) && |id| == HASH_SIZE
  {
    forall c :: c in Due(r, r', rf, id, st, deadlineMs) ==>
      exists k :: 0 <= k < |run| && run[k].cmd == c && InTime(run[k])
  }

  /** Old owners of the block that are still members hold it, and one of them can be copied from. */
  ghost predicate Survives(r: Ring, r': Ring, rf: nat, id: BlockId, fleet: Sites)
    requires Sorted(r.vnodes) && |id| >= 8
  {
    && (forall o :: o in OwnersOf(r, id, rf) && o in r'.addrs ==> o in fleet && Has(fleet[o].list, id))
    && (exists o :: o in OwnersOf(r, id, rf) && o in r'.addrs && r'.addrs[o] != "")
  }

  /** Every member of the ring is a node of the fleet and listens at its address. */
  ghost predicate Listens(r: Ring, fleet: Sites, at: string -> NodeId) {
    forall x :: x in r.addrs ==> x in fleet && at(r.addrs[x]) == x
  }

  /**
   * Warming restores replication. Deliver the commands due for a block in time, in any order, among any others and
   * with any repeats. If what every node holds and is asked to fetch fits its store, the new owners' buckets have a
   * token for each command they get, and the old owners that remain hold the block, then in the end every new owner
   * holds it.
   */
  lemma {:induction false} WarmingRestores(
      r: Ring, r': Ring, l: Layout, l': Layout, rf: nat, id: BlockId, st: Stat, deadlineMs: int,
      fleets: seq<Sites>, at: string -> NodeId, run: seq<Delivery>, size: BlockId -> nat)
    requires Built(r, l) && Built(r', l') && l.perNode > 0 && l'.perNode > 0 && |id| == HASH_SIZE
    requires Campaign(fleets, at, run) && AllHaveRoom(fleets[0], run, size) && Listens(r', fleets[0], at)
    requires Survives(r, r', rf, id, fleets[0]) && DueDelivered(r, r', rf, id, st, deadlineMs, run)
    requires forall x :: x in OwnersOf(r', id, rf) && x in fleets[0] ==> CanPay(fleets[0][x], x, run, 0)
    ensures forall x :: x in OwnersOf(r', id, rf) ==> x in fleets[|run|] && Has(fleets[|run|][x].list, id)
  {
    OwnersCount(r', l', id, rf, rf);
    forall x | x in OwnersOf(r', id, rf)
      ensures x in fleets[|run|] && Has(fleets[|run|][x].list, id)
    {
      if x in OwnersOf(r, id, rf) {
        HoldsOn(fleets, at, run, 0, |run|, size, x, id);
      } else {
        NewOwnerWarmed(r, r', rf, id, st, deadlineMs, fleets, at, run, size, x);
      }
    }
  }

  lemma {:induction false} NewOwnerWarmed(
      r: Ring, r': Ring, rf: nat, id: BlockId, st: Stat, deadlineMs: int,
      fleets: seq<Sites>, at: string -> NodeId, run: seq<Delivery>, size: BlockId -> nat, x: NodeId)
    requires Sorted(r.vnodes) && Sorted(r'.vnodes) && |id| == HASH_SIZE
    requires Campaign(fleets, at, run) && AllHaveRoom(fleets[0], run, size) && Listens(r', fleets[0], at)
    requires Survives(r, r', rf, id, fleets[0]) && DueDelivered(r, r', rf, id, st, deadlineMs, run)
    requires x in OwnersOf(r', id, rf) && x !in OwnersOf(r, id, rf) && x in fleets[0] && CanPay(fleets[0][x], x, run, 0)
    ensures x in fleets[|run|] && Has(fleets[|run|][x].list, id)
  {
    var was, will := OwnersOf(r, id, rf), OwnersOf(r', id, rf);
    SourceIsSurvivor(was, r'.addrs);
    TargetsAre(will, was, x);
    var i :| 0 <= i < |Targets(will, was)| && Targets(will, was)[i] == x;
    var due := Due(r, r', rf, id, st, deadlineMs);
    assert due[i] in due;
    var k :| 0 <= k < |run| && run[k].cmd == due[i] && InTime(run[k]);
    Arrives(fleets, at, run, k, size);
  }
}
