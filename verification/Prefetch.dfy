/** The prefetcher: on a new ring, plan copies of demanded blocks from surviving old owners to new ones. */
module Prefetch {
  import opened Options
  import opened BlockTypes
  import opened Sequences
  import opened HashRing
  import opened Warmers
  import opened Directory

  /** Demand as of the last access, and what a command about the block must say. */
  datatype Stat = Stat(demand: real, lastSeen: real, parent: BlockId, model: string)

  // ----- what the plan says -----

  /** The copy source: the first non-empty address of an old owner that is in the new ring; "" if there is none. */
  function SourceOf(was: seq<NodeId>, addrs: map<NodeId, string>): string {
    if was == [] then ""
    else
      var s := SourceOf(was[..|was| - 1], addrs);
      var o := was[|was| - 1];
      if s == "" && o in addrs then addrs[o] else s
  }

  /** The new owners that were not owners before. */
  function Targets(will: seq<NodeId>, was: seq<NodeId>): seq<NodeId> {
    if will == [] then []
    else
      var t := Targets(will[..|will| - 1], was);
      var o := will[|will| - 1];
      if o in was then t else t + [o]
  }

  /** What the plan for one block amounts to. */
  function Commands(id: BlockId, st: Stat, source: string, targets: seq<NodeId>, deadlineMs: int): seq<WarmCommand> {
    seq(|targets|, i requires 0 <= i < |targets| =>
          WarmCommand(id, st.parent, st.model, source, targets[i], deadlineMs))
  }

  lemma {:induction false} TargetsAre(will: seq<NodeId>, was: seq<NodeId>, x: NodeId)
    ensures x in Targets(will, was) <==> x in will && x !in was
  {
    if will == [] {
    } else {
      TargetsAre(will[..|will| - 1], was, x);
      assert will == will[..|will| - 1] + [will[|will| - 1]];
    }
  }

  /** The source is the non-empty address of the first old owner, in ring order, that the new ring gives one. */
  ghost predicate Survivor(was: seq<NodeId>, addrs: map<NodeId, string>, k: nat) {
    && k < |was| && was[k] in addrs && addrs[was[k]] != ""
    && forall j :: 0 <= j < k && was[j] in addrs ==> addrs[was[j]] == ""
  }

  lemma {:induction false} SourceIsSurvivor(was: seq<NodeId>, addrs: map<NodeId, string>)
    ensures SourceOf(was, addrs) == "" <==> forall o :: o in was && o in addrs ==> addrs[o] == ""
    ensures SourceOf(was, addrs) != "" ==>
      exists k: nat :: Survivor(was, addrs, k) && addrs[was[k]] == SourceOf(was, addrs)
  {
    if was == [] {
    } else {
      var n := |was| - 1;
      var init := was[..n];
      SourceIsSurvivor(init, addrs);
      assert was == init + [was[n]];
      if SourceOf(init, addrs) != "" {
        var k: nat :| Survivor(init, addrs, k) && addrs[init[k]] == SourceOf(init, addrs);
        assert Survivor(was, addrs, k);
      } else if was[n] in addrs && addrs[was[n]] != "" {
        assert Survivor(was, addrs, n);
      }
    }
  }

  // ----- planning -----

  method FindSource(was: seq<NodeId>, addrs: map<NodeId, string>) returns (source: string, wasSet: set<NodeId>)
    ensures source == SourceOf(was, addrs) && forall o :: o in wasSet <==> o in was
  {
    source, wasSet := "", {};
    for k := 0 to |was|
      invariant source == SourceOf(was[..k], addrs)
      invariant forall o :: o in wasSet <==> o in was[..k]
    {
      assert was[..k + 1][..k] == was[..k];
      wasSet := wasSet + {was[k]};
      if was[k] in addrs && source == "" {
        source := addrs[was[k]];
      }
    }
    assert was[..|was|] == was;
  }

  method FindTargets(will: seq<NodeId>, was: seq<NodeId>, wasSet: set<NodeId>) returns (targets: seq<NodeId>)
    requires forall o :: o in wasSet <==> o in was
    ensures targets == Targets(will, was)
  {
    targets := [];
    for k := 0 to |will|
      invariant targets == Targets(will[..k], was)
    {
      assert will[..k + 1][..k] == will[..k];
      if will[k] !in wasSet {
        targets := targets + [will[k]];
      }
    }
    assert will[..|will|] == will;
  }

  /** Addresses by node id; of two entries for one id the later wins. */
  function Addrs(nodes: seq<NodeInfo>): map<NodeId, string> {
    if nodes == [] then map[]
    else Addrs(nodes[..|nodes| - 1])[nodes[|nodes| - 1].id := nodes[|nodes| - 1].addr]
  }

  /** The commands due for one demanded block when the ring changes from r to r'. */
  ghost function Due(r: Ring, r': Ring, rf: nat, id: BlockId, st: Stat, deadlineMs: int): seq<WarmCommand>
    requires Sorted(r.vnodes) && Sorted(r'.vnodes) && |id| == HASH_SIZE
  {
    var source := SourceOf(OwnersOf(r, id, rf), r'.addrs);
    if source == "" then []
    else Commands(id, st, source, Targets(OwnersOf(r', id, rf), OwnersOf(r, id, rf)), deadlineMs)
  }

  /** A copy is due from a surviving old owner to each owner that is new, with what is known about the block. */
  lemma DueIff(r: Ring, r': Ring, rf: nat, id: BlockId, st: Stat, deadlineMs: int, c: WarmCommand)
    requires Sorted(r.vnodes) && Sorted(r'.vnodes) && |id| == HASH_SIZE
    ensures c in Due(r, r', rf, id, st, deadlineMs) <==>
      && c.id == id && c.parent == st.parent && c.model == st.model && c.deadlineMs == deadlineMs
      && c.source != "" && c.source == SourceOf(OwnersOf(r, id, rf), r'.addrs)
      && c.target in OwnersOf(r', id, rf) && c.target !in OwnersOf(r, id, rf)
  {
    var was, will := OwnersOf(r, id, rf), OwnersOf(r', id, rf);
    var source, targets := SourceOf(was, r'.addrs), Targets(will, was);
    TargetsAre(will, was, c.target);
    var due := Commands(id, st, source, targets, deadlineMs);
    if c.target in targets {
      var i :| 0 <= i < |targets| && targets[i] == c.target;
      assert due[i] in due && due[i] == WarmCommand(id, st.parent, st.model, source, c.target, deadlineMs);
    }
    assert forall i :: 0 <= i < |due| ==> due[i].target == targets[i];
  }

  /** The address a ring has for a node is that of the node's last entry in the membership. */
  lemma {:induction false} AddrsAreLast(nodes: seq<NodeInfo>, id: NodeId)
    ensures id in Addrs(nodes) <==> exists k :: 0 <= k < |nodes| && nodes[k].id == id
    ensures forall k :: 0 <= k < |nodes| && nodes[k].id == id && (forall j :: k < j < |nodes| ==> nodes[j].id != id) ==>
      Addrs(nodes)[id] == nodes[k].addr
  {
    if nodes == [] {
    } else {
      var n := |nodes| - 1;
      var init := nodes[..n];
      AddrsAreLast(init, id);
      assert forall k :: 0 <= k < n ==> init[k] == nodes[k];
    }
  }

  /** No two commands name the same block and target. */
  ghost predicate OncePerTarget(cmds: seq<WarmCommand>) {
    forall i, j :: 0 <= i < j < |cmds| ==> cmds[i].id != cmds[j].id || cmds[i].target != cmds[j].target
  }

  lemma {:induction false} TargetsOnce(will: seq<NodeId>, was: seq<NodeId>)
    requires NoRepeat(will)
    ensures NoRepeat(Targets(will, was))
  {
    if will == [] {
    } else {
      TargetsOnce(will[..|will| - 1], was);
      TargetsAre(will[..|will| - 1], was, will[|will| - 1]);
    }
  }

  class Prefetcher {
    const rf: nat
    const threshold: real
    const halfLifeMs: int
    const maxTracked: int
    const warmDeadlineMs: int
    var blocks: map<BlockId, Stat>
    /** The ring last planned against, and how it was laid out. */
    var ring: Option<Ring>
    ghost var layout: Layout

    ghost predicate Valid()
      reads this
    {
      && (ring.Some? ==> Built(ring.value, layout) && layout.perNode > 0)
      && (forall id :: id in blocks ==> |id| == HASH_SIZE)
    }

    constructor (rf: nat, threshold: real, halfLifeMs: nat, maxTracked: nat, warmDeadlineMs: nat)
      ensures Valid() && ring.None? && blocks == map[]
      ensures this.rf == (if rf == 0 then 2 else rf) && this.threshold == (if threshold == 0.0 then 2.0 else threshold)
      ensures this.halfLifeMs == if halfLifeMs == 0 then 60000 else halfLifeMs
      ensures this.maxTracked == if maxTracked == 0 then 100000 else maxTracked
      ensures this.warmDeadlineMs == if warmDeadlineMs == 0 then 30000 else warmDeadlineMs
    {
      this.rf, this.threshold := if rf == 0 then 2 else rf, if threshold == 0.0 then 2.0 else threshold;
      this.halfLifeMs := if halfLifeMs == 0 then 60000 else halfLifeMs;
      this.maxTracked := if maxTracked == 0 then 100000 else maxTracked;
      this.warmDeadlineMs := if warmDeadlineMs == 0 then 30000 else warmDeadlineMs;
      blocks, ring := map[], None;
    }

    /** Whether a block's demand, cooled over the time since it was last seen, is high enough to warm it. */
    predicate Hot(st: Stat, now: real, cooled: (real, real) -> real) {
      cooled(st.demand, now - st.lastSeen) >= threshold
    }

    /** A command that the change from r to r' calls for. */
    ghost predicate Wanted(r: Ring, r': Ring, now: real, nowMs: int, cooled: (real, real) -> real, c: WarmCommand)
      requires Valid() && Sorted(r.vnodes) && Sorted(r'.vnodes)
      reads this
    {
      && c.id in blocks && Hot(blocks[c.id], now, cooled)
      && c in Due(r, r', rf, c.id, blocks[c.id], nowMs + warmDeadlineMs)
    }

    method PlanBlock(r: Ring, r': Ring, id: BlockId, st: Stat, deadlineMs: int, ghost l: Layout, ghost l': Layout)
        returns (cmds: seq<WarmCommand>)
      requires Built(r, l) && Built(r', l') && l.perNode > 0 && l'.perNode > 0 && |id| == HASH_SIZE
      ensures cmds == Due(r, r', rf, id, st, deadlineMs) && OncePerTarget(cmds)
      ensures forall c :: c in cmds ==> c.id == id
    {
      var was := Owners(r, id, rf, l);
      var will := Owners(r', id, rf, l');
      var source, wasSet := FindSource(was, r'.addrs);
      if source == "" {
        return [];
      }
      var targets := FindTargets(will, was, wasSet);
      OwnersCount(r', l', id, rf, rf);
      TargetsOnce(will, was);
      NoRepeatIff(targets);
      cmds := Commands(id, st, source, targets, deadlineMs);
    }

    method PlanIfHot(r: Ring, r': Ring, id: BlockId, now: real, nowMs: int, cooled: (real, real) -> real,
                     ghost l: Layout, ghost l': Layout)
        returns (cmds: seq<WarmCommand>)
      requires Valid() && Built(r, l) && Built(r', l') && l.perNode > 0 && l'.perNode > 0 && id in blocks
      ensures OncePerTarget(cmds)
      ensures forall c :: c in cmds <==> c.id == id && Wanted(r, r', now, nowMs, cooled, c)
    {
      ghost var due := Due(r, r', rf, id, blocks[id], nowMs + warmDeadlineMs);
      cmds := [];
      if Hot(blocks[id], now, cooled) {
        cmds := PlanBlock(r, r', id, blocks[id], nowMs + warmDeadlineMs, l, l');
      }
      forall c
        ensures c in cmds <==> c.id == id && Wanted(r, r', now, nowMs, cooled, c)
      {
        assert c.id == id ==> (Wanted(r, r', now, nowMs, cooled, c) <==> Hot(blocks[id], now, cooled) && c in due);
      }
    }

    /** OnRing: plans nothing for the first ring or for one that is not newer. */
    method OnRing(epoch: nat, nodes: seq<NodeInfo>, vnodesPerNode: int, hash: (NodeId, nat) -> nat,
                  now: real, nowMs: int, cooled: (real, real) -> real) returns (cmds: seq<WarmCommand>)
      requires Valid()
      modifies this`ring, this`layout
      ensures Valid() && ring.Some? && ring.value.epoch == epoch && ring.value.addrs == Addrs(nodes)
      ensures layout == Layout(if vnodesPerNode <= 0 then 128 else vnodesPerNode, hash)
      ensures OncePerTarget(cmds)
      ensures old(ring).None? || epoch <= old(ring).value.epoch ==> cmds == []
      ensures old(ring).Some? && epoch > old(ring).value.epoch ==>
        forall c :: c in cmds <==>
          && c.id in blocks && cooled(blocks[c.id].demand, now - blocks[c.id].lastSeen) >= threshold
          && c in Due(old(ring).value, ring.value, rf, c.id, blocks[c.id], nowMs + warmDeadlineMs)
    {
      var addrs: map<NodeId, string> := map[];
      for k := 0 to |nodes|
        invariant addrs == Addrs(nodes[..k])
      {
        assert nodes[..k + 1][..k] == nodes[..k];
        addrs := addrs[nodes[k].id := nodes[k].addr];
      }
      assert nodes[..|nodes|] == nodes;
      var r' := New(epoch, addrs, vnodesPerNode, hash);
      var was := ring;
      ghost var l := layout;
      ring, layout := Some(r'), Layout(PerNode(vnodesPerNode), hash);
      cmds := [];
      if was.None? || epoch <= was.value.epoch {
        return;
      }
      cmds := PlanAll(was.value, r', now, nowMs, cooled, l, layout);
    }

    method PlanAll(r: Ring, r': Ring, now: real, nowMs: int, cooled: (real, real) -> real, ghost l: Layout,
                   ghost l': Layout)
        returns (cmds: seq<WarmCommand>)
      requires Valid() && Built(r, l) && Built(r', l') && l.perNode > 0 && l'.perNode > 0
      ensures OncePerTarget(cmds)
      ensures forall c :: c in cmds <==> Wanted(r, r', now, nowMs, cooled, c)
    {
      cmds := [];
      var todo := blocks.Keys;
      while todo != {}
        invariant todo <= blocks.Keys && OncePerTarget(cmds)
        invariant forall c :: c in cmds <==> c.id !in todo && Wanted(r, r', now, nowMs, cooled, c)
      {
        var id :| id in todo;
        var more := PlanIfHot(r, r', id, now, nowMs, cooled, l, l');
        OnceTogether(cmds, more, id);
        cmds := cmds + more;
        todo := todo - {id};
      }
    }
  }

  lemma OnceTogether(a: seq<WarmCommand>, b: seq<WarmCommand>, id: BlockId)
    requires OncePerTarget(a) && OncePerTarget(b)
    requires (forall c :: c in a ==> c.id != id) && forall c :: c in b ==> c.id == id
    ensures OncePerTarget(a + b)
  {
    forall i, j | 0 <= i < j < |a + b|
      ensures (a + b)[i].id != (a + b)[j].id || (a + b)[i].target != (a + b)[j].target
    {
      assert i < |a| ==> a[i] in a;
      assert j >= |a| ==> b[j - |a|] in b;
    }
  }

  lemma TargetsAllAre(will: seq<NodeId>, was: seq<NodeId>, only: NodeId)
    requires NoRepeat(will) && forall y :: y in will ==> y in was || y == only
    ensures |Targets(will, was)| <= 1
  {
    var targets := Targets(will, was);
    TargetsOnce(will, was);
    NoRepeatIff(targets);
    assert |targets| <= 1 || targets[0] != targets[1];
    forall i | 0 <= i < |targets|
      ensures targets[i] == only
    {
      TargetsAre(will, was, targets[i]);
    }
  }

  /** A single join or leave asks for at most one copy of each block. */
  lemma OneCopyPerChange(r: Ring, r': Ring, l: Layout, x: NodeId, rf: nat, id: BlockId, st: Stat, deadlineMs: int)
    requires Built(r, l) && Built(r', l) && l.perNode > 0 && |id| == HASH_SIZE && (Joins(r, r', x) || Joins(r', r, x))
    ensures |Due(r, r', rf, id, st, deadlineMs)| <= 1
  {
    var was, will := OwnersOf(r, id, rf), OwnersOf(r', id, rf);
    OwnersCount(r', l, id, rf, rf);
    if Joins(r, r', x) {
      OneOwnerChanges(r, r', l, x, id, rf);
      TargetsAllAre(will, was, x);
    } else {
      OneOwnerChanges(r', r, l, x, id, rf);
      TargetsAllAre(will, was, if will == [] then x else will[|will| - 1]);
    }
  }
}
