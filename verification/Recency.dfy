/**
 * The simple store both block stores stand for: a recency list of weighted blocks, most recent
 * first, under a capacity. A block's weight is its pages (paged store) or its bytes (LRU store).
 */
module Recency {
  import opened BlockTypes
  import opened Sequences

  datatype Item = Item(block: Block, weight: nat)

  function Total(l: seq<Item>): nat {
    if l == [] then 0 else Total(l[..|l| - 1]) + l[|l| - 1].weight
  }

  predicate At(l: seq<Item>, i: nat, id: BlockId) {
    i < |l| && l[i].block.id == id
  }

  ghost predicate Has(l: seq<Item>, id: BlockId) {
    exists i: nat :: At(l, i, id)
  }

  ghost predicate Distinct(l: seq<Item>) {
    forall i, j :: 0 <= i < j < |l| ==> l[i].block.id != l[j].block.id
  }

  /** A block that is touched moves to the front; an unknown id changes nothing. */
  ghost function Touched(l: seq<Item>, id: BlockId): seq<Item> {
    if Has(l, id) then
      var k: nat :| At(l, k, id); ToFront(l, k)
    else l
  }

  /** Drops blocks from the old end until the rest weighs at most `budget`. */
  function Trim(l: seq<Item>, budget: nat): seq<Item> {
    if Total(l) <= budget then l else Trim(l[..|l| - 1], budget)
  }

  /** Whether a new block can ever be stored. */
  predicate Fits(item: Item, capacity: nat) {
    0 < item.weight <= capacity
  }

  /** Put: touch a known block, refuse one that cannot fit, else make room at the old end. */
  ghost function AfterPut(l: seq<Item>, item: Item, capacity: nat): seq<Item> {
    if Has(l, item.block.id) then Touched(l, item.block.id)
    else if !Fits(item, capacity) then l
    else [item] + Trim(l, capacity - item.weight)
  }

  ghost predicate Stores(l: seq<Item>, item: Item, capacity: nat) {
    !Has(l, item.block.id) && Fits(item, capacity)
  }

  lemma StoredPut(l: seq<Item>, item: Item, capacity: nat)
    requires Stores(l, item, capacity)
    ensures AfterPut(l, item, capacity) == [item] + Trim(l, capacity - item.weight)
  {
  }

  // ----- weights -----

  lemma {:induction false} TotalAppend(a: seq<Item>, b: seq<Item>)
    ensures Total(a + b) == Total(a) + Total(b)
  {
    if b == [] {
      assert a + b == a;
    } else {
      TotalAppend(a, b[..|b| - 1]);
      assert (a + b)[..|a + b| - 1] == a + b[..|b| - 1];
    }
  }

  lemma TotalOne(item: Item)
    ensures Total([item]) == item.weight
  {
    assert [item][..0] == [];
  }

  lemma TotalFirst(l: seq<Item>)
    requires l != []
    ensures Total(l) == l[0].weight + Total(l[1..])
  {
    TotalAppend([l[0]], l[1..]);
    TotalOne(l[0]);
    assert [l[0]] + l[1..] == l;
  }

  lemma TotalSplit(l: seq<Item>, k: nat)
    requires k < |l|
    ensures Total(l) == Total(l[..k]) + l[k].weight + Total(l[k + 1..])
  {
    var back := l[k..];
    assert Total(l) == Total(l[..k]) + Total(back) by {
      TotalAppend(l[..k], back);
      assert l[..k] + back == l;
    }
    TotalFirst(back);
    assert back[1..] == l[k + 1..];
  }

  lemma TotalWithout(l: seq<Item>, k: nat)
    requires k < |l|
    ensures Total(Without(l, k)) == Total(l) - l[k].weight
    ensures Total(ToFront(l, k)) == Total(l)
  {
    TotalSplit(l, k);
    TotalAppend(l[..k], l[k + 1..]);
    TotalAppend([l[k]], Without(l, k));
    TotalOne(l[k]);
  }

  /** The prefill cost of the blocks in a list. */
  function Cost(l: seq<Item>): nat {
    Total(ByCost(l))
  }

  function ByCost(l: seq<Item>): seq<Item> {
    seq(|l|, i requires 0 <= i < |l| => Item(l[i].block, l[i].block.cost))
  }

  lemma CostWithout(l: seq<Item>, k: nat)
    requires k < |l|
    ensures Cost(l) == Cost(Without(l, k)) + l[k].block.cost
  {
    assert ByCost(Without(l, k)) == Without(ByCost(l), k);
    TotalWithout(ByCost(l), k);
  }

  lemma CostToFront(l: seq<Item>, k: nat)
    requires k < |l|
    ensures Cost(ToFront(l, k)) == Cost(l)
  {
    CostWithout(l, k);
    CostFront(l[k], Without(l, k));
  }

  lemma CostFront(item: Item, l: seq<Item>)
    ensures Cost([item] + l) == item.block.cost + Cost(l)
  {
    CostWithout([item] + l, 0);
    assert Without([item] + l, 0) == l;
  }

  /** Trim keeps the longest run of recent blocks that fits: it evicts no more than it must. */
  lemma {:induction false} TrimKeepsLongestPrefix(l: seq<Item>, budget: nat)
    ensures Trim(l, budget) <= l && Total(Trim(l, budget)) <= budget
    ensures forall n :: |Trim(l, budget)| < n <= |l| ==> Total(l[..n]) > budget
  {
    if Total(l) <= budget {
    } else {
      var init := l[..|l| - 1];
      TrimKeepsLongestPrefix(init, budget);
      forall n | |Trim(l, budget)| < n <= |l|
        ensures Total(l[..n]) > budget
      {
        assert n < |l| ==> init[..n] == l[..n];
        assert l[..|l|] == l;
      }
    }
  }

  // ----- what every operation keeps -----

  ghost predicate Ok(l: seq<Item>, capacity: nat) {
    Distinct(l) && Total(l) <= capacity && forall i :: 0 <= i < |l| ==> l[i].weight > 0
  }

  lemma TouchedPlace(l: seq<Item>, id: BlockId) returns (k: nat)
    requires Has(l, id)
    ensures At(l, k, id) && Touched(l, id) == ToFront(l, k)
  {
    k :| At(l, k, id) && Touched(l, id) == ToFront(l, k);
  }

  /** A touch loses no block and no cost. */
  lemma TouchedSame(l: seq<Item>, id: BlockId)
    ensures |Touched(l, id)| == |l| && Cost(Touched(l, id)) == Cost(l)
  {
    if Has(l, id) {
      var k := TouchedPlace(l, id);
      CostToFront(l, k);
    }
  }

  lemma TouchedIs(l: seq<Item>, k: nat, id: BlockId)
    requires Distinct(l) && At(l, k, id)
    ensures Touched(l, id) == ToFront(l, k)
  {
  }

  lemma ToFrontOk(l: seq<Item>, k: nat, capacity: nat)
    requires Ok(l, capacity) && k < |l|
    ensures Ok(ToFront(l, k), capacity)
  {
    TotalWithout(l, k);
  }

  lemma TouchedOk(l: seq<Item>, id: BlockId, capacity: nat)
    requires Ok(l, capacity)
    ensures Ok(Touched(l, id), capacity)
  {
    if Has(l, id) {
      var k: nat :| At(l, k, id);
      TouchedIs(l, k, id);
      ToFrontOk(l, k, capacity);
    }
  }

  lemma PutOk(l: seq<Item>, item: Item, capacity: nat)
    requires Ok(l, capacity)
    ensures Ok(AfterPut(l, item, capacity), capacity)
  {
    TouchedOk(l, item.block.id, capacity);
    if Stores(l, item, capacity) {
      var rest := Trim(l, capacity - item.weight);
      TrimKeepsLongestPrefix(l, capacity - item.weight);
      TotalAppend([item], rest);
      TotalOne(item);
      forall i | 0 <= i < |rest|
        ensures rest[i].block.id != item.block.id
      {
        assert !At(l, i, item.block.id);
      }
    }
  }

  // ----- whole histories -----

  datatype Op = Put(item: Item) | Use(id: BlockId)

  function IdOf(op: Op): BlockId {
    match op
    case Put(item) => item.block.id
    case Use(id) => id
  }

  /** The list after a history of puts and uses, starting empty. */
  ghost function After(ops: seq<Op>, capacity: nat): seq<Item> {
    if ops == [] then []
    else
      var l := After(ops[..|ops| - 1], capacity);
      match ops[|ops| - 1]
      case Put(item) => AfterPut(l, item, capacity)
      case Use(id) => Touched(l, id)
  }

  lemma {:induction false} AfterOk(ops: seq<Op>, capacity: nat)
    ensures Ok(After(ops, capacity), capacity)
  {
    if ops == [] {
    } else {
      var l := After(ops[..|ops| - 1], capacity);
      AfterOk(ops[..|ops| - 1], capacity);
      match ops[|ops| - 1]
      case Put(item) => PutOk(l, item, capacity);
      case Use(id) => TouchedOk(l, id, capacity);
    }
  }

  /** When an id was last put or used: the position of that operation plus one, or 0. */
  function LastUse(ops: seq<Op>, id: BlockId): nat {
    if ops == [] then 0
    else if IdOf(ops[|ops| - 1]) == id then |ops|
    else LastUse(ops[..|ops| - 1], id)
  }

  lemma {:induction false} LastUseBounded(ops: seq<Op>, id: BlockId)
    ensures LastUse(ops, id) <= |ops|
  {
    if ops == [] {
    } else {
      LastUseBounded(ops[..|ops| - 1], id);
    }
  }

  ghost predicate ByLastUse(ops: seq<Op>, l: seq<Item>) {
    && (forall i :: 0 <= i < |l| ==> LastUse(ops, l[i].block.id) > 0)
    && (forall i, j :: 0 <= i < j < |l| ==> LastUse(ops, l[i].block.id) > LastUse(ops, l[j].block.id))
  }

  /** Putting `front` before older survivors, none of them the id of the newest operation, stays in order. */
  lemma FrontIsNewest(ops: seq<Op>, op: Op, front: Item, rest: seq<Item>)
    requires ByLastUse(ops, rest) && front.block.id == IdOf(op)
    requires forall i :: 0 <= i < |rest| ==> rest[i].block.id != IdOf(op)
    ensures ByLastUse(ops + [op], [front] + rest)
  {
    var l := [front] + rest;
    assert (ops + [op])[..|ops|] == ops;
    forall i | 0 < i < |l|
      ensures LastUse(ops + [op], l[i].block.id) == LastUse(ops, rest[i - 1].block.id) <= |ops|
    {
      LastUseBounded(ops, rest[i - 1].block.id);
    }
  }

  lemma WithoutInOrder(ops: seq<Op>, l: seq<Item>, k: nat)
    requires ByLastUse(ops, l) && Distinct(l) && k < |l|
    ensures ByLastUse(ops, Without(l, k))
    ensures forall i :: 0 <= i < |Without(l, k)| ==> Without(l, k)[i].block.id != l[k].block.id
  {
  }

  lemma UntouchedInOrder(ops: seq<Op>, op: Op, l: seq<Item>)
    requires ByLastUse(ops, l) && !Has(l, IdOf(op))
    ensures ByLastUse(ops + [op], l)
  {
    assert (ops + [op])[..|ops|] == ops;
    forall i | 0 <= i < |l|
      ensures LastUse(ops + [op], l[i].block.id) == LastUse(ops, l[i].block.id)
    {
      assert !At(l, i, IdOf(op));
    }
  }

  lemma TouchInOrder(ops: seq<Op>, op: Op, l: seq<Item>)
    requires ByLastUse(ops, l) && Distinct(l)
    ensures ByLastUse(ops + [op], Touched(l, IdOf(op)))
  {
    if Has(l, IdOf(op)) {
      var k: nat :| At(l, k, IdOf(op));
      TouchedIs(l, k, IdOf(op));
      WithoutInOrder(ops, l, k);
      FrontIsNewest(ops, op, l[k], Without(l, k));
    } else {
      UntouchedInOrder(ops, op, l);
    }
  }

  /** After every history the list is sorted by last use, so what Trim drops was used least recently. */
  lemma {:induction false} ListIsByLastUse(ops: seq<Op>, capacity: nat)
    ensures ByLastUse(ops, After(ops, capacity))
  {
    if ops == [] {
    } else {
      var init, op := ops[..|ops| - 1], ops[|ops| - 1];
      var l := After(init, capacity);
      ListIsByLastUse(init, capacity);
      AfterOk(init, capacity);
      assert init + [op] == ops;
      if op.Put? && !Has(l, op.item.block.id) {
        if Fits(op.item, capacity) {
          var budget := capacity - op.item.weight;
          TrimKeepsLongestPrefix(l, budget);
          forall i | 0 <= i < |Trim(l, budget)|
            ensures Trim(l, budget)[i].block.id != IdOf(op)
          {
            assert !At(l, i, IdOf(op));
          }
          FrontIsNewest(init, op, op.item, Trim(l, budget));
        } else {
          UntouchedInOrder(init, op, l);
        }
      } else {
        TouchInOrder(init, op, l);
      }
    }
  }

  // ----- histories under any policy -----

  /** `rest` is `l` after evictions, each of them made while the list was over budget. */
  ghost predicate Evicted(rest: seq<Item>, l: seq<Item>, budget: nat) {
    rest == l || exists more, k: nat :: LastEviction(more, k, rest, l, budget)
  }

  /** `more`, still over budget, is what was left of `l` before the last eviction. */
  ghost predicate LastEviction(more: seq<Item>, k: nat, rest: seq<Item>, l: seq<Item>, budget: nat) {
    Sublist(more, l) && Total(more) > budget && k < |more| && rest == Without(more, k)
  }

  /** What both stores and both eviction policies do: only which blocks are evicted is left open. */
  ghost predicate Step(l: seq<Item>, op: Op, l': seq<Item>, capacity: nat) {
    if op.Put? && Stores(l, op.item, capacity)
    then l' != [] && l'[0] == op.item && Total(l') <= capacity && Evicted(l'[1..], l, capacity - op.item.weight)
    else l' == if Has(l, IdOf(op)) then Touched(l, IdOf(op)) else l
  }

  ghost predicate History(lists: seq<seq<Item>>, ops: seq<Op>, capacity: nat) {
    && |lists| == |ops| + 1 && lists[0] == []
    && forall k {:trigger StepAt(lists, ops, capacity, k)} :: 0 <= k < |ops| ==> StepAt(lists, ops, capacity, k)
  }

  ghost predicate StepAt(lists: seq<seq<Item>>, ops: seq<Op>, capacity: nat, k: nat) {
    k < |ops| && k + 1 < |lists| && Step(lists[k], ops[k], lists[k + 1], capacity)
  }

  lemma StoreIsStep(l: seq<Item>, item: Item, rest: seq<Item>, capacity: nat)
    requires Stores(l, item, capacity) && Evicted(rest, l, capacity - item.weight) && Total([item] + rest) <= capacity
    ensures Step(l, Put(item), [item] + rest, capacity)
  {
    assert ([item] + rest)[1..] == rest;
  }

  /** A put that stores nothing is a step of the recency list under any policy. */
  lemma RefusalIsStep(l: seq<Item>, item: Item, capacity: nat)
    requires !Stores(l, item, capacity)
    ensures Step(l, Put(item), AfterPut(l, item, capacity), capacity)
  {
  }

  lemma EvictedIsSublist(rest: seq<Item>, l: seq<Item>, budget: nat)
    requires Evicted(rest, l, budget)
    ensures Sublist(rest, l)
  {
    if rest == l {
      SublistRefl(l);
    } else {
      var more, k: nat :| LastEviction(more, k, rest, l, budget);
      SublistWithout(more, k);
      SublistTrans(rest, more, l);
    }
  }

  lemma TouchedHolds(l: seq<Item>, id: BlockId, item: Item)
    ensures item in Touched(l, id) <==> item in l
  {
    if Has(l, id) {
      var k := TouchedPlace(l, id);
      ToFrontHolds(l, k, item);
    }
  }

  lemma ToFrontHolds(l: seq<Item>, k: nat, item: Item)
    requires k < |l|
    ensures item in ToFront(l, k) <==> item in l
  {
    assert l == l[..k] + [l[k]] + l[k + 1..];
  }

  /** A step brings in nothing but the block that it stores. */
  lemma StepBrings(l: seq<Item>, op: Op, l': seq<Item>, capacity: nat, item: Item)
    requires Step(l, op, l', capacity) && item in l'
    ensures item in l || (op == Put(item) && Stores(l, item, capacity))
  {
    if op.Put? && Stores(l, op.item, capacity) {
      assert l' == [l'[0]] + l'[1..];
      if item != l'[0] {
        EvictedIsSublist(l'[1..], l, capacity - op.item.weight);
        SublistIn(l'[1..], l, item);
      }
    } else {
      TouchedHolds(l, IdOf(op), item);
    }
  }

  /** Some Put of the history stored the item, and it has been held ever since. */
  ghost predicate StoredAt(lists: seq<seq<Item>>, ops: seq<Op>, capacity: nat, item: Item, j: nat)
    requires |lists| == |ops| + 1
  {
    && j < |ops| && ops[j] == Put(item) && Stores(lists[j], item, capacity)
    && forall m :: j < m <= |ops| ==> item in lists[m]
  }

  /** Whatever came between, and whatever the policy evicts: a held block is byte for byte one that a Put of the
      history stored, and that has not left the store since. */
  lemma {:induction false} HeldSinceStored(lists: seq<seq<Item>>, ops: seq<Op>, capacity: nat, item: Item)
      returns (j: nat)
    requires History(lists, ops, capacity) && item in lists[|ops|]
    ensures StoredAt(lists, ops, capacity, item, j)
  {
    if |ops| == 0 {
      assert false;
    } else {
      var k := |ops| - 1;
      assert StepAt(lists, ops, capacity, k);
      if item in lists[k] {
        HistoryBefore(lists, ops, capacity);
        j := HeldSinceStored(lists[..k + 1], ops[..k], capacity, item);
        forall m | j < m <= |ops|
          ensures item in lists[m]
        {
          assert m <= k ==> lists[..k + 1][m] == lists[m];
        }
      } else {
        StepBrings(lists[k], ops[k], lists[k + 1], capacity, item);
        j := k;
      }
    }
  }

  lemma HistoryBefore(lists: seq<seq<Item>>, ops: seq<Op>, capacity: nat)
    requires History(lists, ops, capacity) && |ops| > 0
    ensures History(lists[..|ops|], ops[..|ops| - 1], capacity)
  {
    var lists', ops' := lists[..|ops|], ops[..|ops| - 1];
    forall k | 0 <= k < |ops'|
      ensures StepAt(lists', ops', capacity, k)
    {
      assert StepAt(lists, ops, capacity, k);
    }
  }

  lemma {:induction false} SublistOk(s: seq<Item>, t: seq<Item>)
    requires Sublist(s, t) && Distinct(t) && forall i :: 0 <= i < |t| ==> t[i].weight > 0
    ensures Distinct(s) && forall i :: 0 <= i < |s| ==> s[i].weight > 0
    decreases |t|
  {
    if s == [] {
    } else if s[0] == t[0] && Sublist(s[1..], t[1..]) {
      SublistOk(s[1..], t[1..]);
      forall i | 0 < i < |s|
        ensures s[i].block.id != s[0].block.id
      {
        SublistIn(s[1..], t[1..], s[i]);
      }
      assert s == [s[0]] + s[1..];
    } else {
      SublistOk(s, t[1..]);
    }
  }

  lemma StepOk(l: seq<Item>, op: Op, l': seq<Item>, capacity: nat)
    requires Ok(l, capacity) && Step(l, op, l', capacity)
    ensures Ok(l', capacity)
  {
    if op.Put? && Stores(l, op.item, capacity) {
      var rest := l'[1..];
      EvictedIsSublist(rest, l, capacity - op.item.weight);
      SublistOk(rest, l);
      assert l' == [op.item] + rest;
      forall i | 0 <= i < |rest|
        ensures rest[i].block.id != op.item.block.id
      {
        SublistIn(rest, l, rest[i]);
        var k: nat :| k < |l| && l[k] == rest[i];
        assert !At(l, k, op.item.block.id);
      }
    } else {
      TouchedOk(l, IdOf(op), capacity);
    }
  }

  /** In every history ids stay distinct and the weights within capacity. */
  lemma {:induction false} HistoryOk(lists: seq<seq<Item>>, ops: seq<Op>, capacity: nat)
    requires History(lists, ops, capacity)
    ensures Ok(lists[|ops|], capacity)
    decreases |ops|
  {
    if |ops| == 0 {
    } else {
      var k := |ops| - 1;
      assert StepAt(lists, ops, capacity, k);
      HistoryBefore(lists, ops, capacity);
      HistoryOk(lists[..k + 1], ops[..k], capacity);
      StepOk(lists[k], ops[k], lists[k + 1], capacity);
    }
  }

  // ----- the recency list is one such history -----

  lemma TrimIsEviction(l: seq<Item>, budget: nat)
    ensures Evicted(Trim(l, budget), l, budget)
  {
    TrimKeepsLongestPrefix(l, budget);
    var n := |Trim(l, budget)|;
    if n < |l| {
      var more := l[..n + 1];
      SublistPrefix(l, n + 1);
      assert Trim(l, budget) == Without(more, n);
      assert LastEviction(more, n, Trim(l, budget), l, budget);
    }
  }

  lemma PutIsStep(l: seq<Item>, item: Item, capacity: nat)
    requires Ok(l, capacity)
    ensures Step(l, Put(item), AfterPut(l, item, capacity), capacity)
  {
    if Stores(l, item, capacity) {
      var rest := Trim(l, capacity - item.weight);
      TrimIsEviction(l, capacity - item.weight);
      PutOk(l, item, capacity);
      assert ([item] + rest)[1..] == rest;
    }
  }

  /** The lists after every prefix of the operations. */
  ghost function Lists(ops: seq<Op>, capacity: nat): seq<seq<Item>> {
    seq(|ops| + 1, k requires 0 <= k <= |ops| => After(ops[..k], capacity))
  }

  lemma AfterIsHistory(ops: seq<Op>, capacity: nat)
    ensures History(Lists(ops, capacity), ops, capacity)
  {
    forall k: nat | k < |ops|
      ensures StepAt(Lists(ops, capacity), ops, capacity, k)
    {
      assert ops[..k + 1][..k] == ops[..k];
      AfterOk(ops[..k], capacity);
      if ops[k].Put? {
        PutIsStep(After(ops[..k], capacity), ops[k].item, capacity);
      }
    }
  }

  /** Under LRU: a held block was stored by a Put of the history, and has been held ever since. */
  lemma HeldWasPut(ops: seq<Op>, capacity: nat, item: Item) returns (j: nat)
    requires item in After(ops, capacity)
    ensures StoredAt(Lists(ops, capacity), ops, capacity, item, j)
  {
    AfterIsHistory(ops, capacity);
    assert ops[..|ops|] == ops;
    j := HeldSinceStored(Lists(ops, capacity), ops, capacity, item);
  }

  // ----- what stays held -----

  lemma ToFrontKeeps(l: seq<Item>, k: nat, id: BlockId)
    requires k < |l|
    ensures Has(ToFront(l, k), id) <==> Has(l, id)
  {
    var l' := ToFront(l, k);
    if i: nat :| At(l, i, id) {
      assert At(l', if i < k then i + 1 else if i == k then 0 else i, id);
    }
    if i: nat :| At(l', i, id) {
      assert At(l, if i == 0 then k else if i <= k then i - 1 else i, id);
    }
  }

  lemma TouchedKeeps(l: seq<Item>, touched: BlockId, id: BlockId)
    ensures Has(Touched(l, touched), id) <==> Has(l, id)
  {
    if Has(l, touched) {
      var k := TouchedPlace(l, touched);
      ToFrontKeeps(l, k, id);
    }
  }

  /** A block that fits beside what is held becomes held, and nothing is evicted for it. */
  lemma PutBesideOthers(l: seq<Item>, item: Item, capacity: nat, id: BlockId)
    requires Fits(item, capacity) && Total(l) + item.weight <= capacity
    ensures Has(AfterPut(l, item, capacity), id) <==> Has(l, id) || id == item.block.id
  {
    if Has(l, item.block.id) {
      TouchedKeeps(l, item.block.id, id);
    } else {
      var l' := [item] + l;
      if i: nat :| At(l, i, id) {
        assert At(l', i + 1, id);
      }
      if i: nat :| At(l', i, id) {
        assert i > 0 ==> At(l, i - 1, id);
      }
      assert At(l', 0, item.block.id);
    }
  }
}
