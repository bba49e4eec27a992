/**
 * What a byte-budget store holds after a chain of blocks was put into it, and when the blocks it lost all come after
 * those it holds: exactly when the blocks that fit come first and fit together.
 */
module Gaps {
  import opened BlockTypes
  import opened Sequences
  import opened Recency
  import opened LruStore
  import opened CacheNode

  ghost predicate DistinctBlocks(blocks: seq<Block>) {
    forall i, j :: 0 <= i < j < |blocks| ==> blocks[i].id != blocks[j].id
  }

  /** The blocks from n on that fit the store at all, newest first. */
  function Newest(blocks: seq<Block>, n: nat, capacity: nat): seq<Item> {
    if |blocks| <= n then []
    else
      var k := |blocks| - 1;
      var rest := Newest(blocks[..k], n, capacity);
      if Fits(Sized(blocks[k]), capacity) then [Sized(blocks[k])] + rest else rest
  }

  /** What the blocks from n on weigh that fit the store at all. */
  function WeightFrom(blocks: seq<Block>, n: nat, capacity: nat): nat {
    Total(Newest(blocks, n, capacity))
  }

  // ----- trimming -----

  lemma TrimIsLongest(l: seq<Item>, budget: nat, n: nat)
    requires n <= |l| && Total(l[..n]) <= budget && forall m :: n < m <= |l| ==> Total(l[..m]) > budget
    ensures Trim(l, budget) == l[..n]
  {
    TrimKeepsLongestPrefix(l, budget);
    var k := |Trim(l, budget)|;
    assert Trim(l, budget) == l[..k];
  }

  lemma TrimTwice(l: seq<Item>, more: nat, less: nat)
    requires less <= more
    ensures Trim(Trim(l, more), less) == Trim(l, less)
  {
    var t := Trim(l, more);
    TrimKeepsLongestPrefix(l, more);
    TrimKeepsLongestPrefix(t, less);
    var n := |Trim(t, less)|;
    assert Trim(t, less) == l[..n];
    forall m | n < m <= |l|
      ensures Total(l[..m]) > less
    {
      if m <= |t| {
        assert t[..m] == l[..m];
      }
    }
    TrimIsLongest(l, less, n);
  }

  lemma TrimBehind(item: Item, l: seq<Item>, budget: nat)
    requires item.weight <= budget
    ensures Trim([item] + l, budget) == [item] + Trim(l, budget - item.weight)
  {
    var t := Trim(l, budget - item.weight);
    TrimKeepsLongestPrefix(l, budget - item.weight);
    var all := [item] + l;
    assert forall m :: 0 < m <= |all| ==> all[..m] == [item] + l[..m - 1];
    forall m | 0 < m <= |all|
      ensures Total(all[..m]) == item.weight + Total(l[..m - 1])
    {
      TotalAppend([item], l[..m - 1]);
      TotalOne(item);
    }
    assert all[..|t| + 1] == [item] + t && l[..|t|] == t;
    TrimIsLongest(all, budget, |t| + 1);
  }

  // ----- what the store holds -----

  lemma {:induction false} NewestIsGiven(blocks: seq<Block>, n: nat, capacity: nat, k: nat) returns (i: nat)
    requires k < |Newest(blocks, n, capacity)|
    ensures n <= i < |blocks| && Newest(blocks, n, capacity)[k] == Sized(blocks[i]) && Fits(Sized(blocks[i]), capacity)
    decreases |blocks|
  {
    var last := |blocks| - 1;
    if Fits(Sized(blocks[last]), capacity) && k == 0 {
      i := last;
    } else {
      i := NewestIsGiven(blocks[..last], n, capacity, if Fits(Sized(blocks[last]), capacity) then k - 1 else k);
    }
  }

  lemma NotYetHeld(blocks: seq<Block>, capacity: nat, l: seq<Item>, k: nat)
    requires DistinctBlocks(blocks) && k < |blocks| && l <= Newest(blocks[..k], 0, capacity)
    ensures !Has(l, blocks[k].id)
  {
    if p: nat :| At(l, p, blocks[k].id) {
      var i := NewestIsGiven(blocks[..k], 0, capacity, p);
    }
  }

  lemma PutInFront(older: seq<Item>, item: Item, capacity: nat)
    requires !Has(Trim(older, capacity), item.block.id)
    ensures AfterPut(Trim(older, capacity), item, capacity)
         == Trim(if Fits(item, capacity) then [item] + older else older, capacity)
  {
    if Fits(item, capacity) {
      TrimTwice(older, capacity, capacity - item.weight);
      TrimBehind(item, older, capacity);
    }
  }

  /** After putting blocks with distinct ids into an empty store: the longest run of the newest that fit at all. */
  lemma {:induction false} HeldIsNewest(blocks: seq<Block>, capacity: nat)
    requires DistinctBlocks(blocks)
    ensures PutAll([], blocks, capacity) == Trim(Newest(blocks, 0, capacity), capacity)
  {
    if blocks == [] {
    } else {
      var k := |blocks| - 1;
      var item, older := Sized(blocks[k]), Newest(blocks[..k], 0, capacity);
      HeldIsNewest(blocks[..k], capacity);
      TrimKeepsLongestPrefix(older, capacity);
      NotYetHeld(blocks, capacity, Trim(older, capacity), k);
      PutInFront(older, item, capacity);
    }
  }

  lemma {:induction false} NewestSplits(blocks: seq<Block>, n: nat, capacity: nat)
    requires n <= |blocks|
    ensures Newest(blocks, 0, capacity) == Newest(blocks, n, capacity) + Newest(blocks[..n], 0, capacity)
    decreases |blocks|
  {
    if |blocks| == n {
      assert blocks[..n] == blocks;
    } else {
      var k := |blocks| - 1;
      NewestSplits(blocks[..k], n, capacity);
      assert blocks[..k][..n] == blocks[..n];
    }
  }

  /** Block i is the last of those from i on, if it fits. */
  lemma {:induction false} NewestEnds(blocks: seq<Block>, i: nat, capacity: nat)
    requires i < |blocks| && Fits(Sized(blocks[i]), capacity)
    ensures var l := Newest(blocks, i, capacity);
      l != [] && l[|l| - 1] == Sized(blocks[i])
    decreases |blocks|
  {
    var k := |blocks| - 1;
    if i == k {
      assert Newest(blocks[..k], i, capacity) == [];
    } else {
      NewestEnds(blocks[..k], i, capacity);
    }
  }

  lemma HeldIds(blocks: seq<Block>, capacity: nat, i: nat, p: nat)
    requires DistinctBlocks(blocks) && i < |blocks| && p < |Newest(blocks, 0, capacity)|
    requires Newest(blocks, 0, capacity)[p] == Sized(blocks[i])
    ensures forall n: nat :: n <= |Newest(blocks, 0, capacity)| ==>
      (Has(Newest(blocks, 0, capacity)[..n], blocks[i].id) <==> p < n)
  {
    var all := Newest(blocks, 0, capacity);
    forall n: nat | n <= |all|
      ensures Has(all[..n], blocks[i].id) <==> p < n
    {
      if p < n {
        assert At(all[..n], p, blocks[i].id);
      }
      if q: nat :| At(all[..n], q, blocks[i].id) {
        NewestOnce(blocks, capacity, p, q);
      }
    }
  }

  lemma {:induction false} NewestOnce(blocks: seq<Block>, capacity: nat, p: nat, q: nat)
    requires DistinctBlocks(blocks) && p < |Newest(blocks, 0, capacity)| && q < |Newest(blocks, 0, capacity)|
    requires Newest(blocks, 0, capacity)[p].block.id == Newest(blocks, 0, capacity)[q].block.id
    ensures p == q
    decreases |blocks|
  {
    var k := |blocks| - 1;
    if !Fits(Sized(blocks[k]), capacity) {
      NewestOnce(blocks[..k], capacity, p, q);
    } else if p > 0 && q > 0 {
      NewestOnce(blocks[..k], capacity, p - 1, q - 1);
    } else if p != q {
      var i := NewestIsGiven(blocks[..k], 0, capacity, (if p > q then p else q) - 1);
    }
  }

  lemma WeightMonotone(l: seq<Item>, m: nat, n: nat)
    requires m <= n <= |l|
    ensures Total(l[..m]) <= Total(l[..n])
  {
    TotalAppend(l[..m], l[m..n]);
    assert l[..m] + l[m..n] == l[..n];
  }

  /** A block is held exactly if it fits at all and the blocks from it on fit together. */
  lemma HeldIff(blocks: seq<Block>, capacity: nat, i: nat)
    requires DistinctBlocks(blocks) && i < |blocks|
    ensures Has(PutAll([], blocks, capacity), blocks[i].id)
      <==> Fits(Sized(blocks[i]), capacity) && WeightFrom(blocks, i, capacity) <= capacity
  {
    var all, front := Newest(blocks, 0, capacity), Newest(blocks, i, capacity);
    HeldIsNewest(blocks, capacity);
    TrimKeepsLongestPrefix(all, capacity);
    var n := |Trim(all, capacity)|;
    assert Trim(all, capacity) == all[..n];
    if Fits(Sized(blocks[i]), capacity) {
      NewestSplits(blocks, i, capacity);
      NewestEnds(blocks, i, capacity);
      var p := |front| - 1;
      HeldIds(blocks, capacity, i, p);
      assert all[..p + 1] == front;
      if p < n {
        WeightMonotone(all, p + 1, n);
      }
    } else {
      if q: nat :| At(all[..n], q, blocks[i].id) {
        var j := NewestIsGiven(blocks, 0, capacity, q);
      }
    }
  }

  // ----- when nothing held comes after a loss -----

  /** Whatever is held, everything before it in the chain is held too: past the first miss there are only misses. */
  ghost predicate GapFree(blocks: seq<Block>, held: seq<Item>) {
    forall i, j :: 0 <= i < j < |blocks| && Has(held, blocks[j].id) ==> Has(held, blocks[i].id)
  }

  /** The blocks that fit the store at all come before those that do not. */
  ghost predicate FitsFirst(blocks: seq<Block>, capacity: nat) {
    forall i, j :: 0 <= i < j < |blocks| && Fits(Sized(blocks[j]), capacity) ==> Fits(Sized(blocks[i]), capacity)
  }

  lemma {:induction false} WeightShrinks(blocks: seq<Block>, m: nat, n: nat, capacity: nat)
    requires m <= n
    ensures WeightFrom(blocks, n, capacity) <= WeightFrom(blocks, m, capacity)
    decreases |blocks|
  {
    if |blocks| <= n {
    } else {
      var k := |blocks| - 1;
      WeightShrinks(blocks[..k], m, n, capacity);
      TotalOne(Sized(blocks[k]));
      TotalAppend([Sized(blocks[k])], Newest(blocks[..k], m, capacity));
      TotalAppend([Sized(blocks[k])], Newest(blocks[..k], n, capacity));
    }
  }

  /** The last block that fits at all, which is always held. */
  lemma {:induction false} LastFitHeld(blocks: seq<Block>, capacity: nat, j: nat) returns (last: nat)
    requires DistinctBlocks(blocks) && j < |blocks| && Fits(Sized(blocks[j]), capacity)
    ensures j <= last < |blocks| && Fits(Sized(blocks[last]), capacity)
    ensures WeightFrom(blocks, last, capacity) <= capacity
    decreases |blocks|
  {
    var k := |blocks| - 1;
    if Fits(Sized(blocks[k]), capacity) {
      last := k;
      assert Newest(blocks[..k], k, capacity) == [];
      TotalOne(Sized(blocks[k]));
    } else {
      last := LastFitHeld(blocks[..k], capacity, j);
    }
  }

  /** Exactly when a chain put into an empty store leaves no gap: the fitting blocks come first and fit together. */
  lemma GapFreeIff(blocks: seq<Block>, capacity: nat)
    requires DistinctBlocks(blocks)
    ensures GapFree(blocks, PutAll([], blocks, capacity))
      <==> FitsFirst(blocks, capacity) && WeightFrom(blocks, 0, capacity) <= capacity
  {
    var held := PutAll([], blocks, capacity);
    forall i: nat | i < |blocks|
      ensures Has(held, blocks[i].id)
        <==> Fits(Sized(blocks[i]), capacity) && WeightFrom(blocks, i, capacity) <= capacity
      ensures WeightFrom(blocks, i, capacity) <= WeightFrom(blocks, 0, capacity)
    {
      HeldIff(blocks, capacity, i);
      WeightShrinks(blocks, 0, i, capacity);
    }
    if GapFree(blocks, held) {
      forall i, j | 0 <= i < j < |blocks| && Fits(Sized(blocks[j]), capacity)
        ensures Fits(Sized(blocks[i]), capacity)
      {
        var last := LastFitHeld(blocks, capacity, j);
        assert Has(held, blocks[last].id);
      }
      if j: nat :| j < |blocks| && Fits(Sized(blocks[j]), capacity) {
        var last := LastFitHeld(blocks, capacity, j);
        assert Has(held, blocks[last].id);
        assert Has(held, blocks[0].id);
      } else {
        NoneFits(blocks, capacity);
      }
    }
  }

  lemma {:induction false} NoneFits(blocks: seq<Block>, capacity: nat)
    requires forall j :: 0 <= j < |blocks| ==> !Fits(Sized(blocks[j]), capacity)
    ensures Newest(blocks, 0, capacity) == []
  {
    if blocks == [] {
    } else {
      NoneFits(blocks[..|blocks| - 1], capacity);
    }
  }

  /** The plain case: if every block fits alone, there is no gap exactly if all fit together. */
  lemma GapFreeIffAllFit(blocks: seq<Block>, capacity: nat)
    requires DistinctBlocks(blocks) && forall i :: 0 <= i < |blocks| ==> BlockSize(blocks[i]) <= capacity
    ensures GapFree(blocks, PutAll([], blocks, capacity)) <==> SizeOf(blocks) <= capacity
  {
    GapFreeIff(blocks, capacity);
    AllFitWeight(blocks, capacity);
  }

  function SizeOf(blocks: seq<Block>): nat {
    if blocks == [] then 0 else SizeOf(blocks[..|blocks| - 1]) + BlockSize(blocks[|blocks| - 1])
  }

  lemma {:induction false} AllFitWeight(blocks: seq<Block>, capacity: nat)
    requires forall i :: 0 <= i < |blocks| ==> BlockSize(blocks[i]) <= capacity
    ensures WeightFrom(blocks, 0, capacity) == SizeOf(blocks)
  {
    if blocks == [] {
    } else {
      var k := |blocks| - 1;
      AllFitWeight(blocks[..k], capacity);
      TotalOne(Sized(blocks[k]));
      TotalAppend([Sized(blocks[k])], Newest(blocks[..k], 0, capacity));
    }
  }

  lemma SizeOfTwo(a: Block, b: Block)
    ensures SizeOf([a, b]) == BlockSize(a) + BlockSize(b)
  {
    assert [a, b][..1] == [a];
    assert [a][..0] == [];
    assert SizeOf([a]) == BlockSize(a);
  }

  lemma TwoTooMany(blocks: seq<Block>, capacity: nat)
    requires |blocks| == 2 && BlockSize(blocks[0]) <= capacity
    requires BlockSize(blocks[1]) <= capacity < BlockSize(blocks[0]) + BlockSize(blocks[1])
    ensures WeightFrom(blocks, 0, capacity) > capacity
  {
    AllFitWeight(blocks, capacity);
    SizeOfTwo(blocks[0], blocks[1]);
    assert blocks == [blocks[0], blocks[1]];
  }
}
