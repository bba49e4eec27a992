/** The byte-budget store of internal/blockstore/lru.go, proved to behave as the recency list. */
module LruStore {
  import opened Options
  import opened BlockTypes
  import opened Sequences
  import opened Recency

  const PER_BLOCK_OVERHEAD: nat := 128

  function BlockSize(b: Block): nat {
    |b.payload| + PER_BLOCK_OVERHEAD
  }

  function Sized(b: Block): Item {
    Item(b, BlockSize(b))
  }

  /** What an entry takes up: its payload and 128 bytes for the rest. */
  ghost predicate AllSized(l: seq<Item>) {
    forall i :: 0 <= i < |l| ==> l[i].weight == |l[i].block.payload| + 128
  }

  function PayloadBytes(l: seq<Item>): nat {
    if l == [] then 0 else PayloadBytes(l[..|l| - 1]) + |l[|l| - 1].block.payload|
  }

  lemma {:induction false} TotalIsPayload(l: seq<Item>)
    requires AllSized(l)
    ensures Total(l) == PayloadBytes(l) + 128 * |l|
  {
    if l == [] {
    } else {
      TotalIsPayload(l[..|l| - 1]);
    }
  }

  /** The map files exactly the entries of the list, each under its own id. */
  ghost predicate Files(items: map<BlockId, Item>, l: seq<Item>) {
    && (forall i :: 0 <= i < |l| ==> l[i].block.id in items && items[l[i].block.id] == l[i])
    && (forall id :: id in items ==> Has(l, id))
  }

  lemma FilesToFront(items: map<BlockId, Item>, l: seq<Item>, k: nat)
    requires Files(items, l) && k < |l|
    ensures Files(items, ToFront(l, k))
  {
    var l' := ToFront(l, k);
    forall i | 0 <= i < |l'|
      ensures l'[i].block.id in items && items[l'[i].block.id] == l'[i]
    {
      assert l'[i] in l;
    }
    forall id | id in items
      ensures Has(l', id)
    {
      var i: nat :| At(l, i, id);
      assert At(l', if i < k then i + 1 else if i == k then 0 else i, id);
    }
  }

  lemma FilesInsert(items: map<BlockId, Item>, l: seq<Item>, item: Item)
    requires Files(items, l) && item.block.id !in items
    ensures Files(items[item.block.id := item], [item] + l)
  {
    var l' := [item] + l;
    assert At(l', 0, item.block.id);
    forall id | id in items
      ensures Has(l', id)
    {
      var i: nat :| At(l, i, id);
      assert At(l', i + 1, id);
    }
  }

  lemma InsertOk(items: map<BlockId, Item>, l: seq<Item>, item: Item, capacity: nat)
    requires Ok(l, capacity) && Files(items, l) && item.block.id !in items
    requires Fits(item, capacity) && Total(l) + item.weight <= capacity
    ensures Ok([item] + l, capacity) && Total([item] + l) == Total(l) + item.weight
  {
    TotalAppend([item], l);
    TotalOne(item);
  }

  class LRU {
    const cap: nat
    var used: nat
    /** container/list: front is most recently used. */
    var ll: seq<Item>
    var items: map<BlockId, Item>
    var hits: nat
    var misses: nat
    var evictions: nat
    var evictedCost: nat

    /** Map and list hold the same entries, and occupancy is the exact sum of their sizes, within capacity. */
    ghost predicate Valid()
      reads this
    {
      var ok, filed := Ok(ll, cap), Files(items, ll);
      ok && filed && used == Total(ll) && AllSized(ll)
    }

    /** The occupancy is what the held payloads take, with 128 bytes for each block, and never over the capacity. */
    lemma UsedIsPayload()
      requires Valid()
      ensures used == PayloadBytes(ll) + 128 * |ll| && PayloadBytes(ll) + 128 * |ll| <= cap
    {
      TotalIsPayload(ll);
    }

    constructor (capacityBytes: nat)
      ensures Valid() && cap == capacityBytes && ll == [] && hits == misses == evictions == evictedCost == 0
    {
      cap := capacityBytes;
      used, ll, items := 0, [], map[];
      hits, misses, evictions, evictedCost := 0, 0, 0, 0;
    }

    method IndexOf(id: BlockId) returns (k: nat)
      requires Valid() && id in items
      ensures At(ll, k, id)
    {
      k := 0;
      while ll[k].block.id != id
        invariant 0 <= k < |ll|
        invariant forall i :: 0 <= i < k ==> ll[i].block.id != id
        decreases |ll| - k
      {
        k := k + 1;
      }
    }

    /** list.MoveToFront of the element filed under `id`. */
    method MoveToFront(id: BlockId)
      requires Valid() && id in items
      modifies this`ll
      ensures Valid() && ll == Touched(old(ll), id)
    {
      var k := IndexOf(id);
      TouchedIs(ll, k, id);
      ToFrontOk(ll, k, cap);
      TotalWithout(ll, k);
      FilesToFront(items, ll, k);
      ll := ToFront(ll, k);
    }

    method EvictOldest()
      requires Valid() && ll != []
      modifies this`ll, this`items, this`used, this`evictions, this`evictedCost
      ensures Valid() && ll == old(ll)[..|old(ll)| - 1]
      ensures items.Keys < old(items).Keys && evictions == old(evictions) + 1
      ensures evictedCost + Cost(ll) == old(evictedCost) + Cost(old(ll))
    {
      var k := |ll| - 1;
      var e := ll[k];
      ghost var before := ll;
      ll := ll[..k];
      items := items - {e.block.id};
      used := used - e.weight;
      evictions := evictions + 1;
      evictedCost := evictedCost + e.block.cost;
      assert ll == Without(before, k);
      CostWithout(before, k);
      forall id | id in items
        ensures Has(ll, id)
      {
        var i: nat :| At(before, i, id);
        assert At(ll, i, id);
      }
    }

    method Insert(item: Item)
      requires Valid() && Fits(item, cap) && used + item.weight <= cap && item.block.id !in items
      requires item.weight == |item.block.payload| + 128
      modifies this`ll, this`items, this`used
      ensures Valid() && ll == [item] + old(ll)
    {
      InsertOk(items, ll, item, cap);
      FilesInsert(items, ll, item);
      items := items[item.block.id := item];
      ll := [item] + ll;
      used := used + item.weight;
    }

    /** Evicts the oldest until `size` bytes are free; the counters tell what went. */
    method MakeRoom(size: nat)
      requires Valid() && size <= cap
      modifies this`ll, this`items, this`used, this`evictions, this`evictedCost
      ensures Valid() && used + size <= cap && ll == Trim(old(ll), cap - size) && items.Keys <= old(items).Keys
      ensures evictions + |ll| == old(evictions) + |old(ll)|
      ensures evictedCost + Cost(ll) == old(evictedCost) + Cost(old(ll))
    {
      while used + size > cap
        invariant Valid() && items.Keys <= old(items).Keys
        invariant Trim(ll, cap - size) == Trim(old(ll), cap - size)
        invariant evictions + |ll| == old(evictions) + |old(ll)|
        invariant evictedCost + Cost(ll) == old(evictedCost) + Cost(old(ll))
        decreases |ll|
      {
        EvictOldest();
      }
    }

    method PutNew(b: Block)
      requires Valid() && b.id !in items && BlockSize(b) <= cap
      modifies this`ll, this`items, this`used, this`evictions, this`evictedCost
      ensures Valid() && ll == [Sized(b)] + Trim(old(ll), cap - BlockSize(b))
      ensures evictions + |ll| == old(evictions) + |old(ll)| + 1
      ensures evictedCost + Cost(ll) == old(evictedCost) + Cost(old(ll)) + b.cost
    {
      MakeRoom(BlockSize(b));
      CostFront(Sized(b), ll);
      Insert(Sized(b));
    }

    /** Refuses exactly a known block and one larger than the capacity; evicts no more than it must. */
    method Put(b: Block) returns (stored: bool)
      requires Valid()
      modifies this`ll, this`items, this`used, this`evictions, this`evictedCost
      ensures Valid()
      ensures ll == AfterPut(old(ll), Sized(b), cap)
      ensures stored == Stores(old(ll), Sized(b), cap)
      ensures stored <==> !Has(old(ll), b.id) && |b.payload| + 128 <= cap
      ensures evictions - old(evictions) == if stored then |old(ll)| + 1 - |ll| else 0
      ensures evictedCost - old(evictedCost) == if stored then Cost(old(ll)) + b.cost - Cost(ll) else 0
    {
      var size := BlockSize(b);
      assert Has(ll, b.id) <==> b.id in items;
      if b.id in items {
        MoveToFront(b.id);
        return false;
      }
      if size > cap {
        return false;
      }
      StoredPut(ll, Sized(b), cap);
      PutNew(b);
      return true;
    }

    lemma ItemAt(id: BlockId) returns (i: nat)
      requires Valid() && id in items
      ensures i < |ll| && ll[i] == items[id] && items[id].block.id == id
    {
      i :| At(ll, i, id);
    }

    /** Returns the very block held under the id, and makes it the most recent. */
    method Get(id: BlockId) returns (found: Option<Block>)
      requires Valid()
      modifies this`ll, this`hits, this`misses
      ensures Valid() && ll == Touched(old(ll), id)
      ensures found.Some? <==> Has(old(ll), id)
      ensures found.Some? ==> exists i: nat :: At(old(ll), i, id) && old(ll)[i].block == found.value
      ensures hits == old(hits) + (if found.Some? then 1 else 0)
      ensures misses == old(misses) + (if found.Some? then 0 else 1)
    {
      if id !in items {
        assert !Has(ll, id);
        misses := misses + 1;
        return None;
      }
      ghost var i := ItemAt(id);
      assert At(ll, i, id);
      hits := hits + 1;
      found := Some(items[id].block);
      MoveToFront(id);
    }

    /** Tells whether the id is held; a hit also makes the block the most recent. */
    method Contains(id: BlockId) returns (held: bool)
      requires Valid()
      modifies this`ll, this`hits, this`misses
      ensures Valid() && ll == Touched(old(ll), id)
      ensures held == Has(old(ll), id)
      ensures hits == old(hits) + (if held then 1 else 0)
      ensures misses == old(misses) + (if held then 0 else 1)
    {
      if id !in items {
        assert !Has(ll, id);
        misses := misses + 1;
        return false;
      }
      hits := hits + 1;
      MoveToFront(id);
      return true;
    }

    method Touch(id: BlockId)
      requires Valid()
      modifies this`ll
      ensures Valid() && ll == Touched(old(ll), id)
    {
      assert Has(ll, id) <==> id in items;
      if id in items {
        MoveToFront(id);
      }
    }
  }
}
