/** The paged store of internal/blockstore/paged.go. */
module PagedStore {
  import opened Options
  import opened BlockTypes
  import opened Sequences
  import opened Recency
  import opened Paging
  import opened Frecency

  datatype Policy = EvictLRU | EvictCost

  const EVICT_SAMPLE: nat := 16

  class Entry {
    const id: BlockId
    const parent: BlockId
    const model: string
    const tokens: nat
    const cost: nat
    const size: nat
    const pages: seq<nat>
    /** The bytes its pages hold. */
    ghost const payload: seq<byte>

    var orderIdx: nat
    var lastAccess: nat
    var freq: real
    var prev: Entry?
    var next: Entry?
    /** The clock at every touch since insertion. */
    ghost var touches: seq<nat>

    constructor (b: Block, pages: seq<nat>, orderIdx: nat)
      ensures AsItem() == Item(b, |pages|) && this.pages == pages && size == |b.payload| && id == b.id
      ensures this.orderIdx == orderIdx && lastAccess == 0 && freq == 0.0 && touches == []
    {
      id, parent, model, tokens, cost := b.id, b.parent, b.model, b.tokens, b.cost;
      size, payload := |b.payload|, b.payload;
      this.pages, this.orderIdx := pages, orderIdx;
      lastAccess, freq, touches := 0, 0.0, [];
      prev, next := null, null;
    }

    ghost function AsItem(): Item {
      Item(Block(id, parent, model, payload, tokens, cost), |pages|)
    }
  }

  ghost function Elems(s: seq<Entry>): set<Entry> {
    set e | e in s
  }

  ghost function Items(lru: seq<Entry>): seq<Item> {
    seq(|lru|, i requires 0 <= i < |lru| => lru[i].AsItem())
  }

  // ----- the parts of the invariant -----

  /** next threads the entries of `lru` from the head on. */
  ghost predicate Forward(lru: seq<Entry>, head: Entry?)
    reads lru`next
  {
    && head == (if lru == [] then null else lru[0])
    && (lru != [] ==> lru[|lru| - 1].next == null)
    && (forall i {:trigger lru[i].next} :: 0 <= i < |lru| - 1 ==> lru[i].next == lru[i + 1])
  }

  /** prev threads the entries of `lru` from the tail back. */
  ghost predicate Backward(lru: seq<Entry>, tail: Entry?)
    reads lru`prev
  {
    && tail == (if lru == [] then null else lru[|lru| - 1])
    && (lru != [] ==> lru[0].prev == null)
    && (forall i {:trigger lru[i].prev} :: 1 <= i < |lru| ==> lru[i].prev == lru[i - 1])
  }

  ghost predicate Linked(lru: seq<Entry>, head: Entry?, tail: Entry?)
    reads lru`prev, lru`next
  {
    NoRepeat(lru) && Forward(lru, head) && Backward(lru, tail)
  }

  /** The sampling index holds every entry at the position the entry knows. */
  ghost predicate Indexed(entries: set<Entry>, order: seq<Entry>)
    reads entries`orderIdx, order`orderIdx
  {
    && (forall e {:trigger e.orderIdx} :: e in entries ==> e.orderIdx < |order| && order[e.orderIdx] == e)
    && (forall i :: 0 <= i < |order| ==> order[i] in entries && order[i].orderIdx == i)
  }

  /** The map files every entry under its own id. */
  ghost predicate Filed(entries: set<Entry>, items: map<BlockId, Entry>) {
    && (forall e {:trigger e.id} :: e in entries ==> e.id in items && items[e.id] == e)
    && (forall id :: id in items ==> items[id] in entries && items[id].id == id)
  }

  ghost predicate Owns(e: Entry, owner: seq<Entry?>) {
    && NoRepeat(e.pages)
    && forall i :: 0 <= i < |e.pages| ==> e.pages[i] < |owner| && owner[e.pages[i]] == e
  }

  ghost predicate Unowned(free: seq<nat>, owner: seq<Entry?>) {
    && NoRepeat(free)
    && forall i :: 0 <= i < |free| ==> free[i] < |owner| && owner[free[i]] == null
  }

  ghost predicate Accounted(p: nat, entries: set<Entry>, free: seq<nat>, owner: seq<Entry?>)
    requires p < |owner|
  {
    if owner[p] == null then p in free else owner[p] in entries && p in owner[p].pages
  }

  /** Every page is free or belongs to exactly one entry; nothing is listed twice. */
  ghost predicate Partition(entries: set<Entry>, free: seq<nat>, owner: seq<Entry?>) {
    && Unowned(free, owner)
    && (forall e {:trigger Owns(e, owner)} :: e in entries ==> Owns(e, owner))
    && (forall p: nat {:trigger Accounted(p, entries, free, owner)} ::
          p < |owner| ==> Accounted(p, entries, free, owner))
  }

  ghost predicate InArena(bytes: seq<byte>, p: nat, pageSize: nat) {
    Offset(p, pageSize) + pageSize <= |bytes|
  }

  ghost function PageOf(bytes: seq<byte>, p: nat, pageSize: nat): seq<byte>
    requires InArena(bytes, p, pageSize)
  {
    bytes[Offset(p, pageSize)..Offset(p, pageSize) + pageSize]
  }

  /** The k-th piece of the payload is what page `p` begins with. */
  ghost predicate PieceOn(bytes: seq<byte>, payload: seq<byte>, k: nat, p: nat, pageSize: nat) {
    && Offset(k, pageSize) <= |payload|
    && InArena(bytes, p, pageSize)
    && Piece(payload, k, pageSize) <= PageOf(bytes, p, pageSize)
  }

  ghost predicate PiecesOn(bytes: seq<byte>, payload: seq<byte>, pages: seq<nat>, pageSize: nat) {
    forall k :: 0 <= k < |pages| ==> PieceOn(bytes, payload, k, pages[k], pageSize)
  }

  ghost predicate HoldsData(bytes: seq<byte>, e: Entry, pageSize: nat) {
    && e.size == |e.payload| > 0
    && |e.pages| > 0 && Covers(|e.pages|, e.size, pageSize)
    && PiecesOn(bytes, e.payload, e.pages, pageSize)
  }

  ghost predicate AllHeld(bytes: seq<byte>, entries: set<Entry>, pageSize: nat) {
    forall e {:trigger HoldsData(bytes, e, pageSize)} :: e in entries ==> HoldsData(bytes, e, pageSize)
  }

  /** Pages outside `written` read as before. */
  ghost predicate OthersKept(before: seq<byte>, after: seq<byte>, written: seq<nat>, pageSize: nat) {
    && |after| == |before|
    && forall q: nat :: InArena(before, q, pageSize) && q !in written ==>
         PageOf(after, q, pageSize) == PageOf(before, q, pageSize)
  }

  lemma PiecesKept(before: seq<byte>, after: seq<byte>, written: seq<nat>, payload: seq<byte>, pages: seq<nat>,
                   pageSize: nat)
    requires OthersKept(before, after, written, pageSize) && PiecesOn(before, payload, pages, pageSize)
    requires forall p :: p in pages ==> p !in written
    ensures PiecesOn(after, payload, pages, pageSize)
  {
    forall k | 0 <= k < |pages|
      ensures PieceOn(after, payload, k, pages[k], pageSize)
    {
      assert PieceOn(before, payload, k, pages[k], pageSize);
    }
  }

  /** The list is strictly ordered by last access. */
  ghost predicate Clocked(lru: seq<Entry>, clock: nat)
    reads lru`lastAccess
  {
    var past := forall i {:trigger lru[i].lastAccess} :: 0 <= i < |lru| ==> lru[i].lastAccess <= clock;
    var falling := forall i, j {:trigger lru[i].lastAccess, lru[j].lastAccess} ::
      0 <= i < j < |lru| ==> lru[i].lastAccess > lru[j].lastAccess;
    past && falling
  }

  /** The count is the plain sum over all touches, as of the last one. */
  ghost predicate Counts(freq: real, touches: seq<nat>, last: nat, d: real) {
    && touches != [] && Rising(touches)
    && touches[|touches| - 1] == last
    && (forall i :: 0 <= i < |touches| ==> touches[i] <= last)
    && freq == Plain(touches, last, d)
  }

  ghost predicate Counted(e: Entry, d: real)
    reads e`touches, e`lastAccess, e`freq
  {
    var exact := Counts(e.freq, e.touches, e.lastAccess, d);
    exact
  }

  ghost predicate AllCounted(lru: seq<Entry>, d: real)
    reads lru`touches, lru`lastAccess, lru`freq
  {
    forall e {:trigger Counted(e, d)} :: e in lru ==> Counted(e, d)
  }

  ghost predicate NewEntry(e: Entry)
    reads e`touches, e`lastAccess, e`freq
  {
    e.touches == [] && e.lastAccess == 0 && e.freq == 0.0
  }

  // ----- moving entries around -----

  lemma ToFrontElems(s: seq<Entry>, k: nat)
    requires k < |s|
    ensures Elems(ToFront(s, k)) == Elems(s)
  {
    assert s == s[..k] + [s[k]] + s[k + 1..];
  }

  lemma WithoutElems(s: seq<Entry>, k: nat)
    requires k < |s| && NoRepeat(s)
    ensures NoRepeat(Without(s, k)) && Elems(Without(s, k)) == Elems(s) - {s[k]}
  {
    WithoutNoRepeat(s, k);
    forall x | x in s && x != s[k]
      ensures x in Without(s, k)
    {
      WithoutHolds(s, k, x);
    }
  }

  lemma ItemsToFront(lru: seq<Entry>, k: nat)
    requires k < |lru|
    ensures Items(ToFront(lru, k)) == ToFront(Items(lru), k)
    ensures Items(Without(lru, k)) == Without(Items(lru), k)
  {
  }

  /** A touch keeps the frecency exact. */
  method Recount(freq: real, ghost touches: seq<nat>, last: nat, now: nat, d: real) returns (f: real)
    requires last < now
    requires (touches == [] && last == 0 && freq == 0.0) || Counts(freq, touches, last, d)
    ensures Counts(f, touches + [now], now, d)
  {
    TouchIsPlain(touches, last, now, d);
    f := AfterTouch(freq, now - last, d);
  }

  lemma DistinctIds(lru: seq<Entry>, items: map<BlockId, Entry>)
    requires Filed(Elems(lru), items) && NoRepeat(lru)
    ensures Distinct(Items(lru))
    ensures forall id :: Has(Items(lru), id) <==> id in items
  {
    forall id
      ensures Has(Items(lru), id) <==> id in items
    {
      if id in items {
        assert items[id] in Elems(lru);
        var i :| 0 <= i < |lru| && lru[i] == items[id];
        assert At(Items(lru), i, id);
      }
      if Has(Items(lru), id) {
        var i: nat :| At(Items(lru), i, id);
        assert lru[i] in Elems(lru);
      }
    }
    NoRepeatIff(lru);
    forall i, j | 0 <= i < j < |lru|
      ensures lru[i].id != lru[j].id
    {
      assert lru[i] in Elems(lru) && lru[j] in Elems(lru);
    }
  }

  lemma FindItem(lru: seq<Entry>, items: map<BlockId, Entry>, id: BlockId) returns (k: nat)
    requires Filed(Elems(lru), items) && NoRepeat(lru)
    ensures id in items ==> At(Items(lru), k, id) && Items(lru)[k] == items[id].AsItem()
    ensures id !in items ==> !Has(Items(lru), id)
  {
    DistinctIds(lru, items);
    k := 0;
    if id in items {
      assert items[id] in Elems(lru);
      k :| 0 <= k < |lru| && lru[k] == items[id];
    }
  }

  lemma TouchedItems(lru: seq<Entry>, k: nat, items: map<BlockId, Entry>)
    requires k < |lru| && NoRepeat(lru) && Filed(Elems(lru), items)
    ensures Items(ToFront(lru, k)) == Touched(Items(lru), lru[k].id)
    ensures Total(Items(ToFront(lru, k))) == Total(Items(lru))
  {
    ItemsToFront(lru, k);
    TotalWithout(Items(lru), k);
    DistinctIds(lru, items);
    TouchedIs(Items(lru), k, lru[k].id);
  }

  lemma ClockedWithout(lru: seq<Entry>, k: nat, clock: nat)
    requires k < |lru| && Clocked(lru, clock)
    ensures Clocked(Without(lru, k), clock)
  {
  }

  lemma ClockedFront(e: Entry, rest: seq<Entry>, clock: nat)
    requires clock > 0 && Clocked(rest, clock - 1) && e.lastAccess == clock
    ensures Clocked([e] + rest, clock)
  {
  }

  /** l is what evictions over budget left of `all`; when only the oldest went, trimming either comes to the same. */
  ghost predicate Shrunk(l: seq<Item>, all: seq<Item>, budget: nat, oldestOnly: bool) {
    var evicted, trimmed := Evicted(l, all, budget), Trim(l, budget) == Trim(all, budget);
    evicted && (oldestOnly ==> trimmed)
  }

  /** Evicting while over budget keeps that; evicting the last entry is one step of Trim. */
  lemma EvictedItems(lru: seq<Entry>, k: nat, all: seq<Item>, budget: nat, oldestOnly: bool)
    requires k < |lru| && Shrunk(Items(lru), all, budget, oldestOnly)
    requires Total(Items(lru)) > budget && (oldestOnly ==> k == |lru| - 1)
    ensures Shrunk(Items(Without(lru, k)), all, budget, oldestOnly)
  {
    ItemsToFront(lru, k);
    assert k == |lru| - 1 ==> Items(Without(lru, k)) == Items(lru)[..k];
    EvictedIsSublist(Items(lru), all, budget);
    assert LastEviction(Items(lru), k, Items(Without(lru, k)), all, budget);
  }

  lemma FrontItems(e: Entry, rest: seq<Entry>)
    ensures Items([e] + rest) == [e.AsItem()] + Items(rest)
    ensures Elems([e] + rest) == Elems(rest) + {e}
    ensures Total(Items([e] + rest)) == Total(Items(rest)) + |e.pages|
  {
    TotalAppend([e.AsItem()], Items(rest));
    TotalOne(e.AsItem());
    assert Items([e] + rest) == [e.AsItem()] + Items(rest);
  }

  // ----- page ownership -----

  ghost function Assigned(owner: seq<Entry?>, pages: seq<nat>, e: Entry?): seq<Entry?> {
    seq(|owner|, p requires 0 <= p < |owner| => if p in pages then e else owner[p])
  }

  /** At first every page is free. */
  lemma AllFree(free: seq<nat>, owner: seq<Entry?>)
    requires |free| == |owner|
    requires forall i :: 0 <= i < |free| ==> free[i] == i && owner[i] == null
    ensures Partition({}, free, owner)
  {
    NoRepeatIff(free);
    forall p: nat | p < |owner|
      ensures Accounted(p, {}, free, owner)
    {
      assert free[p] == p;
    }
  }

  /** Pages taken off the end of the free list can be handed to a new entry. */
  lemma PartitionInsert(entries: set<Entry>, free: seq<nat>, owner: seq<Entry?>, e: Entry)
    requires Partition(entries, free, owner) && e !in entries && |e.pages| <= |free|
    requires forall i :: 0 <= i < |e.pages| ==> e.pages[i] == free[|free| - 1 - i]
    ensures Partition(entries + {e}, free[..|free| - |e.pages|], Assigned(owner, e.pages, e))
  {
    var m := |free| - |e.pages|;
    var free', owner' := free[..m], Assigned(owner, e.pages, e);
    NoRepeatIff(free);
    NoRepeatIff(free');
    NoRepeatIff(e.pages);
    forall x | x in entries
      ensures Owns(x, owner')
    {
      assert Owns(x, owner);
      forall i | 0 <= i < |x.pages|
        ensures x.pages[i] !in e.pages
      {
        assert owner[x.pages[i]] == x;
      }
    }
    forall p: nat | p < |owner|
      ensures Accounted(p, entries + {e}, free', owner')
    {
      assert Accounted(p, entries, free, owner);
      if owner[p] == null {
        var i :| 0 <= i < |free| && free[i] == p;
        if i >= m {
          assert e.pages[|free| - 1 - i] == p;
        } else {
          assert free'[i] == p;
        }
      }
    }
  }

  /** An evicted entry's pages all become free. */
  lemma PartitionRemove(entries: set<Entry>, free: seq<nat>, owner: seq<Entry?>, e: Entry)
    requires Partition(entries, free, owner) && e in entries
    ensures Partition(entries - {e}, free + e.pages, Assigned(owner, e.pages, null))
  {
    var free', owner' := free + e.pages, Assigned(owner, e.pages, null);
    assert Owns(e, owner);
    NoRepeatIff(free);
    NoRepeatIff(free');
    NoRepeatIff(e.pages);
    forall x | x in entries - {e}
      ensures Owns(x, owner')
    {
      assert Owns(x, owner);
      forall i | 0 <= i < |x.pages|
        ensures x.pages[i] !in e.pages
      {
        assert owner[x.pages[i]] == x;
      }
    }
    forall p: nat | p < |owner|
      ensures Accounted(p, entries - {e}, free', owner')
    {
      assert Accounted(p, entries, free, owner);
      if owner[p] != null && owner[p] != e {
        assert p !in e.pages;
      }
    }
  }

  lemma FiledRemove(entries: set<Entry>, items: map<BlockId, Entry>, e: Entry)
    requires Filed(entries, items) && e in entries
    ensures Filed(entries - {e}, items - {e.id})
  {
    assert items[e.id] == e;
  }

  lemma FiledInsert(entries: set<Entry>, items: map<BlockId, Entry>, e: Entry)
    requires Filed(entries, items) && e.id !in items
    ensures Filed(entries + {e}, items[e.id := e])
  {
  }

  lemma AllCountedFront(e: Entry, rest: seq<Entry>, d: real)
    requires Counted(e, d) && AllCounted(rest, d)
    ensures AllCounted([e] + rest, d)
  {
  }

  lemma AllCountedWithout(lru: seq<Entry>, k: nat, d: real)
    requires k < |lru| && AllCounted(lru, d)
    ensures AllCounted(Without(lru, k), d)
  {
  }

  /** Taking one entry out of the list takes exactly its pages off the total. */
  lemma UnlistedItems(lru: seq<Entry>, k: nat)
    requires k < |lru|
    ensures Items(Without(lru, k)) == Without(Items(lru), k)
    ensures Total(Items(lru)) == Total(Items(Without(lru, k))) + |lru[k].pages|
  {
    ItemsToFront(lru, k);
    TotalWithout(Items(lru), k);
  }

  lemma AllHeldSubset(bytes: seq<byte>, entries: set<Entry>, fewer: set<Entry>, pageSize: nat)
    requires AllHeld(bytes, entries, pageSize) && fewer <= entries
    ensures AllHeld(bytes, fewer, pageSize)
  {
  }

  /** Filling free pages disturbs no stored payload. */
  lemma AllHeldInsert(before: seq<byte>, after: seq<byte>, entries: set<Entry>, free: seq<nat>, owner: seq<Entry?>,
                      e: Entry, pageSize: nat)
    requires AllHeld(before, entries, pageSize) && Partition(entries, free, owner)
    requires OthersKept(before, after, e.pages, pageSize) && HoldsData(after, e, pageSize)
    requires forall i :: 0 <= i < |e.pages| ==> e.pages[i] in free
    ensures AllHeld(after, entries + {e}, pageSize)
  {
    forall x | x in entries
      ensures HoldsData(after, x, pageSize)
    {
      assert HoldsData(before, x, pageSize) && Owns(x, owner);
      forall p | p in x.pages
        ensures p !in e.pages
      {
        assert owner[p] == x;
      }
      PiecesKept(before, after, e.pages, x.payload, x.pages, pageSize);
    }
  }

  /** Writing inside one page leaves the others alone. */
  lemma WriteKeepsOthers(before: seq<byte>, after: seq<byte>, pg: nat, data: seq<byte>, pageSize: nat)
    requires |after| == |before| && InArena(before, pg, pageSize) && |data| <= pageSize
    requires forall i :: 0 <= i < |data| ==> after[Offset(pg, pageSize) + i] == data[i]
    requires forall j :: 0 <= j < |before| && !(Offset(pg, pageSize) <= j < Offset(pg, pageSize) + pageSize) ==>
      after[j] == before[j]
    ensures data <= PageOf(after, pg, pageSize)
    ensures OthersKept(before, after, [pg], pageSize)
  {
    forall q: nat | InArena(before, q, pageSize) && q !in [pg]
      ensures PageOf(after, q, pageSize) == PageOf(before, q, pageSize)
    {
      assert [pg][0] == pg;
      if q < pg {
        PageInside(q, pg, pageSize);
      } else {
        PageInside(pg, q, pageSize);
      }
      assert forall i :: 0 <= i < pageSize ==> PageOf(after, q, pageSize)[i] == PageOf(before, q, pageSize)[i];
    }
  }

  /** A random source: its k-th number below n. */
  type Rng = f: (nat, nat) -> nat | forall k, n :: n > 0 ==> f(k, n) < n witness (k, n) => 0

  /** j is the first of the smallest numbers. */
  ghost predicate FirstMin(s: seq<real>, j: nat) {
    j < |s| && (forall i :: 0 <= i < |s| ==> s[j] <= s[i]) && (forall i :: 0 <= i < j ==> s[j] < s[i])
  }

  lemma FirstMinNext(s: seq<real>, x: real, j: nat)
    requires s != [] ==> FirstMin(s, j)
    ensures FirstMin(s + [x], if s == [] || x < s[j] then |s| else j)
  {
  }

  class Paged {
    const pageSize: nat
    const nPages: nat
    const arena: array<byte>
    const policy: Policy
    const decay: real
    const rng: Rng

    var free: seq<nat>
    var items: map<BlockId, Entry>
    var order: seq<Entry>
    var head: Entry?
    var tail: Entry?
    var clock: nat
    /** How many random numbers have been used. */
    var drawn: nat
    var occupancy: nat
    var hits: nat
    var misses: nat
    var evictions: nat
    var evictedCost: nat

    /** The LRU list, most recent first, and the entry each page belongs to (null if free). */
    ghost var lru: seq<Entry>
    ghost var entries: set<Entry>
    ghost var held: nat
    ghost var owner: seq<Entry?>

    /** The LRU list: threaded, in order of last access, with exact frecencies. */
    ghost predicate ListValid()
      reads this`lru, this`head, this`tail, this`clock
      reads lru`prev, lru`next, lru`lastAccess, lru`touches, lru`freq
    {
      var threaded, timed, counted := Linked(lru, head, tail), Clocked(lru, clock), AllCounted(lru, decay);
      threaded && timed && counted
    }

    /** Map, sampling index, pages and arena agree on the entries, whatever their order in the list. */
    ghost predicate StoreValid()
      reads this`entries, this`held, this`order, this`items, this`free, this`owner, this`occupancy, arena
      reads entries`orderIdx, order`orderIdx
    {
      var sized, indexed := Sized(), Indexed(entries, order);
      var filed, paged := Filed(entries, items), Partition(entries, free, owner);
      sized && indexed && filed && paged && AllHeld(arena[..], entries, pageSize)
    }

    ghost predicate Sized()
      reads this`held, this`free, this`owner, this`occupancy
    {
      && pageSize > 0 && 0.0 < decay < 1.0
      && arena.Length == Offset(nPages, pageSize) && |owner| == nPages
      && |free| + held == nPages
      && occupancy == Offset(held, pageSize)
    }

    /** The list and the rest of the store are about the same entries. */
    ghost predicate Agree()
      reads this`lru, this`entries, this`held
    {
      entries == Elems(lru) && held == Total(Items(lru))
    }

    ghost predicate Valid()
      reads this`lru, this`entries, this`held, this`head, this`tail, this`clock
      reads lru`prev, lru`next, lru`lastAccess, lru`touches, lru`freq
      reads this`order, this`items, this`free, this`owner, this`occupancy, arena, entries`orderIdx, order`orderIdx
    {
      var list, store, agree := ListValid(), StoreValid(), Agree();
      list && store && agree
    }

    method LruPushFront(e: Entry)
      requires Linked(lru, head, tail) && e !in lru
      modifies this`head, this`tail, this`lru, e`prev, e`next, lru`prev
      ensures Linked(lru, head, tail) && lru == [e] + old(lru)
    {
      NoRepeatIff(lru);
      NoRepeatIff([e] + lru);
      e.prev, e.next := null, head;
      if head != null {
        head.prev := e;
      }
      head := e;
      if tail == null {
        tail := e;
      }
      lru := [e] + lru;
    }

    /** Preallocates the arena and puts every page on the free list. */
    constructor (capacityBytes: nat, pageSize: nat, policy: Policy, decay: real, rng: Rng)
      requires pageSize > 0 && 0.0 < decay < 1.0
      ensures Valid() && lru == [] && entries == {} && fresh(arena)
      ensures hits == misses == evictions == evictedCost == drawn == 0
      ensures this.pageSize == pageSize && this.policy == policy && this.nPages == capacityBytes / pageSize
      ensures this.rng == rng
    {
      var n := capacityBytes / pageSize;
      OffsetIsProduct(n, pageSize);
      this.pageSize, this.policy, this.decay, this.nPages, this.rng := pageSize, policy, decay, n, rng;
      arena := new byte[n * pageSize](_ => 0);
      free := seq(n, i => i);
      items, order, head, tail, clock, drawn, occupancy := map[], [], null, null, 0, 0, 0;
      hits, misses, evictions, evictedCost := 0, 0, 0, 0;
      lru, entries, held := [], {}, 0;
      owner := seq(n, _ => null);
      new;
      AllFree(free, owner);
    }

    method BypassForward(e: Entry, ghost k: nat)
      requires Linked(lru, head, tail) && k < |lru| && lru[k] == e
      modifies this`head, lru`next
      ensures Forward(Without(lru, k), head) && e.next == old(e.next)
    {
      NoRepeatIff(lru);
      ghost var rest := Without(lru, k);
      assert k > 0 ==> e.prev == lru[k - 1];
      if e.prev != null {
        e.prev.next := e.next;
      } else if head == e {
        head := e.next;
      }
      forall i | 0 <= i < |rest| - 1
        ensures rest[i].next == rest[i + 1]
      {
        var j := if i < k then i else i + 1;
        assert rest[i] == lru[j] && old(lru[j].next == lru[j + 1]);
      }
    }

    method BypassBackward(e: Entry, ghost k: nat)
      requires NoRepeat(lru) && Backward(lru, tail) && k < |lru| && lru[k] == e
      requires e.next == if k < |lru| - 1 then lru[k + 1] else null
      modifies this`tail, lru`prev
      ensures Backward(Without(lru, k), tail)
    {
      NoRepeatIff(lru);
      if e.next != null {
        e.next.prev := e.prev;
      } else if tail == e {
        tail := e.prev;
      }
    }

    method LruRemove(e: Entry, ghost k: nat)
      requires Linked(lru, head, tail) && k < |lru| && lru[k] == e
      modifies this`head, this`tail, this`lru, lru`prev, lru`next
      ensures Linked(lru, head, tail) && lru == Without(old(lru), k)
    {
      WithoutElems(lru, k);
      BypassForward(e, k);
      BypassBackward(e, k);
      assert e !in Elems(Without(lru, k));
      e.prev, e.next := null, null;
      lru := Without(lru, k);
    }

    method LruMoveFront(e: Entry, ghost k: nat)
      requires Linked(lru, head, tail) && k < |lru| && lru[k] == e
      modifies this`head, this`tail, this`lru, lru`prev, lru`next
      ensures Linked(lru, head, tail) && lru == ToFront(old(lru), k)
    {
      if head == e {
        assert lru == ToFront(lru, k);
        return;
      }
      WithoutElems(lru, k);
      LruRemove(e, k);
      assert e !in Elems(lru);
      LruPushFront(e);
    }

    /** One tick of the clock, counted on one entry. */
    method Bump(e: Entry)
      requires e.lastAccess <= clock && (Counted(e, decay) || NewEntry(e))
      modifies this`clock, e`freq, e`lastAccess, e`touches
      ensures clock == old(clock) + 1 && e.lastAccess == clock
      ensures Counted(e, decay) && e.touches == old(e.touches) + [clock]
    {
      clock := clock + 1;
      e.freq := Recount(e.freq, e.touches, e.lastAccess, clock, decay);
      e.lastAccess := clock;
      e.touches := e.touches + [clock];
    }

    /** touch: recency and frecency of one entry; the rest of the list keeps its order. */
    method TouchEntry(e: Entry, ghost k: nat)
      requires Linked(lru, head, tail) && k < |lru| && lru[k] == e
      requires Clocked(Without(lru, k), clock) && e.lastAccess <= clock
      requires Counted(e, decay) || NewEntry(e)
      modifies this`clock, this`head, this`tail, this`lru, lru`prev, lru`next, e`freq, e`lastAccess, e`touches
      ensures Linked(lru, head, tail) && lru == ToFront(old(lru), k)
      ensures clock == old(clock) + 1 && Clocked(lru, clock) && Counted(e, decay)
      ensures e.touches == old(e.touches) + [clock]
    {
      ghost var rest := Without(lru, k);
      assert e !in rest by {
        WithoutElems(lru, k);
        assert e !in Elems(rest);
      }
      Bump(e);
      ClockedFront(e, rest, clock);
      LruMoveFront(e, k);
    }

    /** copy(arena[pg*pageSize:], data): writes into one page and no other. */
    method CopyPage(pg: nat, data: seq<byte>)
      requires arena.Length == Offset(nPages, pageSize) && pg < nPages && |data| <= pageSize
      modifies arena
      ensures InArena(arena[..], pg, pageSize) && data <= PageOf(arena[..], pg, pageSize)
      ensures OthersKept(old(arena[..]), arena[..], [pg], pageSize)
    {
      PageInside(pg, nPages, pageSize);
      OffsetIsProduct(pg, pageSize);
      var base := pg * pageSize;
      forall i | 0 <= i < |data| {
        arena[base + i] := data[i];
      }
      WriteKeepsOthers(old(arena[..]), arena[..], pg, data, pageSize);
    }

    /** Takes pages off the end of the free list and fills them with the payload, piece by piece. */
    method Allocate(payload: seq<byte>, need: nat) returns (pages: seq<nat>)
      requires pageSize > 0 && arena.Length == Offset(nPages, pageSize)
      requires Covers(need, |payload|, pageSize) && need <= |free|
      requires NoRepeat(free) && forall i :: 0 <= i < |free| ==> free[i] < nPages
      modifies this`free, arena
      ensures |pages| == need && free == old(free)[..|old(free)| - need]
      ensures forall i :: 0 <= i < need ==> pages[i] == old(free)[|old(free)| - 1 - i]
      ensures PiecesOn(arena[..], payload, pages, pageSize)
      ensures OthersKept(old(arena[..]), arena[..], pages, pageSize)
    {
      NoRepeatIff(free);
      pages := [];
      for i := 0 to need
        invariant |pages| == i && free == old(free)[..|old(free)| - i]
        invariant forall j :: 0 <= j < i ==> pages[j] == old(free)[|old(free)| - 1 - j]
        invariant PiecesOn(arena[..], payload, pages, pageSize)
        invariant OthersKept(old(arena[..]), arena[..], pages, pageSize)
      {
        var pg := free[|free| - 1];
        free := free[..|free| - 1];
        PieceInside(need, |payload|, i, pageSize);
        ghost var before := arena[..];
        CopyPage(pg, Piece(payload, i, pageSize));
        assert pg !in pages;
        PiecesKept(before, arena[..], [pg], payload, pages, pageSize);
        pages := pages + [pg];
      }
    }

    // ----- accesses -----

    method TouchListed(e: Entry, ghost k: nat)
      requires ListValid() && k < |lru| && lru[k] == e
      modifies this`clock, this`head, this`tail, this`lru, lru`prev, lru`next, e`freq, e`lastAccess, e`touches
      ensures ListValid() && lru == ToFront(old(lru), k)
      ensures e.touches == old(e.touches) + [clock] && clock == old(clock) + 1
    {
      ToFrontElems(lru, k);
      ClockedWithout(lru, k, clock);
      assert Counted(e, decay);
      TouchEntry(e, k);
    }

    lemma TouchFacts(e: Entry) returns (k: nat)
      requires Valid() && e in entries
      ensures k < |lru| && lru[k] == e
      ensures Items(ToFront(lru, k)) == Touched(Items(lru), e.id)
      ensures Elems(ToFront(lru, k)) == entries && Total(Items(ToFront(lru, k))) == held
    {
      k :| 0 <= k < |lru| && lru[k] == e;
      TouchedItems(lru, k, items);
      ToFrontElems(lru, k);
    }

    /** Touches `e` where the store only waits for the list to have it at the front. */
    method Refresh(e: Entry, ghost k: nat)
      requires ListValid() && StoreValid() && k < |lru| && lru[k] == e
      requires Elems(ToFront(lru, k)) == entries && Total(Items(ToFront(lru, k))) == held
      modifies this`clock, this`head, this`tail, this`lru, lru`prev, lru`next, e`freq, e`lastAccess, e`touches
      ensures Valid() && lru == ToFront(old(lru), k)
      ensures e.touches == old(e.touches) + [clock] && clock == old(clock) + 1
    {
      TouchListed(e, k);
    }

    lemma ListedAreEntries()
      requires Valid()
      ensures forall e :: e in lru ==> e in entries
    {
    }

    /** Every access to a known block moves it to the front and changes nothing else about the store. */
    method TouchKnown(e: Entry)
      requires Valid() && e in entries
      modifies this`clock, this`head, this`tail, this`lru, entries`prev, entries`next, e`freq, e`lastAccess, e`touches
      ensures Valid()
      ensures Items(lru) == Touched(old(Items(lru)), e.id)
      ensures e.touches == old(e.touches) + [clock] && clock == old(clock) + 1
    {
      ListedAreEntries();
      ghost var k := TouchFacts(e);
      Refresh(e, k);
    }

    method Touch(id: BlockId)
      requires Valid()
      modifies this`clock, this`head, this`tail, this`lru, entries
      ensures Valid() && Items(lru) == Touched(old(Items(lru)), id)
    {
      DistinctIds(lru, items);
      if id in items {
        TouchKnown(items[id]);
      }
    }

    /** The lookup behind Get and Contains: a hit bumps recency. `k` is where the block stood in the list. */
    method Access(id: BlockId) returns (hit: Entry?, ghost k: nat)
      requires Valid()
      modifies this`clock, this`head, this`tail, this`lru, entries
      ensures Valid() && Items(lru) == Touched(old(Items(lru)), id)
      ensures hit == null ==> !Has(old(Items(lru)), id)
      ensures hit != null ==> hit in entries && At(old(Items(lru)), k, id) && old(Items(lru))[k] == hit.AsItem()
    {
      k := FindItem(lru, items, id);
      hit := null;
      if id in items {
        hit := items[id];
        TouchKnown(hit);
      }
    }

    method CountLookup(id: BlockId)
      requires Valid()
      modifies this`hits, this`misses
      ensures Valid()
      ensures hits == old(hits) + (if Has(Items(lru), id) then 1 else 0)
      ensures misses == old(misses) + if Has(Items(lru), id) then 0 else 1
    {
      assert Has(Items(lru), id) <==> id in items by { DistinctIds(lru, items); }
      if id in items {
        hits := hits + 1;
      } else {
        misses := misses + 1;
      }
    }

    method CountEviction(cost: nat)
      requires Valid()
      modifies this`evictions, this`evictedCost
      ensures Valid() && evictions == old(evictions) + 1 && evictedCost == old(evictedCost) + cost
    {
      evictions, evictedCost := evictions + 1, evictedCost + cost;
    }

    method Contains(id: BlockId) returns (present: bool)
      requires Valid()
      modifies this`clock, this`head, this`tail, this`lru, entries, this`hits, this`misses
      ensures Valid() && Items(lru) == Touched(old(Items(lru)), id)
      ensures hits == old(hits) + (if present then 1 else 0) && misses == old(misses) + if present then 0 else 1
      ensures present == Has(old(Items(lru)), id)
    {
      CountLookup(id);
      var e, _ := Access(id);
      return e != null;
    }

    /** Reads the pages of an entry back into one payload. */
    method ReadPayload(e: Entry) returns (payload: seq<byte>)
      requires pageSize > 0 && HoldsData(arena[..], e, pageSize)
      ensures payload == e.payload
    {
      payload := [];
      for i := 0 to |e.pages|
        invariant Min(Offset(i, pageSize), e.size) <= |e.payload|
        invariant payload == e.payload[..Min(Offset(i, pageSize), e.size)]
      {
        PieceInside(|e.pages|, e.size, i, pageSize);
        assert PieceOn(arena[..], e.payload, i, e.pages[i], pageSize);
        OffsetIsProduct(i, pageSize);
        OffsetIsProduct(e.pages[i], pageSize);
        var lo := i * pageSize;
        var hi := Min(lo + pageSize, e.size);
        var base := e.pages[i] * pageSize;
        payload := payload + arena[base..base + (hi - lo)];
        assert arena[base..base + (hi - lo)] == Piece(e.payload, i, pageSize);
      }
    }

    method ReadBlock(e: Entry) returns (b: Block)
      requires Valid() && e in entries
      ensures b == e.AsItem().block
    {
      assert HoldsData(arena[..], e, pageSize);
      var payload := ReadPayload(e);
      b := Block(e.id, e.parent, e.model, payload, e.tokens, e.cost);
    }

    /** Returns, byte for byte, the block whose Put stored it. */
    method Get(id: BlockId) returns (found: Option<Block>)
      requires Valid()
      modifies this`clock, this`head, this`tail, this`lru, entries, this`hits, this`misses
      ensures Valid() && Items(lru) == Touched(old(Items(lru)), id)
      ensures hits == old(hits) + (if found.Some? then 1 else 0) && misses == old(misses) + if found.Some? then 0 else 1
      ensures found.Some? <==> Has(old(Items(lru)), id)
      ensures found.Some? ==> exists i: nat :: At(old(Items(lru)), i, id) && old(Items(lru))[i].block == found.value
    {
      CountLookup(id);
      var e, k := Access(id);
      found := None;
      if e != null {
        var b := ReadBlock(e);
        found := Some(b);
      }
    }

    // ----- eviction -----

    /** The score by which the cost policy compares candidates: frecency decayed to now, times cost, per byte held. */
    ghost function ScoreOf(e: Entry): real
      reads e`freq, e`lastAccess, this`clock
    {
      if e.lastAccess <= clock && Offset(|e.pages|, pageSize) > 0
      then Score(Decayed(e.freq, clock - e.lastAccess, decay), e.cost, Offset(|e.pages|, pageSize))
      else 0.0
    }

    /** How many candidates an eviction draws. */
    function Draws(): nat
      reads this`order
    {
      Min(EVICT_SAMPLE, |order|)
    }

    /** The entry that draw i names when `used` random numbers were used before. */
    function Drawn(used: nat, i: nat): Entry
      requires order != []
      reads this`order
    {
      order[rng(used + i, |order|)]
    }

    /** Of the first n draws, j is the first that names an entry of the least score. */
    ghost predicate FirstLeast(used: nat, n: nat, j: nat)
      requires order != []
      reads this`order, this`clock, order`freq, order`lastAccess
    {
      && j < n
      && (forall i: nat :: i < n ==> ScoreOf(Drawn(used, j)) <= ScoreOf(Drawn(used, i)))
      && (forall i: nat :: i < j ==> ScoreOf(Drawn(used, j)) < ScoreOf(Drawn(used, i)))
    }

    /** One entry at random. */
    method DrawEntry() returns (e: Entry)
      requires order != []
      modifies this`drawn
      ensures drawn == old(drawn) + 1 && e == Drawn(old(drawn), 0)
    {
      e := order[rng(drawn, |order|)];
      drawn := drawn + 1;
    }

    /** The score the eviction loop computes for a candidate. */
    method ScoreNow(e: Entry) returns (score: real)
      requires e.lastAccess <= clock && Offset(|e.pages|, pageSize) > 0
      ensures score == ScoreOf(e)
    {
      var age := clock - e.lastAccess;
      OffsetIsProduct(|e.pages|, pageSize);
      score := Score(Decayed(e.freq, age, decay), e.cost, |e.pages| * pageSize);
    }

    ghost predicate Scorable()
      reads this`order, this`clock, order`lastAccess
    {
      forall i :: 0 <= i < |order| ==> order[i].lastAccess <= clock && Offset(|order[i].pages|, pageSize) > 0
    }

    /** The scores of the first draws. */
    ghost predicate Scored(scores: seq<real>, used: nat)
      requires order != []
      reads this`order, this`clock, order`freq, order`lastAccess
    {
      forall i: nat :: i < |scores| ==> scores[i] == ScoreOf(Drawn(used, i))
    }

    lemma ScoredNext(scores: seq<real>, used: nat, x: real)
      requires order != [] && Scored(scores, used) && x == ScoreOf(Drawn(used, |scores|))
      ensures Scored(scores + [x], used)
    {
    }

    lemma FirstLeastIs(scores: seq<real>, used: nat, j: nat)
      requires order != [] && Scored(scores, used) && FirstMin(scores, j)
      ensures FirstLeast(used, |scores|, j)
    {
      assert scores[j] == ScoreOf(Drawn(used, j));
    }

    /** Up to 16 random draws from the index, with replacement; the first of the lowest score is the victim. */
    method Sample() returns (victim: Entry?, ghost j: nat)
      requires Scorable()
      modifies this`drawn
      ensures drawn == old(drawn) + Draws() && (victim == null <==> order == [])
      ensures order != [] ==> FirstLeast(old(drawn), Draws(), j) && victim == Drawn(old(drawn), j)
    {
      victim, j := null, 0;
      var victimScore := 0.0;
      ghost var scores: seq<real> := [];
      var i := 0;
      while i < EVICT_SAMPLE && i < |order|
        invariant i == |scores| <= Draws() && drawn == old(drawn) + i && (victim == null <==> i == 0)
        invariant order != [] ==> Scored(scores, old(drawn))
        invariant i > 0 ==> FirstMin(scores, j) && victim == Drawn(old(drawn), j) && victimScore == scores[j]
      {
        var e := DrawEntry();
        assert e == Drawn(old(drawn), i);
        var eScore := ScoreNow(e);
        ScoredNext(scores, old(drawn), eScore);
        FirstMinNext(scores, eScore, j);
        scores := scores + [eScore];
        if victim == null || eScore < victimScore {
          victim, victimScore, j := e, eScore, i;
        }
        i := i + 1;
      }
      if order != [] {
        FirstLeastIs(scores, old(drawn), j);
      }
    }

    lemma Sampleable()
      requires Valid()
      ensures Scorable() && (order == [] <==> lru == []) && forall e :: e in order ==> e in lru
    {
      forall i | 0 <= i < |order|
        ensures order[i].lastAccess <= clock && Offset(|order[i].pages|, pageSize) > 0
      {
        var e := order[i];
        assert e in entries && HoldsData(arena[..], e, pageSize);
        var j :| 0 <= j < |lru| && lru[j] == e;
        assert lru[j].lastAccess <= clock;
      }
      if lru != [] {
        assert lru[0] in Elems(lru);
        assert lru[0].orderIdx < |order|;
      }
      if order != [] {
        assert order[0] in Elems(lru);
      }
    }

    /** What the policy evicts: the last of the list, or the first of least score among the draws after `used`. */
    ghost predicate Evicts(k: nat, used: nat, j: nat)
      reads this`lru, this`order, this`clock, order`freq, order`lastAccess
    {
      var oldest := policy.EvictLRU? ==> k == |lru| - 1;
      var lowest := policy.EvictCost? ==>
        order != [] && FirstLeast(used, Draws(), j) && k < |lru| && lru[k] == Drawn(used, j);
      k < |lru| && oldest && lowest
    }

    /** What evicting the block would lose: its touches so far, decayed to now, times its cost. */
    ghost function Loss(e: Entry): real
      reads e`touches, this`clock
    {
      if forall i :: 0 <= i < |e.touches| ==> e.touches[i] <= clock
      then Plain(e.touches, clock, decay) * e.cost as real else 0.0
    }

    /** Per page, evicting v loses no more than evicting u. */
    ghost predicate NoDearer(v: Entry, u: Entry)
      reads v`touches, u`touches, this`clock
    {
      Loss(v) * |u.pages| as real <= Loss(u) * |v.pages| as real
    }

    /** Entry k is the one that draw j names, no draw is cheaper to lose, and every earlier one is dearer. */
    ghost predicate CheapestDraw(k: nat, used: nat, j: nat)
      reads this`lru, this`order, this`clock, order`touches, lru`touches
    {
      var cheapest :=
        && order != [] && k < |lru| && j < 16 && j < |order| && lru[k] == Drawn(used, j)
        && (forall i: nat :: i < 16 && i < |order| ==> NoDearer(lru[k], Drawn(used, i)))
        && (forall i: nat :: i < j ==> !NoDearer(Drawn(used, i), lru[k]));
      cheapest
    }

    lemma ScoreIsLoss(v: Entry, u: Entry)
      requires ListValid() && pageSize > 0 && v in lru && u in lru && v.pages != [] && u.pages != []
      ensures ScoreOf(v) <= ScoreOf(u) <==> NoDearer(v, u)
    {
      ScoreIs(v);
      ScoreIs(u);
      ScoresCompare(ScoreOf(v), Loss(v), |v.pages| as real, ScoreOf(u), Loss(u), |u.pages| as real, pageSize as real);
    }

    lemma ScoreIs(e: Entry)
      requires ListValid() && pageSize > 0 && e in lru && e.pages != []
      ensures ScoreOf(e) * (|e.pages| as real * pageSize as real) == Loss(e)
    {
      CountIsPlain(e);
      OffsetIsProduct(|e.pages|, pageSize);
      PageInside(0, |e.pages|, pageSize);
      ScoreTimes(Plain(e.touches, clock, decay), e.cost, |e.pages| * pageSize);
      CastProduct(|e.pages|, pageSize);
    }

    lemma CountIsPlain(e: Entry)
      requires ListValid() && e in lru
      ensures e.lastAccess <= clock && (forall i :: 0 <= i < |e.touches| ==> e.touches[i] <= clock)
      ensures Decayed(e.freq, clock - e.lastAccess, decay) == Plain(e.touches, clock, decay)
    {
      assert Counted(e, decay);
      var i :| 0 <= i < |lru| && lru[i] == e;
      assert lru[i].lastAccess <= clock;
      PlainDecays(e.touches, e.lastAccess, clock, decay);
    }

    lemma LeastIsCheapest(k: nat, used: nat, j: nat)
      requires Valid() && policy.EvictCost? && Evicts(k, used, j)
      ensures CheapestDraw(k, used, j)
    {
      Sampleable();
      forall i: nat | i < |order|
        ensures order[i] in lru && order[i].pages != []
      {
        assert order[i] in order;
        assert order[i] in entries && HoldsData(arena[..], order[i], pageSize);
      }
      forall i: nat | i < 16 && i < |order|
        ensures ScoreOf(lru[k]) <= ScoreOf(Drawn(used, i)) <==> NoDearer(lru[k], Drawn(used, i))
        ensures ScoreOf(Drawn(used, i)) <= ScoreOf(lru[k]) <==> NoDearer(Drawn(used, i), lru[k])
      {
        ScoreIsLoss(lru[k], Drawn(used, i));
        ScoreIsLoss(Drawn(used, i), lru[k]);
      }
    }

    method PickVictim() returns (victim: Entry?, ghost k: nat, ghost j: nat)
      requires Valid()
      modifies this`drawn
      ensures Valid() && (victim == null <==> lru == [])
      ensures victim != null ==> Evicts(k, old(drawn), j) && victim == lru[k]
      ensures victim != null && policy.EvictCost? ==> CheapestDraw(k, old(drawn), j)
      ensures drawn == old(drawn) + if policy.EvictCost? then Draws() else 0
    {
      k, j := 0, 0;
      if policy.EvictLRU? {
        victim, k := tail, if lru == [] then 0 else |lru| - 1;
      } else {
        Sampleable();
        victim, j := Sample();
        k := if victim == null then 0 else PositionOf(victim);
        if victim != null {
          LeastIsCheapest(k, old(drawn), j);
        }
      }
    }

    ghost function PositionOf(e: Entry): (k: nat)
      requires e in lru
      reads this`lru
      ensures k < |lru| && lru[k] == e
    {
      var k :| 0 <= k < |lru| && lru[k] == e; k
    }

    method EvictEntry(e: Entry, ghost k: nat)
      requires Valid() && k < |lru| && lru[k] == e
      modifies this`head, this`tail, this`lru, this`entries, this`held
      modifies this`free, this`owner, this`items, this`occupancy, this`order, this`evictions, this`evictedCost
      modifies entries`prev, entries`next, entries`orderIdx
      ensures Valid() && lru == Without(old(lru), k)
      ensures evictions == old(evictions) + 1 && evictedCost == old(evictedCost) + e.cost
      ensures entries <= old(entries) && items.Keys <= old(items).Keys
    {
      Remove(e, k);
      CountEviction(e.cost);
    }

    /** Never fails while anything is stored. */
    method EvictOne() returns (ok: bool, ghost k: nat, ghost j: nat)
      requires Valid()
      modifies this`head, this`tail, this`lru, this`entries, this`held, this`drawn
      modifies this`free, this`owner, this`items, this`occupancy, this`order, this`evictions, this`evictedCost
      modifies entries`prev, entries`next, entries`orderIdx
      ensures Valid() && (ok <==> old(lru) != [])
      ensures ok ==> k < |old(lru)| && lru == Without(old(lru), k)
      ensures ok && policy.EvictLRU? ==> k == |old(lru)| - 1
      ensures ok && policy.EvictCost? ==> old(CheapestDraw(k, drawn, j))
      ensures ok ==> evictions == old(evictions) + 1 && evictedCost == old(evictedCost) + old(lru)[k].cost
      ensures drawn == old(drawn) +
        if policy.EvictLRU? then 0 else if |old(order)| < 16 then |old(order)| else 16
      ensures entries <= old(entries) && items.Keys <= old(items).Keys
    {
      var victim;
      victim, k, j := PickVictim();
      ok := victim != null;
      if ok {
        EvictEntry(victim, k);
      }
    }

    /** Takes `e` out of the sampling index by moving the last element into its place. */
    method SwapRemove(e: Entry)
      requires Indexed(entries, order) && e in entries
      modifies this`order, order`orderIdx
      ensures Indexed(entries - {e}, order)
    {
      assert order[e.orderIdx] == e;
      var n := |order|;
      var last := order[n - 1];
      order := order[e.orderIdx := last];
      last.orderIdx := e.orderIdx;
      order := order[..n - 1];
    }

    /** Gives the pages of `e` back. */
    method FreePages(e: Entry)
      requires Sized() && Partition(entries, free, owner) && e in entries && |e.pages| <= held
      modifies this`held, this`free, this`owner, this`occupancy
      ensures Sized() && Partition(entries - {e}, free, owner)
      ensures held == old(held) - |e.pages| && free == old(free) + e.pages
    {
      PartitionRemove(entries, free, owner, e);
      OffsetAdd(held - |e.pages|, |e.pages|, pageSize);
      OffsetIsProduct(|e.pages|, pageSize);
      free := free + e.pages;
      owner := Assigned(owner, e.pages, null);
      occupancy := occupancy - |e.pages| * pageSize;
      held := held - |e.pages|;
    }

    /** Frees the pages of `e` and forgets it everywhere but in the list. */
    method Release(e: Entry)
      requires StoreValid() && e in entries && |e.pages| <= held
      modifies this`entries, this`held, this`free, this`owner, this`items, this`occupancy, this`order, order`orderIdx
      ensures StoreValid()
      ensures entries == old(entries) - {e} && held == old(held) - |e.pages|
      ensures free == old(free) + e.pages && items == old(items) - {e.id}
    {
      FiledRemove(entries, items, e);
      AllHeldSubset(arena[..], entries, entries - {e}, pageSize);
      FreePages(e);
      items := items - {e.id};
      SwapRemove(e);
      entries := entries - {e};
    }

    /** Takes `e` out of the list. */
    method Unlist(e: Entry, ghost k: nat)
      requires ListValid() && k < |lru| && lru[k] == e
      modifies this`head, this`tail, this`lru, lru`prev, lru`next
      ensures ListValid() && lru == Without(old(lru), k)
    {
      ClockedWithout(lru, k, clock);
      AllCountedWithout(lru, k, decay);
      LruRemove(e, k);
    }

    /** Makes the list catch up with a store that no longer holds `e`. */
    method Delist(e: Entry, ghost k: nat)
      requires ListValid() && StoreValid() && k < |lru| && lru[k] == e
      requires entries == Elems(Without(lru, k)) && held == Total(Items(Without(lru, k)))
      modifies this`head, this`tail, this`lru, lru`prev, lru`next
      ensures Valid() && lru == Without(old(lru), k)
    {
      Unlist(e, k);
    }

    /** Evicts one block: its pages become free and the rest of the list stays as it was. */
    method Remove(e: Entry, ghost k: nat)
      requires Valid() && k < |lru| && lru[k] == e
      modifies this`head, this`tail, this`lru, this`entries, this`held
      modifies this`free, this`owner, this`items, this`occupancy, this`order
      modifies entries`prev, entries`next, entries`orderIdx
      ensures Valid() && lru == Without(old(lru), k)
      ensures free == old(free) + e.pages && entries <= old(entries) && items.Keys <= old(items).Keys
    {
      UnlistedItems(lru, k);
      WithoutElems(lru, k);
      Release(e);
      assert ListValid();
      Delist(e, k);
    }

    // ----- put -----

    /** Enters a filled entry into index, map and page accounts. */
    method File(e: Entry)
      requires pageSize > 0 && 0.0 < decay < 1.0 && arena.Length == Offset(nPages, pageSize) && |owner| == nPages
      requires |free| + |e.pages| + held == nPages && occupancy == Offset(held, pageSize)
      requires Indexed(entries, order) && e !in entries && e.orderIdx == |order|
      requires Filed(entries, items) && e.id !in items
      requires Partition(entries + {e}, free, Assigned(owner, e.pages, e))
      requires AllHeld(arena[..], entries + {e}, pageSize)
      modifies this`entries, this`held, this`owner, this`items, this`occupancy, this`order
      ensures StoreValid() && entries == old(entries) + {e} && held == old(held) + |e.pages|
    {
      FiledInsert(entries, items, e);
      OffsetAdd(held, |e.pages|, pageSize);
      OffsetIsProduct(|e.pages|, pageSize);
      order := order + [e];
      items := items[e.id := e];
      owner := Assigned(owner, e.pages, e);
      occupancy := occupancy + |e.pages| * pageSize;
      entries, held := entries + {e}, held + |e.pages|;
    }

    /** Stores the payload on free pages and files a new entry everywhere but in the list. */
    method Admit(b: Block, need: nat) returns (e: Entry)
      requires StoreValid() && b.id !in items
      requires 0 < need <= |free| && Covers(need, |b.payload|, pageSize) && b.payload != []
      modifies this`entries, this`held, this`free, this`owner, this`items, this`occupancy, this`order, arena
      ensures StoreValid() && fresh(e) && NewEntry(e) && e.AsItem() == Item(b, need)
      ensures entries == old(entries) + {e} && held == old(held) + need
    {
      ghost var bytes := arena[..];
      var pages := Allocate(b.payload, need);
      e := new Entry(b, pages, |order|);
      assert Partition(entries + {e}, free, Assigned(owner, pages, e)) by {
        PartitionInsert(entries, old(free), owner, e);
      }
      assert AllHeld(arena[..], entries + {e}, pageSize) by {
        AllHeldInsert(bytes, arena[..], entries, old(free), owner, e, pageSize);
      }
      File(e);
    }

    /** Puts a new entry at the front of the list and touches it; the touch finds it at the front already. */
    method ListFront(e: Entry)
      requires ListValid() && e !in lru && NewEntry(e)
      modifies this`clock, this`head, this`tail, this`lru, lru`prev, lru`next
      modifies e`prev, e`next, e`freq, e`lastAccess, e`touches
      ensures ListValid() && lru == [e] + old(lru)
    {
      ghost var rest := lru;
      LruPushFront(e);
      Bump(e);
      assert Clocked(lru, clock) by { ClockedFront(e, rest, clock); }
      assert AllCounted(lru, decay) by { AllCountedFront(e, rest, decay); }
    }

    /** Makes the list catch up with a store that already holds `e`. */
    method Enlist(e: Entry)
      requires ListValid() && StoreValid() && e !in lru && NewEntry(e)
      requires entries == Elems(lru) + {e} && held == Total(Items(lru)) + |e.pages|
      modifies this`clock, this`head, this`tail, this`lru, lru`prev, lru`next
      modifies e`prev, e`next, e`freq, e`lastAccess, e`touches
      ensures Valid() && Items(lru) == [e.AsItem()] + old(Items(lru))
    {
      ghost var rest := lru;
      ListFront(e);
      FrontItems(e, rest);
      assert Agree();
    }

    lemma Fullness()
      requires Valid()
      ensures |free| + Total(Items(lru)) == nPages
      ensures Distinct(Items(lru)) && forall id :: Has(Items(lru), id) <==> id in items
    {
      DistinctIds(lru, items);
    }

    lemma RoomLacks(need: nat)
      requires Valid() && |free| < need <= nPages
      ensures lru != [] && Total(Items(lru)) > nPages - need
    {
      assert lru == [] ==> Items(lru) == [];
    }

    /** One eviction on the way to `need` free pages. */
    method EvictTowards(need: nat, ghost all: seq<Item>)
      requires Valid() && |free| < need <= nPages && Shrunk(Items(lru), all, nPages - need, policy.EvictLRU?)
      modifies this`head, this`tail, this`lru, this`entries, this`held, this`drawn
      modifies this`free, this`owner, this`items, this`occupancy, this`order, this`evictions, this`evictedCost
      modifies entries`prev, entries`next, entries`orderIdx
      ensures Valid() && |lru| < |old(lru)| && Shrunk(Items(lru), all, nPages - need, policy.EvictLRU?)
      ensures entries <= old(entries) && items.Keys <= old(items).Keys
      ensures Balanced(old(lru), old(evictions), old(evictedCost))
    {
      ghost var before := lru;
      assert lru != [] && Total(Items(lru)) > nPages - need by { RoomLacks(need); }
      var ok, k, _ := EvictOne();
      assert Shrunk(Items(lru), all, nPages - need, policy.EvictLRU?) by {
        EvictedItems(before, k, all, nPages - need, policy.EvictLRU?);
      }
      assert Balanced(before, old(evictions), old(evictedCost)) by { EvictionBalances(before, k); }
    }

    /** The counters have gone up by the number and the cost of the entries that left the list. */
    ghost predicate Balanced(before: seq<Entry>, evictions0: nat, cost0: nat)
      reads this`lru, this`evictions, this`evictedCost
    {
      evictions + |lru| == evictions0 + |before| && evictedCost + Cost(Items(lru)) == cost0 + Cost(Items(before))
    }

    lemma EvictionBalances(before: seq<Entry>, k: nat)
      requires k < |before|
      ensures Cost(Items(before)) == Cost(Items(Without(before, k))) + before[k].cost
    {
      ItemsToFront(before, k);
      CostWithout(Items(before), k);
    }

    /**
     * Evicts until `need` pages are free, and nothing once they are; under LRU exactly the shortest run of old blocks.
     */
    method MakeRoom(need: nat)
      requires Valid() && need <= nPages
      modifies this`head, this`tail, this`lru, this`entries, this`held, this`drawn
      modifies this`free, this`owner, this`items, this`occupancy, this`order, this`evictions, this`evictedCost
      modifies entries`prev, entries`next, entries`orderIdx
      ensures Valid() && need <= |free| && Balanced(old(lru), old(evictions), old(evictedCost))
      ensures Evicted(Items(lru), old(Items(lru)), nPages - need) && entries <= old(entries)
      ensures items.Keys <= old(items).Keys
      ensures policy.EvictLRU? ==> Items(lru) == Trim(old(Items(lru)), nPages - need)
    {
      ghost var all := Items(lru);
      while |free| < need
        invariant Valid() && Shrunk(Items(lru), all, nPages - need, policy.EvictLRU?)
        invariant Balanced(old(lru), old(evictions), old(evictedCost))
        invariant entries <= old(entries) && items.Keys <= old(items).Keys
        decreases |lru|
      {
        EvictTowards(need, all);
      }
      Fullness();
    }

    /** Stores a block for which room has been made, at the front of the list. */
    method Insert(b: Block, need: nat)
      requires Valid() && b.id !in items
      requires 0 < need <= |free| && Covers(need, |b.payload|, pageSize) && b.payload != []
      modifies this`entries, this`held, this`free, this`owner, this`items, this`occupancy, this`order, arena
      modifies this`clock, this`head, this`tail, this`lru, entries`prev, entries`next
      ensures Valid() && Items(lru) == [Item(b, need)] + old(Items(lru)) && Total(Items(lru)) <= nPages
      ensures fresh(entries - old(entries))
    {
      ListedAreEntries();
      var e := Admit(b, need);
      assert ListValid() && e !in lru;
      assert fresh(entries - old(entries)) by {
        assert entries - old(entries) <= {e};
      }
      Enlist(e);
      WithinArena();
    }

    /** What a block weighs here: its pages. */
    function Weighed(b: Block): Item
      requires pageSize > 0
    {
      Item(b, PagesNeeded(|b.payload|, pageSize))
    }

    /** Makes room for a new block and stores it. */
    method PutNew(b: Block, need: nat)
      requires Valid() && b.id !in items && Stores(Items(lru), Item(b, need), nPages)
      requires Covers(need, |b.payload|, pageSize) && b.payload != []
      modifies this`head, this`tail, this`lru, this`entries, this`held, this`drawn, this`clock
      modifies this`free, this`owner, this`items, this`occupancy, this`order, this`evictions, this`evictedCost
      modifies arena, entries
      ensures Valid() && fresh(entries - old(entries))
      ensures Replaced(b, need, old(Items(lru)), old(evictions), old(evictedCost))
    {
      MakeRoom(need);
      ghost var rest, kept := Items(lru), entries;
      Insert(b, need);
      assert fresh(entries - old(entries)) by {
        assert entries - old(entries) <= entries - kept;
      }
      NewIsReplaced(b, need, old(Items(lru)), rest, old(evictions), old(evictedCost));
    }

    /** The new block stands in front of what the evictions left, and the counters tell them. */
    ghost predicate Replaced(b: Block, need: nat, before: seq<Item>, evictions0: nat, cost0: nat)
      reads this`lru, this`evictions, this`evictedCost
    {
      var step := Step(before, Op.Put(Item(b, need)), Items(lru), nPages);
      var count := evictions + |lru| == evictions0 + |before| + 1;
      var cost := evictedCost + Cost(Items(lru)) == cost0 + Cost(before) + b.cost;
      var trimmed := need <= nPages && Items(lru) == [Item(b, need)] + Trim(before, nPages - need);
      step && count && cost && (policy.EvictLRU? ==> trimmed)
    }

    lemma NewIsReplaced(b: Block, need: nat, before: seq<Item>, rest: seq<Item>, evictions0: nat, cost0: nat)
      requires Items(lru) == [Item(b, need)] + rest && Total(Items(lru)) <= nPages
      requires Stores(before, Item(b, need), nPages)
      requires Evicted(rest, before, nPages - need) && (policy.EvictLRU? ==> rest == Trim(before, nPages - need))
      requires evictions + |rest| == evictions0 + |before| && evictedCost + Cost(rest) == cost0 + Cost(before)
      ensures Replaced(b, need, before, evictions0, cost0)
    {
      CostFront(Item(b, need), rest);
      StoreIsStep(before, Item(b, need), rest, nPages);
    }

    lemma WithinArena()
      requires Valid()
      ensures Total(Items(lru)) <= nPages
    {
    }

    /** What a put of `b` must have come to, from the list and the counters before it. */
    ghost predicate PutDone(b: Block, stored: bool, before: seq<Item>, evictions0: nat, cost0: nat)
      requires pageSize > 0
      reads this`lru, this`evictions, this`evictedCost
    {
      var decided := stored == Stores(before, Weighed(b), nPages);
      var asList := policy.EvictLRU? || !stored ==> Items(lru) == AfterPut(before, Weighed(b), nPages);
      var step := Step(before, Op.Put(Weighed(b)), Items(lru), nPages);
      var gone := if stored then |before| + 1 - |lru| else 0;
      var costGone := if stored then Cost(before) + b.cost - Cost(Items(lru)) else 0;
      decided && asList && step && evictions == evictions0 + gone && evictedCost == cost0 + costGone
    }

    lemma Refused(b: Block)
      requires Valid() && !Stores(Items(lru), Weighed(b), nPages) && !Has(Items(lru), b.id)
      ensures PutDone(b, false, Items(lru), evictions, evictedCost)
    {
      RefusalIsStep(Items(lru), Weighed(b), nPages);
    }

    method PutKnown(b: Block)
      requires Valid() && b.id in items && Has(Items(lru), b.id)
      modifies this`clock, this`head, this`tail, this`lru, entries
      ensures Valid() && PutDone(b, false, old(Items(lru)), old(evictions), old(evictedCost))
    {
      RefusalIsStep(Items(lru), Weighed(b), nPages);
      TouchKnown(items[b.id]);
    }

    method PutFresh(b: Block, need: nat)
      requires Valid() && b.id !in items && need == PagesNeeded(|b.payload|, pageSize)
      requires Stores(Items(lru), Weighed(b), nPages)
      modifies this`head, this`tail, this`lru, this`entries, this`held, this`drawn, this`clock
      modifies this`free, this`owner, this`items, this`occupancy, this`order, this`evictions, this`evictedCost
      modifies arena, entries
      ensures Valid() && fresh(entries - old(entries))
      ensures PutDone(b, true, old(Items(lru)), old(evictions), old(evictedCost))
    {
      NeededCovers(|b.payload|, pageSize);
      StoredPut(Items(lru), Weighed(b), nPages);
      PutNew(b, need);
    }

    /** Refuses exactly a known block, an empty one and one larger than the arena. Under LRU the list becomes
        what the recency list prescribes; under the cost policy only which blocks make room is left open. */
    method Put(b: Block) returns (stored: bool)
      requires Valid()
      modifies this`head, this`tail, this`lru, this`entries, this`held, this`drawn, this`clock
      modifies this`free, this`owner, this`items, this`occupancy, this`order, this`evictions, this`evictedCost
      modifies arena, entries
      ensures Valid() && fresh(entries - old(entries))
      ensures PutDone(b, stored, old(Items(lru)), old(evictions), old(evictedCost))
      ensures stored <==> !Has(old(Items(lru)), b.id) && 0 < |b.payload| <= arena.Length
    {
      assert Has(Items(lru), b.id) <==> b.id in items by { Fullness(); }
      assert Fits(Weighed(b), nPages) <==> 0 < |b.payload| <= arena.Length by {
        NeededFits(|b.payload|, nPages, pageSize);
      }
      var need := PagesNeeded(|b.payload|, pageSize);
      assert Fits(Weighed(b), nPages) <==> 0 < need <= arena.Length / pageSize by { PagesInArena(nPages, pageSize); }
      if b.id in items {
        PutKnown(b);
        return false;
      }
      if need == 0 || need > arena.Length / pageSize {
        Refused(b);
        return false;
      }
      PutFresh(b, need);
      return true;
    }

    // ----- what validity means -----

    /** A page is free or belongs to exactly one stored block. */
    ghost predicate PageSafe(p: nat)
      reads this`free, this`lru
    {
      && (p in free <==> forall e :: e in lru ==> p !in e.pages)
      && (forall e, f :: e in lru && f in lru && p in e.pages && p in f.pages ==> e == f)
    }

    /** Arena safety: every page is safe and listed once, and bytes in use and bytes free make up the arena. */
    ghost predicate ArenaSafe()
      reads this`free, this`lru, this`occupancy
    {
      && NoRepeat(free) && (forall e :: e in lru ==> NoRepeat(e.pages))
      && (forall p: nat :: p < nPages ==> PageSafe(p))
      && occupancy == Total(Items(lru)) * pageSize && occupancy + |free| * pageSize == arena.Length
    }

    lemma ArenaIsSafe()
      requires Valid()
      ensures ArenaSafe()
    {
      forall p: nat | p < nPages
        ensures PageSafe(p)
      {
        PagesPartitioned(p);
      }
      PagesListedOnce();
      OccupancyExact();
    }

    lemma PagesListedOnce()
      requires Valid()
      ensures NoRepeat(free) && forall e :: e in lru ==> NoRepeat(e.pages)
    {
      forall e | e in lru
        ensures Owns(e, owner)
      {
        assert e in entries;
      }
    }

    lemma PagesPartitioned(p: nat)
      requires Valid() && p < nPages
      ensures PageSafe(p)
    {
      assert Accounted(p, entries, free, owner);
      forall e | e in lru
        ensures Owns(e, owner)
      {
        assert e in entries;
      }
      if owner[p] != null {
        assert owner[p] in Elems(lru);
      }
    }

    /** Occupancy is the exact size of the pages in use, and never more than the arena. */
    lemma OccupancyExact()
      requires Valid()
      ensures occupancy == Total(Items(lru)) * pageSize && occupancy + |free| * pageSize == arena.Length
    {
      OffsetIsProduct(held, pageSize);
      OffsetIsProduct(|free|, pageSize);
      OffsetAdd(held, |free|, pageSize);
    }

    /** The list is strictly in order of last access. */
    lemma ListByLastAccess(i: nat, j: nat)
      requires Valid() && i < j < |lru|
      ensures lru[i].lastAccess > lru[j].lastAccess
    {
      assert Clocked(lru, clock);
    }

    /** Every stored frecency is the decayed sum of its touches, at least 1 and below 1 / (1 - decay). */
    lemma FrecencyExact(i: nat)
      requires Valid() && i < |lru|
      ensures Counts(lru[i].freq, lru[i].touches, lru[i].lastAccess, decay)
      ensures 1.0 <= lru[i].freq < 1.0 / (1.0 - decay)
    {
      assert Counted(lru[i], decay);
      PlainBounds(lru[i].touches, decay);
    }
  }
}
