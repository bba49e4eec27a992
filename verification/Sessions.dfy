/** Series of calls on a store, from the empty store on, and what their answers must have been. */
module Sessions {
  import opened Options
  import opened BlockTypes
  import opened Recency
  import opened Paging
  import LruStore
  import PagedStore

  datatype Request = PutBlock(block: Block) | GetBlock(id: BlockId) | Lookup(id: BlockId) | TouchBlock(id: BlockId)

  datatype Answer = Stored(ok: bool) | Found(block: Option<Block>) | Present(held: bool) | Done

  /** What a request does to the recency list, for blocks weighed in bytes or in pages. */
  function OpOf(r: Request, weight: Block -> nat): Op {
    match r
    case PutBlock(b) => Put(Item(b, weight(b)))
    case GetBlock(id) => Use(id)
    case Lookup(id) => Use(id)
    case TouchBlock(id) => Use(id)
  }

  function OpsOf(requests: seq<Request>, weight: Block -> nat): seq<Op> {
    seq(|requests|, k requires 0 <= k < |requests| => OpOf(requests[k], weight))
  }

  /** The block a store must return: the one its list holds under the id. */
  ghost predicate Holds(l: seq<Item>, id: BlockId, found: Option<Block>) {
    && (found.Some? <==> Has(l, id))
    && (found.Some? ==> exists i: nat :: At(l, i, id) && l[i].block == found.value)
  }

  /** The right answer of a store that holds `l`. */
  ghost predicate Right(l: seq<Item>, r: Request, a: Answer, weight: Block -> nat, capacity: nat) {
    match r
    case PutBlock(b) => a == Stored(Stores(l, Item(b, weight(b)), capacity))
    case GetBlock(id) => a.Found? && Holds(l, id, a.block)
    case Lookup(id) => a == Present(Has(l, id))
    case TouchBlock(_) => a == Done
  }

  ghost predicate RightAt(lists: seq<seq<Item>>, requests: seq<Request>, answers: seq<Answer>, weight: Block -> nat,
                          capacity: nat, k: nat) {
    k < |lists| && k < |requests| && k < |answers| && Right(lists[k], requests[k], answers[k], weight, capacity)
  }

  /** The lists before and after every request, each a step of the recency list, and each answer right. */
  ghost predicate Session(lists: seq<seq<Item>>, requests: seq<Request>, answers: seq<Answer>, weight: Block -> nat,
                          capacity: nat) {
    && |answers| == |requests| && History(lists, OpsOf(requests, weight), capacity)
    && forall k {:trigger RightAt(lists, requests, answers, weight, capacity, k)} ::
         0 <= k < |requests| ==> RightAt(lists, requests, answers, weight, capacity, k)
  }

  // ----- one request after another -----

  lemma SessionNext(lists: seq<seq<Item>>, requests: seq<Request>, answers: seq<Answer>, weight: Block -> nat,
                    capacity: nat, r: Request, a: Answer, l': seq<Item>)
    requires Session(lists, requests, answers, weight, capacity)
    requires Step(lists[|requests|], OpOf(r, weight), l', capacity) && Right(lists[|requests|], r, a, weight, capacity)
    ensures Session(lists + [l'], requests + [r], answers + [a], weight, capacity)
  {
    var ops, ops' := OpsOf(requests, weight), OpsOf(requests + [r], weight);
    forall k | 0 <= k < |ops'|
      ensures StepAt(lists + [l'], ops', capacity, k)
    {
      assert k < |ops| ==> StepAt(lists, ops, capacity, k);
    }
    forall k | 0 <= k < |ops'|
      ensures RightAt(lists + [l'], requests + [r], answers + [a], weight, capacity, k)
    {
      assert k < |ops| ==> RightAt(lists, requests, answers, weight, capacity, k);
    }
  }

  lemma SessionBefore(lists: seq<seq<Item>>, requests: seq<Request>, weight: Block -> nat, capacity: nat, k: nat)
    requires History(lists, OpsOf(requests, weight), capacity) && k <= |requests|
    ensures History(lists[..k + 1], OpsOf(requests[..k], weight), capacity)
  {
    var lists', ops' := lists[..k + 1], OpsOf(requests[..k], weight);
    forall i | 0 <= i < |ops'|
      ensures StepAt(lists', ops', capacity, i)
    {
      assert StepAt(lists, OpsOf(requests, weight), capacity, i);
    }
  }

  lemma TakeNext(requests: seq<Request>, k: nat)
    requires k < |requests|
    ensures requests[..k] + [requests[k]] == requests[..k + 1]
  {
  }

  // ----- what the answers mean -----

  /** Request j newly stored block b, and the store has held it in every state from then to state k. */
  ghost predicate StoredUntil(lists: seq<seq<Item>>, requests: seq<Request>, answers: seq<Answer>, weight: Block -> nat,
                              b: Block, j: nat, k: nat) {
    && j < k < |lists| && j < |requests| && j < |answers|
    && requests[j] == PutBlock(b) && answers[j] == Stored(true)
    && forall m :: j < m <= k ==> Item(b, weight(b)) in lists[m]
  }

  /**
   * Round trip: what a Get returns is, byte for byte, a block that an earlier Put newly stored and that stayed since.
   */
  lemma RoundTrip(lists: seq<seq<Item>>, requests: seq<Request>, answers: seq<Answer>, weight: Block -> nat,
                  capacity: nat, k: nat) returns (j: nat)
    requires Session(lists, requests, answers, weight, capacity) && k < |requests|
    requires requests[k].GetBlock? && answers[k].Found? && answers[k].block.Some?
    ensures answers[k].block.value.id == requests[k].id
    ensures StoredUntil(lists, requests, answers, weight, answers[k].block.value, j, k)
  {
    assert RightAt(lists, requests, answers, weight, capacity, k);
    var b := answers[k].block.value;
    var i: nat :| At(lists[k], i, requests[k].id) && lists[k][i].block == b;
    var item := lists[k][i];
    SessionBefore(lists, requests, weight, capacity, k);
    j := HeldSinceStored(lists[..k + 1], OpsOf(requests[..k], weight), capacity, item);
    assert RightAt(lists, requests, answers, weight, capacity, j);
    forall m | j < m <= k
      ensures item in lists[m]
    {
      assert lists[..k + 1][m] == lists[m];
    }
  }

  /** Request m newly stored another block and evicted b for it. */
  ghost predicate EvictedBy(lists: seq<seq<Item>>, requests: seq<Request>, answers: seq<Answer>, weight: Block -> nat,
                            b: Block, m: nat) {
    && m < |requests| && m < |answers| && m + 1 < |lists|
    && requests[m].PutBlock? && answers[m] == Stored(true)
    && Item(b, weight(b)) in lists[m] && Item(b, weight(b)) !in lists[m + 1]
  }

  lemma StepLoses(l: seq<Item>, op: Op, l': seq<Item>, capacity: nat, item: Item)
    requires Step(l, op, l', capacity) && item in l && item !in l'
    ensures op.Put? && Stores(l, op.item, capacity)
  {
    TouchedHolds(l, IdOf(op), item);
  }

  /** A block that was stored and is gone was evicted by a Put in between. */
  lemma {:induction false} GoneMeansEvicted(lists: seq<seq<Item>>, requests: seq<Request>, answers: seq<Answer>,
                                            weight: Block -> nat, capacity: nat, b: Block, j: nat, k: nat)
      returns (m: nat)
    requires Session(lists, requests, answers, weight, capacity) && j <= k < |lists|
    requires Item(b, weight(b)) in lists[j] && Item(b, weight(b)) !in lists[k]
    ensures j <= m < k && EvictedBy(lists, requests, answers, weight, b, m)
    decreases k
  {
    var item := Item(b, weight(b));
    if item in lists[k - 1] {
      m := k - 1;
      assert StepAt(lists, OpsOf(requests, weight), capacity, m);
      assert RightAt(lists, requests, answers, weight, capacity, m);
      StepLoses(lists[m], OpOf(requests[m], weight), lists[m + 1], capacity, item);
    } else {
      m := GoneMeansEvicted(lists, requests, answers, weight, capacity, b, j, k - 1);
    }
  }

  lemma StoredIsHeld(l: seq<Item>, item: Item, l': seq<Item>, capacity: nat)
    requires Step(l, Put(item), l', capacity) && Stores(l, item, capacity)
    ensures item in l'
  {
    assert l'[0] in l';
  }

  /** Other direction: a Get that misses a block some earlier Put stored comes after a Put that evicted it. */
  lemma MissMeansEvicted(lists: seq<seq<Item>>, requests: seq<Request>, answers: seq<Answer>, weight: Block -> nat,
                         capacity: nat, j: nat, k: nat) returns (m: nat)
    requires Session(lists, requests, answers, weight, capacity) && j < k < |requests|
    requires requests[j].PutBlock? && answers[j] == Stored(true)
    requires requests[k] == GetBlock(requests[j].block.id) && answers[k] == Found(None)
    ensures j < m < k && EvictedBy(lists, requests, answers, weight, requests[j].block, m)
  {
    var b := requests[j].block;
    var item := Item(b, weight(b));
    assert StepAt(lists, OpsOf(requests, weight), capacity, j);
    assert RightAt(lists, requests, answers, weight, capacity, j);
    assert RightAt(lists, requests, answers, weight, capacity, k);
    StoredIsHeld(lists[j], item, lists[j + 1], capacity);
    if item in lists[k] {
      var i: nat :| i < |lists[k]| && lists[k][i] == item;
      assert At(lists[k], i, b.id);
    }
    m := GoneMeansEvicted(lists, requests, answers, weight, capacity, b, j + 1, k);
  }

  // ----- counters -----

  datatype Counters = Counters(hits: nat, misses: nat, evictions: nat, evictedCost: nat)

  predicate Hit(a: Answer) {
    (a.Found? && a.block.Some?) || a == Present(true)
  }

  predicate Miss(a: Answer) {
    a == Found(None) || a == Present(false)
  }

  function One(b: bool): nat {
    if b then 1 else 0
  }

  /** What one answer adds to the hits, the misses, the blocks stored and their cost. */
  function Added(r: Request, a: Answer): Counters {
    var stored := r.PutBlock? && a == Stored(true);
    Counters(One(Hit(a)), One(Miss(a)), One(stored), if stored then r.block.cost else 0)
  }

  function AddedIn(requests: seq<Request>, answers: seq<Answer>): Counters
    requires |requests| == |answers|
  {
    if requests == [] then Counters(0, 0, 0, 0)
    else
      var k := |requests| - 1;
      Sum(AddedIn(requests[..k], answers[..k]), Added(requests[k], answers[k]))
  }

  function Sum(c: Counters, d: Counters): Counters {
    Counters(c.hits + d.hits, c.misses + d.misses, c.evictions + d.evictions, c.evictedCost + d.evictedCost)
  }

  /** The counters with the blocks still held, and their cost, counted in. */
  function WithHeld(c: Counters, l: seq<Item>): Counters {
    Counters(c.hits, c.misses, c.evictions + |l|, c.evictedCost + Cost(l))
  }

  lemma AddedNext(requests: seq<Request>, answers: seq<Answer>, r: Request, a: Answer)
    requires |requests| == |answers|
    ensures AddedIn(requests + [r], answers + [a]) == Sum(AddedIn(requests, answers), Added(r, a))
  {
    assert (requests + [r])[..|requests|] == requests && (answers + [a])[..|answers|] == answers;
  }

  /** One call as it must be: a step of the list, the right answer, and every block accounted for. */
  ghost predicate CallOk(l: seq<Item>, c: Counters, r: Request, a: Answer, l': seq<Item>, c': Counters,
                         weight: Block -> nat, capacity: nat) {
    var step, right := Step(l, OpOf(r, weight), l', capacity), Right(l, r, a, weight, capacity);
    var counted := WithHeld(c', l') == Sum(WithHeld(c, l), Added(r, a));
    step && right && counted
  }

  lemma UseOk(l: seq<Item>, c: Counters, r: Request, a: Answer, c': Counters, weight: Block -> nat, capacity: nat)
    requires !r.PutBlock? && Right(l, r, a, weight, capacity) && c' == Sum(c, Added(r, a))
    ensures CallOk(l, c, r, a, Touched(l, r.id), c', weight, capacity)
  {
    TouchedSame(l, r.id);
  }

  // ----- the paged store -----

  function PageWeight(pageSize: nat): Block -> nat {
    (b: Block) => if pageSize > 0 then PagesNeeded(|b.payload|, pageSize) else 0
  }

  ghost function Counted(p: PagedStore.Paged): Counters
    reads p`hits, p`misses, p`evictions, p`evictedCost
  {
    Counters(p.hits, p.misses, p.evictions, p.evictedCost)
  }

  lemma StoreOk(l: seq<Item>, c: Counters, b: Block, stored: bool, l': seq<Item>, c': Counters, weight: Block -> nat,
                   capacity: nat)
    requires stored == Stores(l, Item(b, weight(b)), capacity) && Step(l, Put(Item(b, weight(b))), l', capacity)
    requires !stored ==> l' == AfterPut(l, Item(b, weight(b)), capacity)
    requires c'.evictions == c.evictions + if stored then |l| + 1 - |l'| else 0
    requires c'.evictedCost == c.evictedCost + if stored then Cost(l) + b.cost - Cost(l') else 0
    requires c'.hits == c.hits && c'.misses == c.misses
    ensures CallOk(l, c, PutBlock(b), Stored(stored), l', c', weight, capacity)
  {
    TouchedSame(l, b.id);
  }

  /** What every call on the paged store leaves. */
  ghost predicate PagedOk(p: PagedStore.Paged, l: seq<Item>, c: Counters, r: Request, a: Answer)
    reads p`lru, p`hits, p`misses, p`evictions, p`evictedCost
  {
    CallOk(l, c, r, a, PagedStore.Items(p.lru), Counted(p), PageWeight(p.pageSize), p.nPages)
  }

  method PutPaged(p: PagedStore.Paged, b: Block) returns (a: Answer)
    requires p.Valid()
    modifies p, p.arena, p.entries
    ensures p.Valid() && fresh(p.entries - old(p.entries))
    ensures PagedOk(p, old(PagedStore.Items(p.lru)), old(Counted(p)), PutBlock(b), a)
  {
    ghost var l, c := PagedStore.Items(p.lru), Counted(p);
    var stored := p.Put(b);
    StoreOk(l, c, b, stored, PagedStore.Items(p.lru), Counted(p), PageWeight(p.pageSize), p.nPages);
    a := Stored(stored);
  }

  method GetPaged(p: PagedStore.Paged, id: BlockId) returns (a: Answer)
    requires p.Valid()
    modifies p`clock, p`head, p`tail, p`lru, p`hits, p`misses, p.entries
    ensures p.Valid()
    ensures PagedOk(p, old(PagedStore.Items(p.lru)), old(Counted(p)), GetBlock(id), a)
  {
    ghost var l, c := PagedStore.Items(p.lru), Counted(p);
    var found := p.Get(id);
    a := Found(found);
    UseOk(l, c, GetBlock(id), a, Counted(p), PageWeight(p.pageSize), p.nPages);
  }

  method LookupPaged(p: PagedStore.Paged, id: BlockId) returns (a: Answer)
    requires p.Valid()
    modifies p`clock, p`head, p`tail, p`lru, p`hits, p`misses, p.entries
    ensures p.Valid()
    ensures PagedOk(p, old(PagedStore.Items(p.lru)), old(Counted(p)), Lookup(id), a)
  {
    ghost var l, c := PagedStore.Items(p.lru), Counted(p);
    var held := p.Contains(id);
    a := Present(held);
    UseOk(l, c, Lookup(id), a, Counted(p), PageWeight(p.pageSize), p.nPages);
  }

  method TouchPaged(p: PagedStore.Paged, id: BlockId) returns (a: Answer)
    requires p.Valid()
    modifies p`clock, p`head, p`tail, p`lru, p`hits, p`misses, p.entries
    ensures p.Valid()
    ensures PagedOk(p, old(PagedStore.Items(p.lru)), old(Counted(p)), TouchBlock(id), a)
  {
    ghost var l, c := PagedStore.Items(p.lru), Counted(p);
    p.Touch(id);
    a := Done;
    UseOk(l, c, TouchBlock(id), a, Counted(p), PageWeight(p.pageSize), p.nPages);
  }

  method CallPaged(p: PagedStore.Paged, r: Request) returns (a: Answer)
    requires p.Valid()
    modifies p, p.arena, p.entries
    ensures p.Valid() && fresh(p.entries - old(p.entries))
    ensures PagedOk(p, old(PagedStore.Items(p.lru)), old(Counted(p)), r, a)
  {
    match r
    case PutBlock(b) => a := PutPaged(p, b);
    case GetBlock(id) => a := GetPaged(p, id);
    case Lookup(id) => a := LookupPaged(p, id);
    case TouchBlock(id) => a := TouchPaged(p, id);
  }

  /** A session, with counters that tell every block stored: evicted, or still held. */
  ghost predicate Served(lists: seq<seq<Item>>, requests: seq<Request>, answers: seq<Answer>, c: Counters,
                         weight: Block -> nat, capacity: nat) {
    var session := Session(lists, requests, answers, weight, capacity);
    session && WithHeld(c, lists[|requests|]) == AddedIn(requests, answers)
  }

  lemma ServedNext(lists: seq<seq<Item>>, requests: seq<Request>, answers: seq<Answer>, c: Counters,
                   weight: Block -> nat, capacity: nat, r: Request, a: Answer, l': seq<Item>, c': Counters)
    requires Served(lists, requests, answers, c, weight, capacity)
    requires CallOk(lists[|requests|], c, r, a, l', c', weight, capacity)
    ensures Served(lists + [l'], requests + [r], answers + [a], c', weight, capacity)
  {
    SessionNext(lists, requests, answers, weight, capacity, r, a, l');
    AddedNext(requests, answers, r, a);
  }

  /** The paged store has served these requests with these answers. */
  ghost predicate ServedBy(p: PagedStore.Paged, lists: seq<seq<Item>>, requests: seq<Request>, answers: seq<Answer>)
    reads p`lru, p`hits, p`misses, p`evictions, p`evictedCost
  {
    var served := Served(lists, requests, answers, Counted(p), PageWeight(p.pageSize), p.nPages);
    served && lists[|requests|] == PagedStore.Items(p.lru)
  }

  method ServeNext(p: PagedStore.Paged, ghost lists: seq<seq<Item>>, ghost requests: seq<Request>,
                   ghost answers: seq<Answer>, r: Request) returns (a: Answer, ghost l': seq<Item>)
    requires p.Valid() && ServedBy(p, lists, requests, answers)
    modifies p, p.arena, p.entries
    ensures p.Valid() && fresh(p.entries - old(p.entries))
    ensures ServedBy(p, lists + [l'], requests + [r], answers + [a])
  {
    ghost var c := Counted(p);
    a := CallPaged(p, r);
    l' := PagedStore.Items(p.lru);
    ServedNext(lists, requests, answers, c, PageWeight(p.pageSize), p.nPages, r, a, l', Counted(p));
  }

  method ServeAll(p: PagedStore.Paged, requests: seq<Request>)
      returns (answers: seq<Answer>, ghost lists: seq<seq<Item>>)
    requires p.Valid() && ServedBy(p, [[]], [], [])
    modifies p, p.arena, p.entries
    ensures p.Valid() && ServedBy(p, lists, requests, answers)
  {
    answers, lists := [], [[]];
    ghost var done: seq<Request> := [];
    for k := 0 to |requests|
      invariant p.Valid() && fresh(p.entries - old(p.entries))
      invariant ServedBy(p, lists, done, answers) && done == requests[..k]
    {
      TakeNext(requests, k);
      var a, l' := ServeNext(p, lists, done, answers, requests[k]);
      answers, lists, done := answers + [a], lists + [l'], done + [requests[k]];
    }
    assert done == requests;
  }

  /** Every series of calls on a new paged store, under either policy and for every random source. */
  method ServePaged(capacityBytes: nat, pageSize: nat, policy: PagedStore.Policy, decay: real,
                    rng: PagedStore.Rng, requests: seq<Request>)
      returns (p: PagedStore.Paged, answers: seq<Answer>, ghost lists: seq<seq<Item>>)
    requires pageSize > 0 && 0.0 < decay < 1.0
    ensures p.pageSize == pageSize && p.policy == policy && p.nPages == capacityBytes / pageSize && p.rng == rng
    ensures p.Valid() && p.ArenaSafe() && ServedBy(p, lists, requests, answers)
  {
    p := new PagedStore.Paged(capacityBytes, pageSize, policy, decay, rng);
    answers, lists := ServeAll(p, requests);
    p.ArenaIsSafe();
  }

  // ----- the byte-budget store -----

  ghost function Tally(s: LruStore.LRU): Counters
    reads s`hits, s`misses, s`evictions, s`evictedCost
  {
    Counters(s.hits, s.misses, s.evictions, s.evictedCost)
  }

  /** What the recency list becomes: under LRU nothing is left open. */
  ghost function Next(l: seq<Item>, op: Op, capacity: nat): seq<Item> {
    match op
    case Put(item) => AfterPut(l, item, capacity)
    case Use(id) => Touched(l, id)
  }

  ghost predicate LruOk(s: LruStore.LRU, l: seq<Item>, c: Counters, r: Request, a: Answer)
    reads s`ll, s`hits, s`misses, s`evictions, s`evictedCost
  {
    var called := CallOk(l, c, r, a, s.ll, Tally(s), LruStore.BlockSize, s.cap);
    called && s.ll == Next(l, OpOf(r, LruStore.BlockSize), s.cap)
  }

  method PutLru(s: LruStore.LRU, b: Block) returns (a: Answer)
    requires s.Valid()
    modifies s
    ensures s.Valid() && LruOk(s, old(s.ll), old(Tally(s)), PutBlock(b), a)
  {
    ghost var l, c := s.ll, Tally(s);
    PutIsStep(l, LruStore.Sized(b), s.cap);
    var stored := s.Put(b);
    StoreOk(l, c, b, stored, s.ll, Tally(s), LruStore.BlockSize, s.cap);
    a := Stored(stored);
  }

  method GetLru(s: LruStore.LRU, id: BlockId) returns (a: Answer)
    requires s.Valid()
    modifies s`ll, s`hits, s`misses
    ensures s.Valid() && LruOk(s, old(s.ll), old(Tally(s)), GetBlock(id), a)
  {
    ghost var l, c := s.ll, Tally(s);
    var found := s.Get(id);
    a := Found(found);
    UseOk(l, c, GetBlock(id), a, Tally(s), LruStore.BlockSize, s.cap);
  }

  method LookupLru(s: LruStore.LRU, id: BlockId) returns (a: Answer)
    requires s.Valid()
    modifies s`ll, s`hits, s`misses
    ensures s.Valid() && LruOk(s, old(s.ll), old(Tally(s)), Lookup(id), a)
  {
    ghost var l, c := s.ll, Tally(s);
    var held := s.Contains(id);
    a := Present(held);
    UseOk(l, c, Lookup(id), a, Tally(s), LruStore.BlockSize, s.cap);
  }

  method TouchLru(s: LruStore.LRU, id: BlockId) returns (a: Answer)
    requires s.Valid()
    modifies s`ll
    ensures s.Valid() && LruOk(s, old(s.ll), old(Tally(s)), TouchBlock(id), a)
  {
    ghost var l, c := s.ll, Tally(s);
    s.Touch(id);
    a := Done;
    UseOk(l, c, TouchBlock(id), a, Tally(s), LruStore.BlockSize, s.cap);
  }

  method CallLru(s: LruStore.LRU, r: Request) returns (a: Answer)
    requires s.Valid()
    modifies s
    ensures s.Valid() && LruOk(s, old(s.ll), old(Tally(s)), r, a)
  {
    match r
    case PutBlock(b) => a := PutLru(s, b);
    case GetBlock(id) => a := GetLru(s, id);
    case Lookup(id) => a := LookupLru(s, id);
    case TouchBlock(id) => a := TouchLru(s, id);
  }

  /** The byte-budget store has served these requests, and its list is what the recency list prescribes. */
  ghost predicate ServedByLru(s: LruStore.LRU, lists: seq<seq<Item>>, requests: seq<Request>, answers: seq<Answer>)
    reads s`ll, s`hits, s`misses, s`evictions, s`evictedCost
  {
    var served := Served(lists, requests, answers, Tally(s), LruStore.BlockSize, s.cap);
    served && lists[|requests|] == s.ll && s.ll == After(OpsOf(requests, LruStore.BlockSize), s.cap)
  }

  lemma AfterNext(requests: seq<Request>, r: Request, capacity: nat)
    ensures After(OpsOf(requests + [r], LruStore.BlockSize), capacity)
         == Next(After(OpsOf(requests, LruStore.BlockSize), capacity), OpOf(r, LruStore.BlockSize), capacity)
  {
    var ops := OpsOf(requests + [r], LruStore.BlockSize);
    assert ops[..|ops| - 1] == OpsOf(requests, LruStore.BlockSize);
  }

  method ServeNextLru(s: LruStore.LRU, ghost lists: seq<seq<Item>>, ghost requests: seq<Request>,
                      ghost answers: seq<Answer>, r: Request) returns (a: Answer, ghost l': seq<Item>)
    requires s.Valid() && ServedByLru(s, lists, requests, answers)
    modifies s
    ensures s.Valid() && ServedByLru(s, lists + [l'], requests + [r], answers + [a])
  {
    ghost var c := Tally(s);
    a := CallLru(s, r);
    l' := s.ll;
    ServedNext(lists, requests, answers, c, LruStore.BlockSize, s.cap, r, a, l', Tally(s));
    AfterNext(requests, r, s.cap);
  }

  method ServeAllLru(s: LruStore.LRU, requests: seq<Request>)
      returns (answers: seq<Answer>, ghost lists: seq<seq<Item>>)
    requires s.Valid() && ServedByLru(s, [[]], [], [])
    modifies s
    ensures s.Valid() && ServedByLru(s, lists, requests, answers)
  {
    answers, lists := [], [[]];
    ghost var done: seq<Request> := [];
    for k := 0 to |requests|
      invariant s.Valid() && ServedByLru(s, lists, done, answers) && done == requests[..k]
    {
      TakeNext(requests, k);
      var a, l' := ServeNextLru(s, lists, done, answers, requests[k]);
      answers, lists, done := answers + [a], lists + [l'], done + [requests[k]];
    }
    assert done == requests;
  }

  /** Every series of calls on a new byte-budget store. */
  method ServeLru(capacityBytes: nat, requests: seq<Request>)
      returns (s: LruStore.LRU, answers: seq<Answer>, ghost lists: seq<seq<Item>>)
    ensures s.Valid() && s.cap == capacityBytes && ServedByLru(s, lists, requests, answers)
  {
    s := new LruStore.LRU(capacityBytes);
    answers, lists := ServeAllLru(s, requests);
  }
}
