/**
 * The consistent hash ring. Where a virtual node lies is an arbitrary function of node id and index, so
 * everything here holds whatever the hash does, colliding points included.
 */
module HashRing {
  import opened Options
  import opened BlockTypes
  import opened Sequences
  import Directory

  type NodeId = Directory.NodeId

  const DEFAULT_VNODES: nat := 128

  datatype VNode = VNode(point: nat, node: NodeId)

  datatype Ring = Ring(epoch: nat, vnodes: seq<VNode>, addrs: map<NodeId, string>)

  /** How a membership is laid out: virtual nodes per node, and the hash that places them. */
  datatype Layout = Layout(perNode: nat, hash: (NodeId, nat) -> nat) {
    function Place(x: NodeId, i: nat): VNode {
      VNode(hash(x, i), x)
    }
  }

  // ----- order of virtual nodes -----

  predicate LexLess(a: NodeId, b: NodeId) {
    if b == [] then false
    else if a == [] then true
    else if a[0] != b[0] then a[0] < b[0]
    else LexLess(a[1..], b[1..])
  }

  lemma {:induction false} LexTotal(a: NodeId, b: NodeId)
    ensures !LexLess(a, a)
    ensures LexLess(a, b) ==> !LexLess(b, a)
    ensures a == b || LexLess(a, b) || LexLess(b, a)
  {
    if a == [] {
    } else {
      LexTotal(a[1..], if b == [] then b else b[1..]);
      assert a == [a[0]] + a[1..];
      assert b != [] ==> b == [b[0]] + b[1..];
    }
  }

  lemma {:induction false} LexTransitive(a: NodeId, b: NodeId, c: NodeId)
    requires LexLess(a, b) && LexLess(b, c)
    ensures LexLess(a, c)
  {
    if a == [] || a[0] != b[0] || b[0] != c[0] {
    } else {
      LexTransitive(a[1..], b[1..], c[1..]);
    }
  }

  /** The order of strings: by the first place where they differ, a string that ends there first. */
  lemma {:induction false} LexIs(a: NodeId, b: NodeId)
    ensures LexLess(a, b) <==> exists k: nat :: FirstDiffers(a, b, k)
  {
    if a == [] || b == [] || a[0] != b[0] {
      assert LexLess(a, b) ==> FirstDiffers(a, b, 0);
    } else {
      LexIs(a[1..], b[1..]);
      if k: nat :| FirstDiffers(a[1..], b[1..], k) {
        assert forall i :: 0 < i <= k && i < |a| ==> a[i] == a[1..][i - 1] && b[i] == b[1..][i - 1];
        assert FirstDiffers(a, b, k + 1);
      }
      if k: nat :| FirstDiffers(a, b, k) {
        assert FirstDiffers(a[1..], b[1..], k - 1);
      }
    }
  }

  ghost predicate FirstDiffers(a: NodeId, b: NodeId, k: nat) {
    k <= |a| && k < |b| && (forall i :: 0 <= i < k ==> a[i] == b[i]) && (k < |a| ==> a[k] < b[k])
  }

  /** The order the ring is sorted in: by point, colliding points by node id. */
  predicate Less(a: VNode, b: VNode) {
    a.point < b.point || (a.point == b.point && LexLess(a.node, b.node))
  }

  lemma LessTotal(a: VNode, b: VNode)
    ensures !Less(a, a)
    ensures Less(a, b) ==> !Less(b, a)
    ensures a == b || Less(a, b) || Less(b, a)
  {
    LexTotal(a.node, b.node);
  }

  lemma LessTransitive(a: VNode, b: VNode, c: VNode)
    requires Less(a, b) && Less(b, c)
    ensures Less(a, c)
  {
    if a.point == b.point == c.point {
      LexTransitive(a.node, b.node, c.node);
    }
  }

  ghost predicate Sorted(vs: seq<VNode>) {
    forall i, j :: 0 <= i < j < |vs| ==> !Less(vs[j], vs[i])
  }

  // ----- building a ring -----

  function PerNode(vnodesPerNode: int): nat {
    if vnodesPerNode <= 0 then DEFAULT_VNODES else vnodesPerNode
  }

  /** Exactly the virtual nodes of the members, in order. */
  ghost predicate Built(r: Ring, l: Layout) {
    && Sorted(r.vnodes)
    && (forall vn :: vn in r.vnodes <==> IsPlace(vn, r.addrs.Keys, l))
  }

  ghost predicate IsPlace(vn: VNode, members: set<NodeId>, l: Layout) {
    vn.node in members && exists i: nat :: i < l.perNode && l.Place(vn.node, i) == vn
  }

  lemma NotBeforeEarlier(vn: VNode, vs: seq<VNode>, i: nat, j: nat)
    requires Sorted(vs) && j <= i < |vs| && !Less(vn, vs[i])
    ensures !Less(vn, vs[j])
  {
    LessTotal(vs[j], vs[i]);
    if Less(vn, vs[j]) && Less(vs[j], vs[i]) {
      LessTransitive(vn, vs[j], vs[i]);
    }
  }

  lemma InsertSorted(vn: VNode, vs: seq<VNode>, i: nat)
    requires Sorted(vs) && i <= |vs|
    requires forall j :: 0 <= j < i ==> !Less(vn, vs[j])
    requires forall j :: i <= j < |vs| ==> !Less(vs[j], vn)
    ensures Sorted(vs[..i] + [vn] + vs[i..])
  {
  }

  method Insert(vn: VNode, vs: seq<VNode>) returns (out: seq<VNode>)
    requires Sorted(vs)
    ensures Sorted(out) && multiset(out) == multiset(vs) + multiset{vn}
  {
    var i := |vs|;
    while i > 0 && Less(vn, vs[i - 1])
      invariant 0 <= i <= |vs|
      invariant forall j :: i <= j < |vs| ==> !Less(vs[j], vn)
    {
      LessTotal(vn, vs[i - 1]);
      i := i - 1;
    }
    InsertAt(vn, vs, i);
    out := vs[..i] + [vn] + vs[i..];
  }

  lemma InsertAt(vn: VNode, vs: seq<VNode>, i: nat)
    requires Sorted(vs) && i <= |vs| && (i > 0 ==> !Less(vn, vs[i - 1]))
    requires forall j :: i <= j < |vs| ==> !Less(vs[j], vn)
    ensures Sorted(vs[..i] + [vn] + vs[i..])
    ensures multiset(vs[..i] + [vn] + vs[i..]) == multiset(vs) + multiset{vn}
  {
    forall j | 0 <= j < i
      ensures !Less(vn, vs[j])
    {
      NotBeforeEarlier(vn, vs, i - 1, j);
    }
    InsertSorted(vn, vs, i);
    InsertOne(vn, vs[..i], vs[i..]);
    assert vs == vs[..i] + vs[i..];
  }

  lemma InsertOne(vn: VNode, a: seq<VNode>, b: seq<VNode>)
    ensures multiset(a + [vn] + b) == multiset(a + b) + multiset{vn}
  {
  }

  method Sort(vs: seq<VNode>) returns (out: seq<VNode>)
    ensures Sorted(out) && multiset(out) == multiset(vs)
  {
    out := [];
    for i := 0 to |vs|
      invariant Sorted(out) && multiset(out) == multiset(vs[..i])
    {
      out := Insert(vs[i], out);
      assert vs[..i + 1] == vs[..i] + [vs[i]];
    }
    assert vs[..|vs|] == vs;
  }

  method AddPlaces(vs: seq<VNode>, x: NodeId, l: Layout) returns (out: seq<VNode>)
    ensures forall vn :: vn in out <==> vn in vs || IsPlace(vn, {x}, l)
  {
    out := vs;
    for i := 0 to l.perNode
      invariant forall vn :: vn in out <==> vn in vs || IsPlace(vn, {x}, Layout(i, l.hash))
    {
      ghost var before := out;
      out := out + [l.Place(x, i)];
      forall vn
        ensures IsPlace(vn, {x}, Layout(i + 1, l.hash)) <==> IsPlace(vn, {x}, Layout(i, l.hash)) || vn == l.Place(x, i)
      {
        assert vn == l.Place(x, i) ==> Layout(i + 1, l.hash).Place(x, i) == vn;
        if IsPlace(vn, {x}, Layout(i, l.hash)) {
          var j: nat :| j < i && Layout(i, l.hash).Place(x, j) == vn;
          assert Layout(i + 1, l.hash).Place(x, j) == vn;
        }
        if IsPlace(vn, {x}, Layout(i + 1, l.hash)) {
          var j: nat :| j < i + 1 && Layout(i + 1, l.hash).Place(x, j) == vn;
          assert Layout(i, l.hash).Place(x, j) == vn && l.Place(x, j) == vn;
        }
      }
    }
  }

  /** New: visits the members in any order, so the ring does not depend on how a map is iterated. */
  method New(epoch: nat, nodes: map<NodeId, string>, vnodesPerNode: int, hash: (NodeId, nat) -> nat) returns (r: Ring)
    ensures r.epoch == epoch && r.addrs == nodes
    ensures Built(r, Layout(if vnodesPerNode <= 0 then 128 else vnodesPerNode, hash))
    ensures forall vn :: vn in r.vnodes <==>
      && vn.node in nodes
      && exists i: nat :: i < (if vnodesPerNode <= 0 then 128 else vnodesPerNode) && hash(vn.node, i) == vn.point
  {
    var l := Layout(PerNode(vnodesPerNode), hash);
    var vs, todo := [], nodes.Keys;
    while todo != {}
      invariant todo <= nodes.Keys
      invariant forall vn :: vn in vs <==> IsPlace(vn, nodes.Keys - todo, l)
    {
      var x :| x in todo;
      vs := AddPlaces(vs, x, l);
      todo := todo - {x};
    }
    var sorted := Sort(vs);
    assert forall vn :: vn in sorted <==> vn in multiset(sorted);
    assert forall vn :: vn in vs <==> vn in multiset(vs);
    r := Ring(epoch, sorted, nodes);
    forall vn
      ensures IsPlace(vn, nodes.Keys, l) <==>
        vn.node in nodes && exists i: nat :: i < l.perNode && hash(vn.node, i) == vn.point
    {
      PlaceIs(l, nodes.Keys, vn);
    }
  }

  lemma PlaceIs(l: Layout, members: set<NodeId>, vn: VNode)
    ensures IsPlace(vn, members, l) <==>
      vn.node in members && exists i: nat :: i < l.perNode && l.hash(vn.node, i) == vn.point
  {
    if i: nat :| i < l.perNode && l.hash(vn.node, i) == vn.point {
      assert l.Place(vn.node, i) == vn;
    }
  }

  // ----- walking the ring from a key -----

  /** The first eight bytes, big-endian. */
  function KeyOf(id: BlockId): nat
    requires |id| >= 8
  {
    BigEndian(id[..8])
  }

  function BigEndian(bytes: seq<byte>): nat {
    if bytes == [] then 0 else BigEndian(bytes[..|bytes| - 1]) * 256 + bytes[|bytes| - 1] as nat
  }

  // ----- the key, digit by digit -----

  function Pow256(k: nat): nat {
    if k == 0 then 1 else 256 * Pow256(k - 1)
  }

  /** The number's digits to the base 256, highest first, are the bytes. */
  ghost predicate Reads(bytes: seq<byte>, key: nat) {
    && key < Pow256(|bytes|)
    && forall i {:trigger bytes[i]} :: 0 <= i < |bytes| ==> Digit(key, |bytes| - 1 - i) == bytes[i] as nat
  }

  /** Digit k, counted from the lowest. */
  function Digit(key: nat, k: nat): nat {
    if k == 0 then key % 256 else Digit(key / 256, k - 1)
  }

  lemma {:induction false} DigitIsQuotient(key: nat, k: nat)
    ensures Pow256(k) > 0 && Digit(key, k) == key / Pow256(k) % 256
  {
    if k == 0 {
    } else {
      DigitIsQuotient(key / 256, k - 1);
      DivTwice(key, Pow256(k - 1));
    }
  }

  lemma DivTwice(x: nat, p: nat)
    requires p > 0
    ensures x / 256 / p == x / (256 * p)
  {
    var q, m := x / 256 / p, x / 256 % p;
    var rest := 256 * m + x % 256;
    assert x / 256 == q * p + m;
    assert x == q * (256 * p) + rest by {
      assert 256 * (q * p) == q * (256 * p);
    }
    assert rest < 256 * p;
    QuotientIs(x, 256 * p, q, rest);
  }

  lemma QuotientIs(x: nat, d: nat, q: nat, rest: nat)
    requires x == q * d + rest && rest < d
    ensures x / d == q
  {
    SameQuotient(d, q, rest, x / d, x % d);
  }

  lemma SameQuotient(d: nat, q: nat, rest: nat, q': nat, rest': nat)
    requires q * d + rest == q' * d + rest' && rest < d && rest' < d
    ensures q == q'
  {
    if q < q' {
      NextMultiple(d, q, rest, q');
    } else if q > q' {
      NextMultiple(d, q', rest', q);
    }
  }

  lemma {:induction false} NextMultiple(d: nat, q: nat, rest: nat, more: nat)
    requires q < more && rest < d
    ensures q * d + rest < more * d
    decreases more
  {
    OneMore(more - 1, d);
    if q == more - 1 {
    } else {
      NextMultiple(d, q, rest, more - 1);
    }
  }

  lemma OneMore(k: nat, d: nat)
    ensures (k + 1) * d == k * d + d
  {
  }

  /** Exactly one number has the bytes as its digits. */
  lemma {:induction false} ReadsIff(bytes: seq<byte>, key: nat)
    ensures Reads(bytes, key) <==> key == BigEndian(bytes)
  {
    if bytes == [] {
    } else {
      var n := |bytes| - 1;
      var init := bytes[..n];
      ReadsIff(init, key / 256);
      assert Reads(bytes, key) <==> Reads(init, key / 256) && key % 256 == bytes[n] as nat by {
        ReadsNext(bytes, key);
      }
    }
  }

  lemma ReadsNext(bytes: seq<byte>, key: nat)
    requires bytes != []
    ensures var n := |bytes| - 1;
      Reads(bytes, key) <==> Reads(bytes[..n], key / 256) && key % 256 == bytes[n] as nat
  {
    var n := |bytes| - 1;
    var init := bytes[..n];
    assert Pow256(n + 1) == 256 * Pow256(n);
    forall i | 0 <= i < n
      ensures Digit(key, n - i) == Digit(key / 256, n - 1 - i) && init[i] == bytes[i]
    {
    }
    if Reads(bytes, key) {
      assert bytes[n] as nat == Digit(key, 0);
      forall i | 0 <= i < n
        ensures Digit(key / 256, n - 1 - i) == init[i] as nat
      {
        assert Digit(key, n - i) == bytes[i] as nat;
      }
    }
    if Reads(init, key / 256) && key % 256 == bytes[n] as nat {
      forall i | 0 <= i <= n
        ensures Digit(key, n - i) == bytes[i] as nat
      {
        if i < n {
          assert Digit(key / 256, n - 1 - i) == init[i] as nat;
        }
      }
    }
  }

  /** The key is the 64-bit number that the first eight bytes of the id spell, highest first. */
  lemma KeySpellsId(id: BlockId, key: nat)
    requires |id| >= 8
    ensures Reads(id[..8], key) <==> key == KeyOf(id)
    ensures KeyOf(id) < 0x1_0000_0000_0000_0000
    ensures forall i: nat :: i < 8 ==> Pow256(7 - i) > 0 && KeyOf(id) / Pow256(7 - i) % 256 == id[i] as nat
  {
    ReadsIff(id[..8], key);
    ReadsIff(id[..8], KeyOf(id));
    assert Pow256(4) == 0x1_0000_0000;
    assert Pow256(8) == 0x1_0000_0000_0000_0000;
    forall i: nat | i < 8
      ensures Pow256(7 - i) > 0 && KeyOf(id) / Pow256(7 - i) % 256 == id[i] as nat
    {
      DigitIsQuotient(KeyOf(id), 7 - i);
      assert id[..8][i] == id[i];
    }
  }

  /** Position k splits the ring at the key. */
  ghost predicate Splits(vs: seq<VNode>, key: nat, k: nat) {
    && k <= |vs|
    && (forall i :: 0 <= i < k ==> vs[i].point < key)
    && (forall i :: k <= i < |vs| ==> vs[i].point >= key)
  }

  /** Binary search for the first point at or after the key. */
  method Search(vs: seq<VNode>, key: nat) returns (k: nat)
    requires Sorted(vs)
    ensures Splits(vs, key, k)
  {
    k := 0;
    var hi := |vs|;
    while k < hi
      invariant 0 <= k <= hi <= |vs|
      invariant forall i :: 0 <= i < k ==> vs[i].point < key
      invariant forall i :: hi <= i < |vs| ==> vs[i].point >= key
    {
      var mid := (k + hi) / 2;
      assert forall i :: 0 <= i < mid ==> vs[i].point <= vs[mid].point;
      assert forall i :: mid < i < |vs| ==> vs[i].point >= vs[mid].point;
      if vs[mid].point >= key {
        hi := mid;
      } else {
        k := mid + 1;
      }
    }
  }

  /** The ring read once around, clockwise from the key. */
  function Walk(vs: seq<VNode>, k: nat): seq<VNode>
    requires k <= |vs|
  {
    vs[k..] + vs[..k]
  }

  function Nodes(vs: seq<VNode>): seq<NodeId> {
    seq(|vs|, i requires 0 <= i < |vs| => vs[i].node)
  }

  /** First occurrences only. */
  function FirstSeen(s: seq<NodeId>): seq<NodeId> {
    if s == [] then []
    else
      var d, x := FirstSeen(s[..|s| - 1]), s[|s| - 1];
      if x in d then d else d + [x]
  }

  // ----- what the owner order means -----

  predicate Wrapped(key: nat, vn: VNode) {
    vn.point < key
  }

  /** Clockwise from the key, a comes strictly before b. */
  predicate Nearer(key: nat, a: VNode, b: VNode) {
    if Wrapped(key, a) != Wrapped(key, b) then Wrapped(key, b) else Less(a, b)
  }

  const CIRCLE: int := 0x1_0000_0000_0000_0000

  /** How far it is from the key to the point, going up and around the circle of 64-bit numbers. */
  function Distance(key: nat, point: nat): nat {
    (point - key) % CIRCLE
  }

  /** Clockwise order is the order of distances, and colliding points go by node id. */
  lemma NearerIsDistance(key: nat, a: VNode, b: VNode)
    requires key < CIRCLE && a.point < CIRCLE && b.point < CIRCLE
    ensures Nearer(key, a, b) <==>
      || Distance(key, a.point) < Distance(key, b.point)
      || (Distance(key, a.point) == Distance(key, b.point) && LexLess(a.node, b.node))
  {
    assert forall p: nat :: p < CIRCLE ==> Distance(key, p) == if p >= key then p - key else p - key + CIRCLE;
  }

  /** Some virtual node of x comes before every virtual node of y. This involves no other member. */
  ghost predicate Ahead(l: Layout, key: nat, x: NodeId, y: NodeId) {
    exists i: nat {:trigger l.Place(x, i)} :: i < l.perNode && Leads(l, key, l.Place(x, i), y)
  }

  ghost predicate Leads(l: Layout, key: nat, vn: VNode, y: NodeId) {
    forall j: nat {:trigger l.Place(y, j)} :: j < l.perNode ==> Nearer(key, vn, l.Place(y, j))
  }

  /** All members, each once, nearest first. */
  ghost predicate IsOrder(order: seq<NodeId>, members: set<NodeId>, l: Layout, key: nat) {
    && NoRepeat(order)
    && (forall x :: x in order <==> x in members)
    && (forall i, j :: 0 <= i < j < |order| ==> Ahead(l, key, order[i], order[j]))
  }

  lemma {:induction false} OrderSize(order: seq<NodeId>, members: set<NodeId>)
    requires NoRepeat(order) && forall x :: x in order <==> x in members
    ensures |order| == |members|
  {
    if order == [] {
      assert members == {};
    } else {
      var rest := order[1..];
      assert order == [order[0]] + rest;
      NoRepeatIff(order);
      NoRepeatIff(rest);
      OrderSize(rest, members - {order[0]});
    }
  }

  lemma NearerTransitive(key: nat, a: VNode, b: VNode, c: VNode)
    requires Nearer(key, a, b) && Nearer(key, b, c)
    ensures Nearer(key, a, c)
  {
    if Less(a, b) && Less(b, c) {
      LessTransitive(a, b, c);
    }
  }

  lemma NearerIrreflexive(key: nat, a: VNode)
    ensures !Nearer(key, a, a)
  {
    LessTotal(a, a);
  }

  lemma AheadOneWay(l: Layout, key: nat, x: NodeId, y: NodeId)
    requires Ahead(l, key, x, y)
    ensures !Ahead(l, key, y, x)
  {
    if Ahead(l, key, y, x) {
      var i: nat :| i < l.perNode && Leads(l, key, l.Place(x, i), y);
      var j: nat :| j < l.perNode && Leads(l, key, l.Place(y, j), x);
      NearerTransitive(key, l.Place(x, i), l.Place(y, j), l.Place(x, i));
      NearerIrreflexive(key, l.Place(x, i));
    }
  }

  /** The order is determined by the membership and the layout alone. */
  lemma {:induction false} OrderUnique(a: seq<NodeId>, b: seq<NodeId>, members: set<NodeId>, l: Layout, key: nat)
    requires IsOrder(a, members, l, key) && IsOrder(b, members, l, key)
    ensures a == b
    decreases |a|
  {
    OrderSize(a, members);
    OrderSize(b, members);
    if a == [] {
    } else {
      assert a[0] in b;
      assert b[0] in a;
      if a[0] != b[0] {
        var i :| 0 <= i < |b| && b[i] == a[0];
        var j :| 0 <= j < |a| && a[j] == b[0];
        AheadOneWay(l, key, a[0], b[0]);
        assert false;
      }
      OrderTail(a, members, l, key);
      OrderTail(b, members, l, key);
      OrderUnique(a[1..], b[1..], members - {a[0]}, l, key);
      assert a == [a[0]] + a[1..] && b == [b[0]] + b[1..];
    }
  }

  lemma OrderTail(a: seq<NodeId>, members: set<NodeId>, l: Layout, key: nat)
    requires IsOrder(a, members, l, key) && a != []
    ensures IsOrder(a[1..], members - {a[0]}, l, key)
  {
    OrderWithout(a, members, l, key, 0);
    assert Without(a, 0) == a[1..];
  }

  /** Taking a member out of the order gives the order of the other members. */
  lemma OrderWithout(a: seq<NodeId>, members: set<NodeId>, l: Layout, key: nat, k: nat)
    requires IsOrder(a, members, l, key) && k < |a|
    ensures IsOrder(Without(a, k), members - {a[k]}, l, key)
  {
    WithoutMembers(a, k);
    var b := Without(a, k);
    forall i, j | 0 <= i < j < |b|
      ensures Ahead(l, key, b[i], b[j])
    {
      assert b[i] == a[if i < k then i else i + 1] && b[j] == a[if j < k then j else j + 1];
    }
  }

  lemma WithoutMembers(a: seq<NodeId>, k: nat)
    requires NoRepeat(a) && k < |a|
    ensures NoRepeat(Without(a, k)) && forall x :: x in Without(a, k) <==> x in a && x != a[k]
  {
    WithoutNoRepeat(a, k);
    forall x
      ensures x in Without(a, k) <==> x in a && x != a[k]
    {
      WithoutHolds(a, k, x);
    }
  }

  // ----- the walk computes it -----

  lemma {:induction false} FirstSeenHolds(s: seq<NodeId>, x: NodeId)
    ensures x in FirstSeen(s) <==> x in s
  {
    if s == [] {
    } else {
      FirstSeenHolds(s[..|s| - 1], x);
      assert s == s[..|s| - 1] + [s[|s| - 1]];
    }
  }

  lemma {:induction false} FirstSeenOnce(s: seq<NodeId>)
    ensures NoRepeat(FirstSeen(s))
  {
    if s == [] {
    } else {
      FirstSeenOnce(s[..|s| - 1]);
    }
  }

  lemma {:induction false} FirstSeenPrefix(s: seq<NodeId>, k: nat)
    requires k <= |s|
    ensures FirstSeen(s[..k]) <= FirstSeen(s)
  {
    if k < |s| {
      FirstSeenPrefix(s[..|s| - 1], k);
      assert s[..|s| - 1][..k] == s[..k];
    } else {
      assert s[..k] == s;
    }
  }

  /** What is listed first has an occurrence before every occurrence of what is listed later. */
  lemma {:induction false} FirstSeenOrder(s: seq<NodeId>, i: nat, j: nat) returns (p: nat)
    requires i < j < |FirstSeen(s)|
    ensures p < |s| && s[p] == FirstSeen(s)[i]
    ensures forall q :: 0 <= q < |s| && s[q] == FirstSeen(s)[j] ==> p < q
  {
    var init := s[..|s| - 1];
    var d := FirstSeen(init);
    if j < |d| {
      p := FirstSeenOrder(init, i, j);
    } else {
      FirstSeenHolds(init, d[i]);
      FirstSeenHolds(init, s[|s| - 1]);
      p :| 0 <= p < |init| && init[p] == d[i];
    }
  }

  /** The walk meets virtual nodes nearest first. */
  lemma WalkOrder(vs: seq<VNode>, key: nat, k: nat, p: nat, q: nat)
    requires Sorted(vs) && Splits(vs, key, k) && p < q < |vs|
    ensures Walk(vs, k)[p].node != Walk(vs, k)[q].node ==> Nearer(key, Walk(vs, k)[p], Walk(vs, k)[q])
  {
    var w := Walk(vs, k);
    LessTotal(w[p], w[q]);
  }

  /** Where the search lands. */
  ghost function FirstAt(vs: seq<VNode>, key: nat): nat {
    if vs == [] || vs[0].point >= key then 0 else 1 + FirstAt(vs[1..], key)
  }

  lemma {:induction false} FirstAtSplits(vs: seq<VNode>, key: nat)
    requires Sorted(vs)
    ensures Splits(vs, key, FirstAt(vs, key))
  {
    if vs == [] || vs[0].point >= key {
    } else {
      FirstAtSplits(vs[1..], key);
    }
  }

  lemma {:induction false} SplitUnique(vs: seq<VNode>, key: nat, k: nat)
    requires Splits(vs, key, k)
    ensures k == FirstAt(vs, key)
  {
    if vs == [] || vs[0].point >= key {
    } else {
      SplitUnique(vs[1..], key, k - 1);
    }
  }

  ghost function WalkFrom(r: Ring, key: nat): (w: seq<VNode>)
    requires Sorted(r.vnodes)
  {
    FirstAtSplits(r.vnodes, key);
    Walk(r.vnodes, FirstAt(r.vnodes, key))
  }

  /** All members in the order in which they are asked for a block. */
  ghost function OwnerOrder(r: Ring, key: nat): seq<NodeId>
    requires Sorted(r.vnodes)
  {
    FirstSeen(Nodes(WalkFrom(r, key)))
  }

  lemma WalkHolds(r: Ring, key: nat, vn: VNode)
    requires Sorted(r.vnodes)
    ensures vn in WalkFrom(r, key) <==> vn in r.vnodes
  {
    FirstAtSplits(r.vnodes, key);
    var k := FirstAt(r.vnodes, key);
    assert r.vnodes == r.vnodes[..k] + r.vnodes[k..];
  }

  lemma OwnersAreMembers(r: Ring, l: Layout, key: nat, x: NodeId)
    requires Built(r, l) && l.perNode > 0
    ensures x in OwnerOrder(r, key) <==> x in r.addrs
  {
    var w := WalkFrom(r, key);
    FirstSeenHolds(Nodes(w), x);
    if x in r.addrs {
      assert IsPlace(l.Place(x, 0), r.addrs.Keys, l);
      WalkHolds(r, key, l.Place(x, 0));
      var p :| 0 <= p < |w| && w[p] == l.Place(x, 0);
      assert Nodes(w)[p] == x;
    }
    if x in Nodes(w) {
      var p :| 0 <= p < |w| && Nodes(w)[p] == x;
      WalkHolds(r, key, w[p]);
    }
  }

  /** Walking a built ring from the key lists its members in owner order. */
  lemma WalkIsOrder(r: Ring, l: Layout, key: nat)
    requires Built(r, l) && l.perNode > 0
    ensures IsOrder(OwnerOrder(r, key), r.addrs.Keys, l, key)
  {
    var d := OwnerOrder(r, key);
    FirstSeenOnce(Nodes(WalkFrom(r, key)));
    forall x
      ensures x in d <==> x in r.addrs
    {
      OwnersAreMembers(r, l, key, x);
    }
    forall i: nat, j: nat | i < j < |d|
      ensures Ahead(l, key, d[i], d[j])
    {
      WalkPutsAhead(r, l, key, i, j);
    }
  }

  lemma WalkPutsAhead(r: Ring, l: Layout, key: nat, i: nat, j: nat)
    requires Built(r, l) && i < j < |OwnerOrder(r, key)|
    requires OwnerOrder(r, key)[j] in r.addrs
    ensures Ahead(l, key, OwnerOrder(r, key)[i], OwnerOrder(r, key)[j])
  {
    var w := WalkFrom(r, key);
    var d := OwnerOrder(r, key);
    FirstSeenOnce(Nodes(w));
    var p := FirstSeenOrder(Nodes(w), i, j);
    WalkHolds(r, key, w[p]);
    var a: nat :| a < l.perNode && l.Place(d[i], a) == w[p];
    forall b: nat | b < l.perNode
      ensures Nearer(key, w[p], l.Place(d[j], b))
    {
      var vn := l.Place(d[j], b);
      assert IsPlace(vn, r.addrs.Keys, l);
      WalkHolds(r, key, vn);
      var q :| 0 <= q < |w| && w[q] == vn;
      assert Nodes(w)[q] == d[j];
      FirstAtSplits(r.vnodes, key);
      WalkOrder(r.vnodes, key, FirstAt(r.vnodes, key), p, q);
    }
    assert Leads(l, key, l.Place(d[i], a), d[j]);
  }

  // ----- owners -----

  function Take(order: seq<NodeId>, n: int): seq<NodeId> {
    if n <= 0 then [] else if n <= |order| then order[..n] else order
  }

  /** The first n owners of a block. */
  ghost function OwnersOf(r: Ring, id: BlockId, n: int): seq<NodeId>
    requires Sorted(r.vnodes) && |id| >= 8
  {
    Take(OwnerOrder(r, KeyOf(id)), n)
  }

  lemma OrderCount(r: Ring, l: Layout, key: nat)
    requires Built(r, l) && l.perNode > 0
    ensures |OwnerOrder(r, key)| == |r.addrs|
  {
    WalkIsOrder(r, l, key);
    OrderSize(OwnerOrder(r, key), r.addrs.Keys);
  }

  /** Exactly min(n, members) distinct members, and fewer are a prefix of more. */
  lemma OwnersCount(r: Ring, l: Layout, id: BlockId, m: nat, n: nat)
    requires Built(r, l) && l.perNode > 0 && |id| >= 8 && m <= n
    ensures |OwnersOf(r, id, n)| == if n <= |r.addrs| then n else |r.addrs|
    ensures NoRepeat(OwnersOf(r, id, n)) && forall x :: x in OwnersOf(r, id, n) ==> x in r.addrs
    ensures OwnersOf(r, id, m) <= OwnersOf(r, id, n)
  {
    WalkIsOrder(r, l, KeyOf(id));
    OrderSize(OwnerOrder(r, KeyOf(id)), r.addrs.Keys);
    NoRepeatTake(OwnerOrder(r, KeyOf(id)), n);
  }

  lemma NoRepeatTake(s: seq<NodeId>, n: nat)
    requires NoRepeat(s)
    ensures NoRepeat(Take(s, n))
  {
    NoRepeatIff(s);
    NoRepeatIff(Take(s, n));
  }

  lemma WalkAt(vs: seq<VNode>, i: nat, scanned: nat)
    requires i <= |vs| && scanned < |vs|
    ensures Walk(vs, i)[scanned] == vs[(i + scanned) % |vs|]
  {
    RingIndex(i + scanned, |vs|);
  }

  lemma RingIndex(a: nat, n: nat)
    requires a < 2 * n
    ensures a % n == if a < n then a else a - n
  {
  }

  /** The first nodes met clockwise from position i, each once, until there are enough. */
  method Collect(vs: seq<VNode>, i: nat, want: nat) returns (out: seq<NodeId>)
    requires i <= |vs|
    ensures out == Take(FirstSeen(Nodes(Walk(vs, i))), want)
  {
    ghost var nodes := Nodes(Walk(vs, i));
    out := [];
    var seen: set<NodeId>, scanned := {}, 0;
    while scanned < |vs| && |out| < want
      invariant 0 <= scanned <= |vs| && |out| <= want
      invariant out == FirstSeen(nodes[..scanned])
      invariant forall x :: x in seen <==> x in out
    {
      WalkAt(vs, i, scanned);
      var x := vs[(i + scanned) % |vs|].node;
      assert nodes[..scanned + 1][..scanned] == nodes[..scanned];
      scanned := scanned + 1;
      if x in seen {
        continue;
      }
      seen := seen + {x};
      out := out + [x];
    }
    FirstSeenPrefix(nodes, scanned);
    assert scanned == |vs| ==> nodes[..scanned] == nodes;
  }

  /** Distinct members, nearest to the key first, and all others are farther off. */
  ghost predicate AreNearest(owners: seq<NodeId>, members: set<NodeId>, l: Layout, key: nat) {
    && NoRepeat(owners) && (forall x :: x in owners ==> x in members)
    && (forall i, j :: 0 <= i < j < |owners| ==> Ahead(l, key, owners[i], owners[j]))
    && (forall i, y :: 0 <= i < |owners| && y in members && y !in owners ==> Ahead(l, key, owners[i], y))
  }

  ghost predicate NearestTo(id: BlockId, owners: seq<NodeId>, members: set<NodeId>, l: Layout)
    requires |id| >= 8
  {
    forall key :: Reads(id[..8], key) ==> AreNearest(owners, members, l, key)
  }

  /** The owners of a block are the members nearest to the number its id spells. */
  lemma OwnersAreNearest(r: Ring, l: Layout, id: BlockId, n: int)
    requires Built(r, l) && l.perNode > 0 && |id| >= 8
    ensures n >= 0 ==> |OwnersOf(r, id, n)| == if n < |r.addrs| then n else |r.addrs|
    ensures NearestTo(id, OwnersOf(r, id, n), r.addrs.Keys, l)
  {
    OrderCount(r, l, KeyOf(id));
    forall key | Reads(id[..8], key)
      ensures AreNearest(OwnersOf(r, id, n), r.addrs.Keys, l, key)
    {
      KeySpellsId(id, key);
      WalkIsOrder(r, l, key);
      TakeIsNearest(OwnerOrder(r, key), r.addrs.Keys, l, key, n);
    }
  }

  lemma TakeIsNearest(order: seq<NodeId>, members: set<NodeId>, l: Layout, key: nat, n: int)
    requires IsOrder(order, members, l, key)
    ensures AreNearest(Take(order, n), members, l, key)
  {
    var owners := Take(order, n);
    NoRepeatTake(order, if n < 0 then 0 else n);
    forall i, y | 0 <= i < |owners| && y in members && y !in owners
      ensures Ahead(l, key, owners[i], y)
    {
      assert order == owners + order[|owners|..];
      var j :| |owners| <= j < |order| && order[j] == y;
    }
  }

  /** Owners: walks clockwise, skipping nodes already seen, until it has n. */
  method Owners(r: Ring, id: BlockId, n: int, ghost l: Layout) returns (out: seq<NodeId>)
    requires Built(r, l) && l.perNode > 0
    requires r.vnodes == [] || n <= 0 || |id| >= 8
    ensures r.vnodes == [] || n <= 0 ==> out == []
    ensures |id| >= 8 ==> out == OwnersOf(r, id, n)
    ensures |id| >= 8 && n >= 0 ==> |out| == if n < |r.addrs| then n else |r.addrs|
    ensures |id| >= 8 ==> NearestTo(id, out, r.addrs.Keys, l)
  {
    if |id| >= 8 {
      OwnersAreNearest(r, l, id, n);
    }
    if |r.vnodes| == 0 || n <= 0 {
      return [];
    }
    var want := if n > |r.addrs| then |r.addrs| else n;
    var key := KeyOf(id);
    var i := Search(r.vnodes, key);
    out := Collect(r.vnodes, i, want);
    SplitUnique(r.vnodes, key, i);
    OrderCount(r, l, key);
  }

  lemma OneNearest(r: Ring, l: Layout, id: BlockId, o: NodeId)
    requires Built(r, l) && l.perNode > 0 && |id| >= 8 && OwnersOf(r, id, 1) == [o]
    ensures forall key, y :: (Reads(id[..8], key) || key == KeyOf(id)) && y in r.addrs && y != o ==> Ahead(l, key, o, y)
  {
    var order := OwnerOrder(r, KeyOf(id));
    WalkIsOrder(r, l, KeyOf(id));
    assert order[0] == OwnersOf(r, id, 1)[0] == o;
    forall key, y | (Reads(id[..8], key) || key == KeyOf(id)) && y in r.addrs && y != o
      ensures Ahead(l, key, o, y)
    {
      if key != KeyOf(id) {
        KeySpellsId(id, key);
      }
      assert y in order;
      var j :| 0 < j < |order| && order[j] == y;
      assert Ahead(l, KeyOf(id), order[0], order[j]);
    }
  }

  /** Owner: the nearest member and its address, or nothing on an empty ring. */
  method Owner(r: Ring, id: BlockId, ghost l: Layout) returns (o: Option<(NodeId, string)>)
    requires Built(r, l) && l.perNode > 0 && (r.vnodes == [] || |id| >= 8)
    ensures o.None? <==> r.addrs == map[]
    ensures o.Some? ==> o.value.0 in r.addrs && o.value.1 == r.addrs[o.value.0]
    ensures o.Some? ==> forall y :: y in r.addrs && y != o.value.0 ==> |id| >= 8 && Ahead(l, KeyOf(id), o.value.0, y)
    ensures o.Some? && |id| >= 8 ==> forall key, y ::
      Reads(id[..8], key) && y in r.addrs && y != o.value.0 ==> Ahead(l, key, o.value.0, y)
  {
    if r.addrs != map[] {
      ghost var x :| x in r.addrs;
      assert IsPlace(l.Place(x, 0), r.addrs.Keys, l);
      assert r.vnodes != [];
      WalkIsOrder(r, l, KeyOf(id));
      assert x in OwnerOrder(r, KeyOf(id));
    }
    var owners := Owners(r, id, 1, l);
    if |owners| == 0 {
      return None;
    }
    OwnersCount(r, l, id, 1, 1);
    OneNearest(r, l, id, owners[0]);
    o := Some((owners[0], r.addrs[owners[0]]));
  }

  // ----- stability -----

  /** Rings of the same membership agree on every owner, whatever order their maps were iterated in. */
  lemma SameMembersSameOwners(r: Ring, r': Ring, l: Layout, key: nat)
    requires Built(r, l) && Built(r', l) && l.perNode > 0 && r.addrs.Keys == r'.addrs.Keys
    ensures OwnerOrder(r, key) == OwnerOrder(r', key)
  {
    WalkIsOrder(r, l, key);
    WalkIsOrder(r', l, key);
    OrderUnique(OwnerOrder(r, key), OwnerOrder(r', key), r.addrs.Keys, l, key);
  }

  /** r' is r with one more member. */
  ghost predicate Joins(r: Ring, r': Ring, x: NodeId) {
    x !in r.addrs && r'.addrs.Keys == r.addrs.Keys + {x}
  }

  /** A join inserts the new node somewhere into the owner order and moves nobody else. */
  lemma JoinKeepsOrder(r: Ring, r': Ring, l: Layout, x: NodeId, key: nat) returns (k: nat)
    requires Built(r, l) && Built(r', l) && l.perNode > 0 && Joins(r, r', x)
    ensures k < |OwnerOrder(r', key)| && OwnerOrder(r', key)[k] == x
    ensures Without(OwnerOrder(r', key), k) == OwnerOrder(r, key)
  {
    WalkIsOrder(r, l, key);
    WalkIsOrder(r', l, key);
    var o := OwnerOrder(r', key);
    assert x in o;
    k :| 0 <= k < |o| && o[k] == x;
    OrderWithout(o, r'.addrs.Keys, l, key, k);
    assert r'.addrs.Keys - {x} == r.addrs.Keys;
    OrderUnique(Without(o, k), OwnerOrder(r, key), r.addrs.Keys, l, key);
  }

  lemma TakeWithout(o: seq<NodeId>, k: nat, n: nat, y: NodeId)
    requires k < |o| && y in Take(o, n) && y != o[k]
    ensures y in Take(Without(o, k), n)
  {
    var i :| 0 <= i < |Take(o, n)| && Take(o, n)[i] == y;
    assert Take(Without(o, k), n)[if i < k then i else i - 1] == y;
  }

  lemma TakeBack(o: seq<NodeId>, k: nat, n: nat, y: NodeId)
    requires k < |o| && y in Take(Without(o, k), n)
    ensures y in Take(o, n) || (k < n && |Take(Without(o, k), n)| == n && y == Without(o, k)[n - 1])
  {
    var i :| 0 <= i < |Take(Without(o, k), n)| && Take(Without(o, k), n)[i] == y;
    if i < k {
      assert Take(o, n)[i] == y;
    } else if i + 1 < n {
      assert Take(o, n)[i + 1] == y;
    }
  }

  /** One join or leave: the joiner may enter the owners, and then only the last old owner may drop out. */
  lemma OneOwnerChanges(r: Ring, r': Ring, l: Layout, x: NodeId, id: BlockId, n: nat)
    requires Built(r, l) && Built(r', l) && l.perNode > 0 && Joins(r, r', x) && |id| >= 8
    ensures forall y :: y in OwnersOf(r', id, n) ==> y == x || y in OwnersOf(r, id, n)
    ensures forall y :: y in OwnersOf(r, id, n) ==>
      || y in OwnersOf(r', id, n)
      || (x in OwnersOf(r', id, n) && |OwnersOf(r, id, n)| == n && y == OwnersOf(r, id, n)[n - 1])
  {
    var key := KeyOf(id);
    var k := JoinKeepsOrder(r, r', l, x, key);
    var o := OwnerOrder(r', key);
    forall y | y in Take(o, n) && y != x
      ensures y in OwnersOf(r, id, n)
    {
      TakeWithout(o, k, n, y);
    }
    assert k < n ==> k < |Take(o, n)| && Take(o, n)[k] == x;
    forall y | y in OwnersOf(r, id, n)
      ensures y in Take(o, n) || (x in Take(o, n) && |OwnersOf(r, id, n)| == n && y == OwnersOf(r, id, n)[n - 1])
    {
      TakeBack(o, k, n, y);
    }
  }

  /** With at least two owners a join never takes a block away from its old primary. */
  lemma JoinKeepsPrimary(r: Ring, r': Ring, l: Layout, x: NodeId, id: BlockId)
    requires Built(r, l) && Built(r', l) && l.perNode > 0 && Joins(r, r', x) && |id| >= 8
    requires r.addrs != map[]
    ensures OwnersOf(r, id, 1) != [] && OwnersOf(r, id, 1)[0] in OwnersOf(r', id, 2)
  {
    var k := JoinKeepsOrder(r, r', l, x, KeyOf(id));
    OwnersCount(r, l, id, 1, 1);
    var o := OwnerOrder(r', KeyOf(id));
    assert OwnersOf(r', id, 2)[if k == 0 then 1 else 0] == Without(o, k)[0];
  }
}
