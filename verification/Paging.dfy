/** Page arithmetic of internal/blockstore/paged.go: payloads cut into fixed-size pages. */
module Paging {
  import opened BlockTypes

  function PagesNeeded(size: nat, pageSize: nat): nat
    requires pageSize > 0
  {
    (size + pageSize - 1) / pageSize
  }

  function Min(a: nat, b: nat): nat {
    if a < b then a else b
  }

  /** Where page p starts: p * pageSize, summed up so that proofs stay linear. */
  function Offset(p: nat, pageSize: nat): nat {
    if p == 0 then 0 else Offset(p - 1, pageSize) + pageSize
  }

  lemma {:induction false} OffsetIsProduct(p: nat, pageSize: nat)
    ensures Offset(p, pageSize) == p * pageSize
  {
    if p == 0 {
    } else {
      OffsetIsProduct(p - 1, pageSize);
      assert p * pageSize == (p - 1) * pageSize + pageSize;
    }
  }

  /** A page ends where the next one starts, and that is within any page further on. */
  lemma {:induction false} PageInside(p: nat, n: nat, pageSize: nat)
    requires p < n
    ensures Offset(p, pageSize) + pageSize <= Offset(n, pageSize)
  {
    if p == n - 1 {
    } else {
      PageInside(p, n - 1, pageSize);
    }
  }

  lemma {:induction false} OffsetAdd(a: nat, b: nat, pageSize: nat)
    ensures Offset(a + b, pageSize) == Offset(a, pageSize) + Offset(b, pageSize)
  {
    if b == 0 {
    } else {
      OffsetAdd(a, b - 1, pageSize);
    }
  }

  /** The bytes of the k-th page of a payload: all full but the last. */
  function Piece(payload: seq<byte>, k: nat, pageSize: nat): seq<byte>
    requires Offset(k, pageSize) <= |payload|
  {
    payload[Offset(k, pageSize)..Min(Offset(k, pageSize) + pageSize, |payload|)]
  }

  /** The pages cover the payload, and the last one is not empty. */
  ghost predicate Covers(n: nat, size: nat, pageSize: nat) {
    size <= Offset(n, pageSize) < size + pageSize
  }

  lemma NeededCovers(size: nat, pageSize: nat)
    requires pageSize > 0
    ensures Covers(PagesNeeded(size, pageSize), size, pageSize)
    ensures PagesNeeded(size, pageSize) == 0 <==> size == 0
  {
    var x := size + pageSize - 1;
    var n := PagesNeeded(size, pageSize);
    OffsetIsProduct(n, pageSize);
    assert x == n * pageSize + x % pageSize;
  }

  /** A payload fits n pages exactly if it is no longer than they are, and needs none exactly if it is empty. */
  lemma NeededFits(size: nat, n: nat, pageSize: nat)
    requires pageSize > 0
    ensures PagesNeeded(size, pageSize) <= n <==> size <= Offset(n, pageSize)
    ensures PagesNeeded(size, pageSize) == 0 <==> size == 0
  {
    var need := PagesNeeded(size, pageSize);
    NeededCovers(size, pageSize);
    if need < n {
      PageInside(need, n, pageSize);
    } else if need > n {
      PageInside(n, need, pageSize);
    }
  }

  /** Every page of a payload starts before its end. */
  lemma PieceInside(n: nat, size: nat, k: nat, pageSize: nat)
    requires Covers(n, size, pageSize) && k < n
    ensures Offset(k, pageSize) < size
  {
    PageInside(k, n, pageSize);
  }

  /** len(arena) / pageSize is the number of pages. */
  lemma PagesInArena(n: nat, pageSize: nat)
    requires pageSize > 0
    ensures Offset(n, pageSize) / pageSize == n
  {
    var x := Offset(n, pageSize);
    var q := x / pageSize;
    OffsetIsProduct(n, pageSize);
    assert x == q * pageSize + x % pageSize;
    assert (n - q) * pageSize == n * pageSize - q * pageSize;
    SmallMultiple(n - q, pageSize);
  }

  lemma SmallMultiple(x: int, d: nat)
    ensures 0 <= x * d < d ==> x == 0
  {
  }
}
