/** The decayed access count of the paged store, over exact reals and a decay constant 0 < d < 1. */
module Frecency {
  function Pow(d: real, n: nat): real {
    if n == 0 then 1.0 else d * Pow(d, n - 1)
  }

  /** The plain definition: every touch still counts, at the weight of its age. */
  function Plain(touches: seq<nat>, now: nat, d: real): real
    requires forall i :: 0 <= i < |touches| ==> touches[i] <= now
  {
    if touches == [] then 0.0
    else Plain(touches[..|touches| - 1], now, d) + Pow(d, now - touches[|touches| - 1])
  }

  /** The stored count, brought to the present. */
  function Decayed(freq: real, age: nat, d: real): real {
    freq * Pow(d, age)
  }

  /** What a touch stores: one, plus the count so far decayed over the time since the last touch. */
  function AfterTouch(freq: real, age: nat, d: real): real {
    1.0 + Decayed(freq, age, d)
  }

  lemma Associates(x: real, y: real, z: real)
    ensures x * (y * z) == (x * y) * z
  {
  }

  lemma OneFactorMore(d: real, x: real, y: real, xy: real, dx: real)
    requires xy == x * y && dx == d * x
    ensures d * xy == dx * y
  {
    Associates(d, x, y);
  }

  lemma {:induction false} PowAdd(d: real, m: nat, n: nat)
    ensures Pow(d, m + n) == Pow(d, m) * Pow(d, n)
  {
    if m == 0 {
      assert Pow(d, m) == 1.0;
    } else {
      var less: nat := m - 1;
      PowAdd(d, less, n);
      var x, y, xy := Pow(d, less), Pow(d, n), Pow(d, less + n);
      OneFactorMore(d, x, y, xy, d * x);
    }
  }

  lemma {:induction false} PowPositive(d: real, n: nat)
    requires 0.0 < d < 1.0
    ensures 0.0 < Pow(d, n) <= 1.0
    ensures n > 0 ==> Pow(d, n) <= d
  {
    if n == 0 {
    } else {
      PowPositive(d, n - 1);
      Shrinks(d, Pow(d, n - 1), Pow(d, n));
    }
  }

  lemma Shrinks(d: real, x: real, y: real)
    requires 0.0 < d < 1.0 && 0.0 < x <= 1.0 && y == d * x
    ensures 0.0 < y <= d
  {
  }

  lemma Distribute(x: real, y: real, f: real, xf: real, yf: real, sum: real, sumF: real)
    requires xf == x * f && yf == y * f && sum == x + y && sumF == xf + yf
    ensures sumF == sum * f
  {
  }

  /** Letting time pass multiplies the plain sum by the decay over that time. */
  lemma {:induction false} PlainDecays(touches: seq<nat>, now: nat, later: nat, d: real)
    requires now <= later && forall i :: 0 <= i < |touches| ==> touches[i] <= now
    ensures Plain(touches, later, d) == Decayed(Plain(touches, now, d), later - now, d)
  {
    if touches == [] {
    } else {
      var init, t := touches[..|touches| - 1], touches[|touches| - 1];
      PlainDecays(init, now, later, d);
      OneMoreDecays(Plain(init, now, d), now - t, later - now, Plain(init, later, d), d);
    }
  }

  lemma OneMoreDecays(sum: real, age: nat, wait: nat, later: real, d: real)
    requires later == Decayed(sum, wait, d)
    ensures later + Pow(d, age + wait) == Decayed(sum + Pow(d, age), wait, d)
  {
    var y, f, yf := Pow(d, age), Pow(d, wait), Pow(d, age + wait);
    assert yf == y * f by { PowAdd(d, age, wait); }
    Distribute(sum, y, f, later, yf, sum + y, later + yf);
  }

  /** The lazy update is exact: a touch stores the plain sum over all touches so far. */
  lemma TouchIsPlain(touches: seq<nat>, last: nat, now: nat, d: real)
    requires last <= now && forall i :: 0 <= i < |touches| ==> touches[i] <= last
    ensures Plain(touches + [now], now, d) == AfterTouch(Plain(touches, last, d), now - last, d)
  {
    PlainDecays(touches, last, now, d);
    assert (touches + [now])[..|touches|] == touches;
  }

  ghost predicate Rising(touches: seq<nat>) {
    forall i, j :: 0 <= i < j < |touches| ==> touches[i] < touches[j]
  }

  /** With one tick per access the stored count is at least 1 and stays below 1 / (1 - d). */
  lemma {:induction false} PlainBounds(touches: seq<nat>, d: real)
    requires 0.0 < d < 1.0 && touches != [] && Rising(touches)
    ensures var now := touches[|touches| - 1];
      (forall i :: 0 <= i < |touches| ==> touches[i] <= now) && 1.0 <= Plain(touches, now, d) < 1.0 / (1.0 - d)
  {
    var k := |touches| - 1;
    var now := touches[k];
    if k > 0 {
      var init := touches[..k];
      var last := init[k - 1];
      PlainBounds(init, d);
      assert init + [now] == touches;
      TouchIsPlain(init, last, now, d);
      PowPositive(d, now - last);
      GeometricStep(Plain(init, last, d), Pow(d, now - last), d);
    } else {
      assert touches[..0] == [];
      GeometricStep(0.0, d, d);
    }
  }

  lemma GeometricStep(f: real, p: real, d: real)
    requires 0.0 < d < 1.0 && 0.0 <= f < 1.0 / (1.0 - d) && 0.0 < p <= d
    ensures 1.0 <= 1.0 + f * p < 1.0 / (1.0 - d)
  {
    var g := 1.0 / (1.0 - d);
    assert g * (1.0 - d) == 1.0;
    assert f * p <= f * d;
    assert f * d < g * d;
    assert g * d == g - 1.0;
  }

  /** The eviction score of a block: decayed count times cost, per byte of arena held. */
  function Score(decayed: real, cost: nat, held: nat): real
    requires held > 0
  {
    decayed * cost as real / held as real
  }

  lemma Scale(x: real, y: real, w: real)
    requires w > 0.0
    ensures x <= y <==> x * w <= y * w
  {
    assert y * w - x * w == (y - x) * w;
  }

  /** The score of what h bytes hold is their value by the byte. */
  lemma ScoreTimes(x: real, c: nat, held: nat)
    requires held > 0
    ensures Score(x, c, held) * held as real == x * c as real
  {
  }

  /** Values by the byte compare as the values do, each weighed with the pages of the other. */
  lemma ScoresCompare(r: real, a: real, p: real, t: real, b: real, q: real, size: real)
    requires p > 0.0 && q > 0.0 && size > 0.0 && r * (p * size) == a && t * (q * size) == b
    ensures r <= t <==> a * q <= b * p
  {
    var w := p * size * q;
    assert w > 0.0;
    Regrouped(r, p, size, q, a, w);
    Regrouped(t, q, size, p, b, w);
    Scale(r, t, w);
  }

  lemma CastProduct(p: nat, size: nat)
    ensures (p * size) as real == p as real * size as real
  {
  }

  lemma Regrouped(r: real, p: real, size: real, q: real, a: real, w: real)
    requires r * (p * size) == a && w == p * size * q
    ensures a * q == r * w
  {
  }

  /** One tick multiplies the count by the decay; no tick leaves it alone. */
  lemma DecayedTick(f: real, age: nat, d: real)
    ensures Decayed(f, 0, d) == f && Decayed(f, age + 1, d) == d * Decayed(f, age, d)
  {
    assert Pow(d, age + 1) == d * Pow(d, age);
    Reorder(f, d, Pow(d, age), Pow(d, age + 1));
  }

  lemma Reorder(f: real, d: real, p: real, dp: real)
    requires dp == d * p
    ensures f * dp == d * (f * p)
  {
  }

  /** Time that passes without touches scales every score alike, so it never reorders two blocks. */
  lemma WaitingKeepsOrder(f1: real, a1: nat, c1: nat, h1: nat, f2: real, a2: nat, c2: nat, h2: nat, wait: nat, d: real)
    requires 0.0 < d < 1.0 && h1 > 0 && h2 > 0
    ensures Score(Decayed(f1, a1, d), c1, h1) < Score(Decayed(f2, a2, d), c2, h2)
       <==> Score(Decayed(f1, a1 + wait, d), c1, h1) < Score(Decayed(f2, a2 + wait, d), c2, h2)
  {
    DecayedAdd(f1, a1, wait, d);
    DecayedAdd(f2, a2, wait, d);
    PowPositive(d, wait);
    ScalingKeepsOrder(Decayed(f1, a1, d), c1, h1, Decayed(f2, a2, d), c2, h2, Pow(d, wait),
                      Decayed(f1, a1 + wait, d), Decayed(f2, a2 + wait, d));
  }

  lemma DecayedAdd(f: real, a: nat, wait: nat, d: real)
    ensures Decayed(f, a + wait, d) == Decayed(f, a, d) * Pow(d, wait)
  {
    var p, w, pw := Pow(d, a), Pow(d, wait), Pow(d, a + wait);
    assert pw == p * w by { PowAdd(d, a, wait); }
    Reassociate(f, p, w, pw, f * pw, (f * p) * w);
  }

  lemma Reassociate(f: real, p: real, w: real, pw: real, l: real, r: real)
    requires pw == p * w && l == f * pw && r == (f * p) * w
    ensures l == r
  {
  }

  lemma ScalingKeepsOrder(x: real, c1: nat, h1: nat, y: real, c2: nat, h2: nat, w: real, xw: real, yw: real)
    requires w > 0.0 && xw == x * w && yw == y * w && h1 > 0 && h2 > 0
    ensures Score(x, c1, h1) < Score(y, c2, h2) <==> Score(xw, c1, h1) < Score(yw, c2, h2)
  {
    QuotientScales(x, w, xw, c1 as real, h1 as real);
    QuotientScales(y, w, yw, c2 as real, h2 as real);
    var p, q := Score(x, c1, h1), Score(y, c2, h2);
    assert q * w - p * w == (q - p) * w;
  }

  lemma QuotientScales(x: real, w: real, xw: real, m: real, h: real)
    requires h > 0.0 && xw == x * w
    ensures xw * m / h == (x * m / h) * w
  {
    var q := x * m / h;
    assert q * h == x * m;
    assert (q * w) * h == (q * h) * w;
    assert xw * m == (x * m) * w;
  }
}
