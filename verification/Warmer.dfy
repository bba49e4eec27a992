/** The warming consumer of a cache node: its token bucket and what a warm command does to the local store. */
module Warmers {
  import opened Options
  import opened BlockTypes
  import opened Recency
  import opened LruStore

  const DEFAULT_RATE: real := 200.0

  datatype WarmCommand =
    WarmCommand(id: BlockId, parent: BlockId, model: string, source: string, target: string, deadlineMs: int)

  // ----- the token bucket -----

  datatype Bucket = Bucket(tokens: real, last: real)

  function Min(x: real, y: real): real {
    if x < y then x else y
  }

  function Refill(b: Bucket, rate: real, now: real): real {
    Min(rate, b.tokens + (now - b.last) * rate)
  }

  function Allowed(b: Bucket, rate: real, now: real): (Bucket, bool) {
    var t := Refill(b, rate, now);
    if t < 1.0 then (Bucket(t, now), false) else (Bucket(t - 1.0, now), true)
  }

  /** The bucket after calls at the given times, and how many of them were granted. */
  function After(b: Bucket, rate: real, times: seq<real>): (Bucket, nat) {
    if times == [] then (b, 0)
    else
      var (c, n) := After(b, rate, times[..|times| - 1]);
      var (d, ok) := Allowed(c, rate, times[|times| - 1]);
      (d, if ok then n + 1 else n)
  }

  /** The clock never goes back. */
  ghost predicate Rising(from: real, times: seq<real>) {
    && (times != [] ==> from <= times[0])
    && (forall i :: 0 < i < |times| ==> times[i - 1] <= times[i])
  }

  ghost predicate Sound(b: Bucket, rate: real) {
    0.0 <= b.tokens <= rate
  }

  /** The token count stays between 0 and the rate, and the bucket remembers the last call. */
  lemma {:induction false} TokensBounded(b: Bucket, rate: real, times: seq<real>)
    requires rate > 0.0 && Sound(b, rate) && Rising(b.last, times)
    ensures Sound(After(b, rate, times).0, rate)
    ensures After(b, rate, times).0.last == if times == [] then b.last else times[|times| - 1]
  {
    if times == [] {
    } else {
      var k := |times| - 1;
      TokensBounded(b, rate, times[..k]);
      RefillBounded(After(b, rate, times[..k]).0, rate, times[k]);
    }
  }

  lemma RefillBounded(b: Bucket, rate: real, now: real)
    requires rate > 0.0 && Sound(b, rate) && b.last <= now
    ensures b.tokens <= Refill(b, rate, now) <= rate
    ensures Refill(b, rate, now) <= b.tokens + Earned(b.last, now, rate)
  {
    assert (now - b.last) * rate >= 0.0;
  }

  /** A call is granted exactly when the bucket can hold a token and the time since the last call makes up for it. */
  lemma GrantedIffWaited(b: Bucket, rate: real, now: real)
    requires rate > 0.0 && Sound(b, rate) && b.last <= now
    ensures Allowed(b, rate, now).1 <==> rate >= 1.0 && now - b.last >= (1.0 - b.tokens) / rate
  {
    Waited(1.0 - b.tokens, rate, now - b.last);
  }

  lemma Waited(missing: real, rate: real, span: real)
    requires rate > 0.0
    ensures span >= missing / rate <==> span * rate >= missing
  {
    var wait := missing / rate;
    assert wait * rate == missing;
    Scaled(span, wait, rate);
  }

  lemma Scaled(x: real, y: real, rate: real)
    requires rate > 0.0
    ensures x >= y <==> x * rate >= y * rate
  {
    if x >= y {
      assert (x - y) * rate >= 0.0;
    } else {
      assert (y - x) * rate > 0.0;
    }
  }

  ghost predicate SpacedAt(from: real, times: seq<real>, gap: real, i: nat) {
    i < |times| && times[i] - (if i == 0 then from else times[i - 1]) >= gap
  }

  /** At least `gap` passes before each call. */
  ghost predicate Spaced(from: real, times: seq<real>, gap: real) {
    forall i: nat :: i < |times| ==> SpacedAt(from, times, gap, i)
  }

  lemma SpacedInit(from: real, times: seq<real>, gap: real)
    requires Spaced(from, times, gap) && times != []
    ensures Spaced(from, times[..|times| - 1], gap)
  {
    var init := times[..|times| - 1];
    forall i: nat | i < |init|
      ensures SpacedAt(from, init, gap, i)
    {
      assert SpacedAt(from, times, gap, i);
    }
  }

  /** Calls that keep a rate-th of a second between them are all granted, whatever the bucket held. */
  lemma {:induction false} SpacedCallsGranted(b: Bucket, rate: real, times: seq<real>)
    requires rate >= 1.0 && Sound(b, rate) && Rising(b.last, times)
    requires Spaced(b.last, times, 1.0 / rate)
    ensures After(b, rate, times).1 == |times|
  {
    if times == [] {
    } else {
      var k := |times| - 1;
      var c := After(b, rate, times[..k]).0;
      SpacedInit(b.last, times, 1.0 / rate);
      SpacedCallsGranted(b, rate, times[..k]);
      TokensBounded(b, rate, times[..k]);
      assert SpacedAt(b.last, times, 1.0 / rate, k);
      LongEnough(c, rate, times[k]);
    }
  }

  lemma LongEnough(b: Bucket, rate: real, now: real)
    requires rate >= 1.0 && Sound(b, rate) && now - b.last >= 1.0 / rate
    ensures Allowed(b, rate, now).1
  {
    Waited(1.0, rate, now - b.last);
  }

  function Earned(from: real, to: real, rate: real): real {
    (to - from) * rate
  }

  /** What flows in over all the calls, before any is lost to a full bucket. */
  function Income(from: real, rate: real, times: seq<real>): real {
    if times == [] then 0.0
    else
      var k := |times| - 1;
      Income(from, rate, times[..k]) + Earned(if k == 0 then from else times[k - 1], times[k], rate)
  }

  lemma {:induction false} IncomeIsElapsed(from: real, rate: real, times: seq<real>)
    requires times != []
    ensures Income(from, rate, times) == Earned(from, times[|times| - 1], rate)
  {
    var k := |times| - 1;
    if k == 0 {
    } else {
      IncomeIsElapsed(from, rate, times[..k]);
      AddSpans(times[k - 1] - from, times[k] - times[k - 1], rate, times[k] - from);
    }
  }

  lemma AddSpans(x: real, y: real, rate: real, z: real)
    requires z == x + y
    ensures z * rate == x * rate + y * rate
  {
  }

  /** Conservation: what was granted and what is left came from the start or from the income since. */
  lemma {:induction false} GrantsConserved(b: Bucket, rate: real, times: seq<real>)
    requires rate > 0.0 && Sound(b, rate) && Rising(b.last, times)
    ensures After(b, rate, times).1 as real + After(b, rate, times).0.tokens <= b.tokens + Income(b.last, rate, times)
  {
    if times == [] {
    } else {
      var k := |times| - 1;
      var init := times[..k];
      TokensBounded(b, rate, init);
      GrantsConserved(b, rate, init);
      RefillBounded(After(b, rate, init).0, rate, times[k]);
    }
  }

  lemma {:induction false} AfterSplit(b: Bucket, rate: real, times: seq<real>, i: nat)
    requires i <= |times|
    ensures After(b, rate, times).0 == After(After(b, rate, times[..i]).0, rate, times[i..]).0
    ensures After(b, rate, times).1
         == After(b, rate, times[..i]).1 + After(After(b, rate, times[..i]).0, rate, times[i..]).1
  {
    var k := |times| - 1;
    if i == |times| {
      assert times[..i] == times && times[i..] == [];
    } else {
      AfterSplit(b, rate, times[..k], i);
      assert times[..k][..i] == times[..i];
      assert times[i..][..k - i] == times[..k][i..];
    }
  }

  /** In every run, any stretch of calls within a window of length T grants at most rate + rate * T. */
  lemma WindowBound(b: Bucket, rate: real, times: seq<real>, i: nat, j: nat, window: real)
    requires rate > 0.0 && Sound(b, rate) && Rising(b.last, times)
    requires i < j <= |times| && times[j - 1] - times[i] <= window
    ensures (After(b, rate, times[..j]).1 - After(b, rate, times[..i]).1) as real <= rate + rate * window
  {
    var c := After(b, rate, times[..i]).0;
    TokensBounded(b, rate, times[..i]);
    var stretch := times[i..j];
    AfterSplit(b, rate, times[..j], i);
    assert times[..j][..i] == times[..i] && times[..j][i..] == stretch;
    StretchBound(c, rate, stretch, window);
  }

  /** The first refill of the stretch fills to at most the rate, however long the pause before it was. */
  lemma StretchBound(c: Bucket, rate: real, stretch: seq<real>, window: real)
    requires rate > 0.0 && Sound(c, rate) && Rising(c.last, stretch)
    requires stretch != [] && stretch[|stretch| - 1] - stretch[0] <= window
    ensures After(c, rate, stretch).1 as real <= rate + rate * window
  {
    var first := Bucket(Refill(c, rate, stretch[0]), stretch[0]);
    assert After(c, rate, stretch).1 as real <= rate + Income(first.last, rate, stretch) by {
      RefillBounded(c, rate, stretch[0]);
      RefilledFirst(c, first, rate, stretch);
      TokensBounded(first, rate, stretch);
      GrantsConserved(first, rate, stretch);
    }
    IncomeWithin(first.last, rate, stretch, window);
  }

  lemma IncomeWithin(from: real, rate: real, times: seq<real>, window: real)
    requires rate > 0.0 && times != [] && times[|times| - 1] - from <= window
    ensures Income(from, rate, times) <= rate * window
  {
    IncomeIsElapsed(from, rate, times);
    Longer(times[|times| - 1] - from, window, rate);
  }

  lemma Longer(span: real, window: real, rate: real)
    requires span <= window && rate > 0.0
    ensures span * rate <= rate * window
  {
  }

  /** Refilling ahead of the first call changes nothing. */
  lemma {:induction false} RefilledFirst(c: Bucket, first: Bucket, rate: real, stretch: seq<real>)
    requires rate > 0.0 && stretch != [] && first == Bucket(Refill(c, rate, stretch[0]), stretch[0])
    ensures After(c, rate, stretch) == After(first, rate, stretch)
  {
    if |stretch| == 1 {
      assert stretch[..0] == [];
      assert Refill(first, rate, stretch[0]) == first.tokens;
    } else {
      RefilledFirst(c, first, rate, stretch[..|stretch| - 1]);
    }
  }

  /** A rate below one never grants anything; from one on, a fresh bucket grants its first call. */
  lemma {:induction false} GrantsIffRateAtLeastOne(rate: real, start: real, times: seq<real>)
    requires rate > 0.0 && times != [] && Rising(start, times)
    ensures After(Bucket(rate, start), rate, times).1 > 0 <==> rate >= 1.0
  {
    var b := Bucket(rate, start);
    var k := |times| - 1;
    if k == 0 {
      assert times[..0] == [];
      RefillBounded(b, rate, times[0]);
      assert (times[0] - start) * rate >= 0.0;
    } else {
      GrantsIffRateAtLeastOne(rate, start, times[..k]);
    }
  }

  // ----- handling a command -----

  datatype Fate = Ignored | Expired | Present | NoSource | OverBudget | SourceLost | Executed

  /** What a cache node brings to a command: its store, as a recency list, and its bucket. */
  datatype Site = Site(list: seq<Item>, cap: nat, bucket: Bucket, rate: real)

  /** The fate of a command that does not get as far as the budget. */
  ghost function FateBefore(self: string, s: Site, cmd: WarmCommand, wallMs: int): Option<Fate> {
    if cmd.target != self || |cmd.id| != HASH_SIZE then Some(Ignored)
    else if cmd.deadlineMs > 0 && wallMs > cmd.deadlineMs then Some(Expired)
    else if Has(s.list, cmd.id) then Some(Present)
    else if cmd.source == "" then Some(NoSource)
    else None
  }

  /** How a command fares at node `self`; `fetched` is what the source sends back, if anything. */
  ghost function FateOf(self: string, s: Site, cmd: WarmCommand, wallMs: int, now: real, fetched: Option<Block>): Fate {
    var before := FateBefore(self, s, cmd, wallMs);
    if before.Some? then before.value
    else if !Allowed(s.bucket, s.rate, now).1 then OverBudget
    else if fetched.None? then SourceLost
    else Executed
  }

  /** The node after the command. */
  ghost function SiteAfter(self: string, s: Site, cmd: WarmCommand, wallMs: int, now: real,
                           fetched: Option<Block>): Site {
    match FateOf(self, s, cmd, wallMs, now, fetched)
    case Present => s.(list := Touched(s.list, cmd.id))
    case OverBudget => s.(bucket := Allowed(s.bucket, s.rate, now).0)
    case SourceLost => s.(bucket := Allowed(s.bucket, s.rate, now).0)
    case Executed =>
      s.(bucket := Allowed(s.bucket, s.rate, now).0, list := AfterPut(s.list, Sized(fetched.value), s.cap))
    case _ => s
  }

  /**
   * What a command leaves behind: the list changes only for a block that is held, or one that is wanted, paid for and
   * fetched, which is put; the bucket is filled up exactly for a wanted one, and a token is taken if there is one.
   */
  lemma SiteAfterMeans(self: string, s: Site, cmd: WarmCommand, wallMs: int, now: real, fetched: Option<Block>)
    requires s.rate > 0.0 && Sound(s.bucket, s.rate) && s.bucket.last <= now
    ensures
      var s' := SiteAfter(self, s, cmd, wallMs, now, fetched);
      var due := cmd.target == self && |cmd.id| == 32 && !(cmd.deadlineMs > 0 && wallMs > cmd.deadlineMs);
      var wanted := due && !Has(s.list, cmd.id) && cmd.source != "";
      var filled := s.bucket.tokens + (now - s.bucket.last) * s.rate;
      var paid := s.rate >= 1.0 && filled >= 1.0;
      && s'.cap == s.cap && s'.rate == s.rate
      && s'.list == (if wanted && paid && fetched.Some? then AfterPut(s.list, Sized(fetched.value), s.cap)
                     else if due && Has(s.list, cmd.id) then Touched(s.list, cmd.id)
                     else s.list)
      && (if !wanted then s'.bucket == s.bucket
          else
            && s'.bucket.last == now
            && s'.bucket.tokens + (if paid then 1.0 else 0.0) == if filled > s.rate then s.rate else filled)
  {
  }

  class Warmer {
    const self: string
    const rate: real
    const store: LRU
    var tokens: real
    var lastRef: real
    var executed: nat
    var skippedPresent: nat
    var dropped: nat

    ghost predicate Valid()
      reads this, store
    {
      store.Valid() && rate > 0.0 && Sound(Bucket(tokens, lastRef), rate)
    }

    constructor (self: string, store: LRU, ratePerSec: real, now: real)
      requires store.Valid()
      ensures Valid() && this.self == self && this.store == store
      ensures rate == if ratePerSec <= 0.0 then 200.0 else ratePerSec
      ensures tokens == rate && lastRef == now && executed == skippedPresent == dropped == 0
    {
      var r := if ratePerSec <= 0.0 then DEFAULT_RATE else ratePerSec;
      this.self, this.store, this.rate := self, store, r;
      tokens, lastRef, executed, skippedPresent, dropped := r, now, 0, 0, 0;
    }

    method Allow(now: real) returns (ok: bool)
      requires Valid() && lastRef <= now
      modifies this`tokens, this`lastRef
      ensures Valid() && (Bucket(tokens, lastRef), ok) == Allowed(old(Bucket(tokens, lastRef)), rate, now)
      ensures var filled := old(tokens) + (now - old(lastRef)) * rate;
        && (ok <==> rate >= 1.0 && filled >= 1.0) && lastRef == now
        && tokens + (if ok then 1.0 else 0.0) == if filled > rate then rate else filled
    {
      RefillBounded(Bucket(tokens, lastRef), rate, now);
      ghost var refilled := Refill(Bucket(tokens, lastRef), rate, now);
      tokens := Min(rate, tokens + (now - lastRef) * rate);
      assert tokens == refilled;
      lastRef := now;
      if tokens < 1.0 {
        return false;
      }
      tokens := tokens - 1.0;
      return true;
    }

    ghost function AsSite(): Site
      reads this, store
    {
      Site(store.ll, store.cap, Bucket(tokens, lastRef), rate)
    }

    /** The budget, the fetch and the local put of a command that passed the checks before them. */
    method Execute(now: real, fetched: Option<Block>)
      requires Valid() && lastRef <= now
      modifies this`tokens, this`lastRef, this`executed, this`dropped, store
      ensures Valid()
      ensures var s, (bucket, ok) := old(AsSite()), Allowed(old(AsSite()).bucket, rate, now);
        && AsSite() == s.(bucket := bucket,
                          list := if ok && fetched.Some? then AfterPut(s.list, Sized(fetched.value), s.cap) else s.list)
        && executed == old(executed) + (if ok && fetched.Some? then 1 else 0)
        && dropped == old(dropped) + (if ok then 0 else 1)
    {
      var ok := Allow(now);
      if !ok {
        dropped := dropped + 1;
        return;
      }
      if fetched.None? {
        return;
      }
      var _ := store.Put(fetched.value);
      executed := executed + 1;
    }

    /** The checks that come before the budget: addressee, deadline, presence and source. */
    method Wanted(cmd: WarmCommand, wallMs: int) returns (go: bool)
      requires Valid()
      modifies this`skippedPresent, this`dropped, store
      ensures Valid() && go == !FateBefore(self, old(AsSite()), cmd, wallMs).Some?
      ensures var fate := FateBefore(self, old(AsSite()), cmd, wallMs);
        && AsSite() == (if fate == Some(Present) then old(AsSite()).(list := Touched(old(store.ll), cmd.id))
                        else old(AsSite()))
        && skippedPresent == old(skippedPresent) + (if fate == Some(Present) then 1 else 0)
        && dropped == old(dropped) + (if fate == Some(Expired) then 1 else 0)
    {
      if cmd.target != self || |cmd.id| != HASH_SIZE {
        return false;
      }
      if cmd.deadlineMs > 0 && wallMs > cmd.deadlineMs {
        dropped := dropped + 1;
        return false;
      }
      var held := store.Contains(cmd.id);
      if held {
        skippedPresent := skippedPresent + 1;
        return false;
      }
      return cmd.source != "";
    }

    /** Handle: `fetched` is what the source sends back, if anything. */
    method Handle(cmd: WarmCommand, wallMs: int, now: real, fetched: Option<Block>)
      requires Valid() && lastRef <= now
      modifies this`tokens, this`lastRef, this`executed, this`skippedPresent, this`dropped, store
      ensures Valid() && AsSite() == SiteAfter(self, old(AsSite()), cmd, wallMs, now, fetched)
      ensures var fate := FateOf(self, old(AsSite()), cmd, wallMs, now, fetched);
        && executed == old(executed) + (if fate.Executed? then 1 else 0)
        && skippedPresent == old(skippedPresent) + (if fate.Present? then 1 else 0)
        && dropped == old(dropped) + (if fate.Expired? || fate.OverBudget? then 1 else 0)
      ensures
        var mine := cmd.target == self && |cmd.id| == 32;
        var late := cmd.deadlineMs > 0 && wallMs > cmd.deadlineMs;
        var held := Has(old(store.ll), cmd.id);
        var broke := rate < 1.0 || now - old(lastRef) < (1.0 - old(tokens)) / rate;
        && (executed > old(executed) <==> mine && !late && !held && cmd.source != "" && !broke && fetched.Some?)
        && (skippedPresent > old(skippedPresent) <==> mine && !late && held)
        && (dropped > old(dropped) <==> mine && (late || (!held && cmd.source != "" && broke)))
    {
      GrantedIffWaited(Bucket(tokens, lastRef), rate, now);
      var go := Wanted(cmd, wallMs);
      if go {
        Execute(now, fetched);
      }
    }
  }
}
