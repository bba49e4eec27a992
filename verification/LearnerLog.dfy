/**
 * The learner of internal/paxos: chosen commands by slot, applied to the state machine
 * in strict slot order. Everything the log shows is a function of its `chosen` map.
 */
module LearnerLog {
  import opened Directory

  type Chosen = map<nat, Command>

  ghost function From(chosen: Chosen, k: nat): set<nat> {
    set t | t in chosen && k <= t
  }

  /** The first slot from `k` on without a chosen command. */
  function FirstMissing(chosen: Chosen, k: nat): (s: nat)
    ensures k <= s && s !in chosen
    ensures forall t :: k <= t < s ==> t in chosen
    decreases |From(chosen, k)|
  {
    if k !in chosen then k
    else
      assert From(chosen, k + 1) == From(chosen, k) - {k};
      FirstMissing(chosen, k + 1)
  }

  /** How many slots have been applied; also the slot a proposer targets next. */
  function AppliedCount(chosen: Chosen): (n: nat)
    ensures n !in chosen && forall t :: 0 <= t < n ==> t in chosen
  {
    FirstMissing(chosen, 0)
  }

  /** The applied commands, in slot order. */
  function Trace(chosen: Chosen): (t: seq<Command>)
    ensures |t| == AppliedCount(chosen)
    ensures forall i :: 0 <= i < |t| ==> i in chosen && t[i] == chosen[i]
  {
    seq(AppliedCount(chosen), i requires 0 <= i < AppliedCount(chosen) => chosen[i])
  }

  /** The first chosen value of a slot stands; a second commit is dropped. */
  function Committed(chosen: Chosen, slot: nat, v: Command): Chosen {
    if slot in chosen then chosen else chosen[slot := v]
  }

  /** A series of Learn messages, committed one after the other. */
  function LearnAll(chosen: Chosen, learned: seq<(nat, Command)>): Chosen {
    if learned == [] then chosen
    else
      var last := learned[|learned| - 1];
      Committed(LearnAll(chosen, learned[..|learned| - 1]), last.0, last.1)
  }

  /** Learning keeps what was known; anything new is one of the messages. */
  lemma {:induction false} LearnAllAdds(chosen: Chosen, learned: seq<(nat, Command)>, slot: nat)
    ensures slot in chosen ==> slot in LearnAll(chosen, learned) && LearnAll(chosen, learned)[slot] == chosen[slot]
    ensures slot in LearnAll(chosen, learned) && slot !in chosen ==> (slot, LearnAll(chosen, learned)[slot]) in learned
  {
    if learned == [] {
    } else {
      LearnAllAdds(chosen, learned[..|learned| - 1], slot);
    }
  }

  /** Message i is the first that names the slot. */
  ghost predicate FirstFor(learned: seq<(nat, Command)>, slot: nat, i: nat) {
    i < |learned| && learned[i].0 == slot && forall j :: 0 <= j < i ==> learned[j].0 != slot
  }

  /**
   * A slot is known afterwards iff it was known or a message names it; a new one has the command of its first message.
   */
  lemma {:induction false} LearnAllTakesFirst(chosen: Chosen, learned: seq<(nat, Command)>, slot: nat)
    ensures slot in LearnAll(chosen, learned) <==> slot in chosen || exists i: nat :: FirstFor(learned, slot, i)
    ensures forall i: nat ::
      slot !in chosen && FirstFor(learned, slot, i) ==> LearnAll(chosen, learned)[slot] == learned[i].1
  {
    if learned == [] {
    } else {
      var n := |learned| - 1;
      LearnAllTakesFirst(chosen, learned[..n], slot);
      forall i: nat | i < n
        ensures FirstFor(learned[..n], slot, i) <==> FirstFor(learned, slot, i)
      {
      }
      if learned[n].0 == slot && !FirstFor(learned, slot, n) {
        var i := EarlierFirst(learned, slot, n);
      }
    }
  }

  lemma {:induction false} EarlierFirst(learned: seq<(nat, Command)>, slot: nat, n: nat) returns (i: nat)
    requires n < |learned| && learned[n].0 == slot
    ensures i <= n && FirstFor(learned, slot, i)
  {
    if j :| 0 <= j < n && learned[j].0 == slot {
      i := EarlierFirst(learned, slot, j);
    } else {
      i := n;
    }
  }

  ghost predicate Agree(c1: Chosen, c2: Chosen) {
    forall s :: s in c1 && s in c2 ==> c1[s] == c2[s]
  }

  /** The slot just below which everything is chosen is unique. */
  lemma AppliedCountUnique(chosen: Chosen, n: nat)
    requires n !in chosen && forall t :: 0 <= t < n ==> t in chosen
    ensures AppliedCount(chosen) == n
  {
  }

  /** Two logs that never disagree on a slot have applied prefixes of one another. */
  lemma AgreeingTracesComparable(c1: Chosen, c2: Chosen)
    requires Agree(c1, c2)
    ensures AppliedCount(c1) <= AppliedCount(c2) ==> Trace(c1) <= Trace(c2)
    ensures AppliedCount(c2) <= AppliedCount(c1) ==> Trace(c2) <= Trace(c1)
  {
  }

  /** Learning more never takes back what was applied. */
  lemma TraceGrows(c1: Chosen, c2: Chosen)
    requires forall s :: s in c1 ==> s in c2 && c1[s] == c2[s]
    ensures Trace(c1) <= Trace(c2)
  {
    if AppliedCount(c2) < AppliedCount(c1) {
      assert false;
    }
  }

  class Log {
    var chosen: Chosen
    var applied: nat
    var maxSeen: nat
    const sm: StateMachine
    /** Every call of the apply callback so far. */
    ghost var calls: seq<(nat, Command)>

    /** The log is consistent, except that chosen slots from `applied` on may still wait to be applied. */
    ghost predicate Consistent()
      reads this, sm
    {
      && applied <= AppliedCount(chosen)
      && (forall s :: s in chosen ==> s < maxSeen)
      && (maxSeen > 0 ==> maxSeen - 1 in chosen)
      && CallsUpTo(applied)
      && sm.Current() == Replay(Trace(chosen)[..applied])
    }

    ghost predicate Valid()
      reads this, sm
    {
      Consistent() && applied == AppliedCount(chosen)
    }

    /** The callback ran for slots 0 to n-1, once each and in order, with the chosen commands. */
    ghost predicate CallsUpTo(n: nat)
      reads this
    {
      && |calls| == n
      && forall i :: 0 <= i < n ==> i in chosen && calls[i] == (i, chosen[i])
    }

    /** The state machine holds exactly what replaying the applied commands yields. */
    lemma ValidView()
      requires Valid()
      ensures sm.Current() == Replay(Trace(chosen))
    {
      assert Trace(chosen)[..applied] == Trace(chosen);
    }

    constructor (sm: StateMachine)
      requires sm.Current() == EMPTY_VIEW
      ensures Valid() && chosen == map[] && this.sm == sm
    {
      chosen, applied, maxSeen, calls := map[], 0, 0, [];
      this.sm := sm;
    }

    method Commit(slot: nat, value: Command)
      requires Valid()
      modifies this, sm`epoch, sm`members, sm.watch
      ensures Valid() && sm.watch == old(sm.watch)
      ensures chosen == Committed(old(chosen), slot, value)
      ensures chosen == if slot in old(chosen) then old(chosen) else old(chosen)[slot := value]
      ensures old(calls) <= calls
    {
      if slot in chosen {
        return;
      }
      Record(slot, value);
      while applied in chosen
        invariant Consistent() && sm.watch == old(sm.watch)
        invariant chosen == old(chosen)[slot := value] && old(calls) <= calls
        decreases AppliedCount(chosen) - applied
      {
        ApplyNext();
      }
    }

    method Record(slot: nat, value: Command)
      requires Valid() && slot !in chosen
      modifies this`chosen, this`maxSeen
      ensures Consistent() && chosen == old(chosen)[slot := value]
    {
      ghost var before := chosen;
      chosen := chosen[slot := value];
      if slot + 1 > maxSeen {
        maxSeen := slot + 1;
      }
      TraceGrows(before, chosen);
      assert Trace(chosen)[..applied] == Trace(before)[..applied];
    }

    method ApplyNext()
      requires Consistent() && applied in chosen
      modifies this`applied, this`calls, sm`epoch, sm`members, sm.watch
      ensures Consistent() && applied == old(applied) + 1
      ensures sm.watch == old(sm.watch) && old(calls) <= calls
    {
      ghost var next := Trace(chosen)[..applied + 1];
      assert next[..applied] == Trace(chosen)[..applied];
      sm.Apply(chosen[applied]);
      calls := calls + [(applied, chosen[applied])];
      applied := applied + 1;
    }

    /** The slot a proposer should target next is always the next one to apply. */
    method FirstUnchosen() returns (s: nat)
      requires Valid()
      ensures s == applied && s !in chosen && forall t :: 0 <= t < s ==> t in chosen
    {
      s := ScanUnchosen(chosen, applied);
    }

    /** A hole is reported exactly when some later slot is chosen, and then it is the next slot to apply. */
    method Gap() returns (slot: nat, ok: bool)
      requires Valid()
      ensures ok <==> exists s :: s in chosen && s > applied
      ensures slot == if ok then applied else 0
    {
      slot, ok := ScanGap(chosen, applied, maxSeen);
    }
  }

  method ScanUnchosen(chosen: Chosen, from: nat) returns (s: nat)
    ensures s == FirstMissing(chosen, from)
  {
    s := from;
    while s in chosen
      invariant FirstMissing(chosen, from) == FirstMissing(chosen, s)
      decreases FirstMissing(chosen, s) - s
    {
      s := s + 1;
    }
  }

  method ScanGap(chosen: Chosen, from: nat, to: nat) returns (slot: nat, ok: bool)
    ensures ok <==> FirstMissing(chosen, from) < to
    ensures slot == if ok then FirstMissing(chosen, from) else 0
  {
    var s := from;
    while s < to
      invariant FirstMissing(chosen, from) == FirstMissing(chosen, s)
    {
      if s !in chosen {
        return s, true;
      }
      s := s + 1;
    }
    return 0, false;
  }
}
