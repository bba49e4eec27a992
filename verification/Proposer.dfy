/** The proposer role of internal/paxos: how one replica counts replies and drives a slot. */
module Proposers {
  import opened Options
  import opened Ballots
  import opened Directory
  import opened Acceptors
  import opened LearnerLog

  function Majority(n: nat): nat {
    n / 2 + 1
  }

  /** The least number of replicas that is more than half of them. */
  lemma MajorityIsLeast(n: nat, k: nat)
    ensures k >= Majority(n) <==> 2 * k > n
  {
  }

  datatype PrepareTally =
    PrepareTally(promises: nat, adopted: Option<Command>, adoptedBallot: Ballot, maxPromised: Ballot)

  datatype AcceptTally = AcceptTally(accepts: nat, maxPromised: Ballot)

  const NO_PROMISES := PrepareTally(0, None, 0, 0)
  const NO_ACCEPTS := AcceptTally(0, 0)

  function CountPromise(t: PrepareTally, r: PrepareReply): PrepareTally {
    if r.promised then
      var t' := t.(promises := t.promises + 1);
      if r.acceptedValue.Some? && r.acceptedBallot >= t.adoptedBallot
      then t'.(adopted := r.acceptedValue, adoptedBallot := r.acceptedBallot)
      else t'
    else if r.promisedBallot > t.maxPromised then t.(maxPromised := r.promisedBallot)
    else t
  }

  function CountAccept(t: AcceptTally, r: AcceptReply): AcceptTally {
    if r.accepted then t.(accepts := t.accepts + 1)
    else if r.promisedBallot > t.maxPromised then t.(maxPromised := r.promisedBallot)
    else t
  }

  /** The tally of replies in arrival order; None is a call that failed or timed out. */
  function TallyPrepares(replies: seq<Option<PrepareReply>>): PrepareTally {
    if replies == [] then NO_PROMISES
    else
      var t := TallyPrepares(replies[..|replies| - 1]);
      var last := replies[|replies| - 1];
      if last.None? then t else CountPromise(t, last.value)
  }

  function TallyAccepts(replies: seq<Option<AcceptReply>>): AcceptTally {
    if replies == [] then NO_ACCEPTS
    else
      var t := TallyAccepts(replies[..|replies| - 1]);
      var last := replies[|replies| - 1];
      if last.None? then t else CountAccept(t, last.value)
  }

  /** The recovered command if phase 1 found one, else the caller's own. */
  function Proposal(t: PrepareTally, value: Command): Command {
    if t.adopted.Some? then t.adopted.value else value
  }

  /** catchUpRound: the round never falls, and reaches the round of the promise that beat us. */
  function CatchUp(round: nat, promised: Ballot): nat {
    if round >= Round(promised) then round else Round(promised)
  }

  /** What one attempt at a slot leaves behind: the round counter, and the chosen command if there is one. */
  function SlotOutcome(n: nat, round: nat, value: Command, t1: PrepareTally, t2: AcceptTally): (nat, Option<Command>) {
    if t1.promises < Majority(n) then (CatchUp(round, t1.maxPromised), None)
    else if t2.accepts < Majority(n) then (CatchUp(round, t2.maxPromised), None)
    else (round, Some(Proposal(t1, value)))
  }

  /** Reply `i` is a promise that carries an accepted command. */
  ghost predicate Carries(replies: seq<Option<PrepareReply>>, i: nat) {
    i < |replies| && replies[i].Some? && replies[i].value.promised && replies[i].value.acceptedValue.Some?
  }

  ghost predicate Refuses(replies: seq<Option<PrepareReply>>, i: nat) {
    i < |replies| && replies[i].Some? && !replies[i].value.promised
  }

  ghost function PromisesIn(replies: seq<Option<PrepareReply>>): set<nat> {
    set i: nat | i < |replies| && replies[i].Some? && replies[i].value.promised
  }

  lemma {:induction false} TallyCountsPromises(replies: seq<Option<PrepareReply>>)
    ensures TallyPrepares(replies).promises == |PromisesIn(replies)|
  {
    if replies == [] {
      assert PromisesIn(replies) == {};
    } else {
      var k := |replies| - 1;
      TallyCountsPromises(replies[..k]);
      if replies[k].Some? && replies[k].value.promised {
        assert PromisesIn(replies) == PromisesIn(replies[..k]) + {k};
      } else {
        assert PromisesIn(replies) == PromisesIn(replies[..k]);
      }
    }
  }

  /**
   * The adopted command is None exactly when no promise carries one, and else comes from the last to arrive of the
   * carrying promises of the highest accepted ballot.
   */
  ghost predicate AdoptsHighest(replies: seq<Option<PrepareReply>>, t: PrepareTally) {
    && (forall i: nat :: Carries(replies, i) ==> t.adopted.Some? && replies[i].value.acceptedBallot <= t.adoptedBallot)
    && (t.adopted.None? ==> t.adoptedBallot == 0)
    && (t.adopted.Some? ==> exists i: nat :: AdoptedFrom(replies, i, t))
  }

  ghost predicate AdoptedFrom(replies: seq<Option<PrepareReply>>, i: nat, t: PrepareTally) {
    && Carries(replies, i)
    && replies[i].value.acceptedBallot == t.adoptedBallot && replies[i].value.acceptedValue == t.adopted
    && forall j: nat :: i < j && Carries(replies, j) ==> replies[j].value.acceptedBallot < t.adoptedBallot
  }

  lemma {:induction false} TallyAdoptsHighest(replies: seq<Option<PrepareReply>>)
    ensures AdoptsHighest(replies, TallyPrepares(replies))
  {
    if replies == [] {
    } else {
      var k := |replies| - 1;
      var init := replies[..k];
      TallyAdoptsHighest(init);
      var t0, t := TallyPrepares(init), TallyPrepares(replies);
      assert forall i: nat :: i < k ==> (Carries(init, i) <==> Carries(replies, i));
      if Carries(replies, k) && replies[k].value.acceptedBallot >= t0.adoptedBallot {
        assert AdoptedFrom(replies, k, t);
      } else if t0.adopted.Some? {
        var i: nat :| AdoptedFrom(init, i, t0);
        assert AdoptedFrom(replies, i, t);
      }
    }
  }

  /** The catch-up ballot is the highest promise among the refusals. */
  ghost predicate KeepsHighestRefusal(replies: seq<Option<PrepareReply>>, highest: Ballot) {
    && (forall i: nat :: Refuses(replies, i) ==> replies[i].value.promisedBallot <= highest)
    && (highest > 0 ==> exists i: nat :: Refuses(replies, i) && replies[i].value.promisedBallot == highest)
  }

  lemma {:induction false} TallyKeepsHighestRefusal(replies: seq<Option<PrepareReply>>)
    ensures KeepsHighestRefusal(replies, TallyPrepares(replies).maxPromised)
  {
    if replies == [] {
    } else {
      var k := |replies| - 1;
      var init := replies[..k];
      TallyKeepsHighestRefusal(init);
      assert forall i: nat :: i < k ==> (Refuses(init, i) <==> Refuses(replies, i));
      var m0, m := TallyPrepares(init).maxPromised, TallyPrepares(replies).maxPromised;
      if m == m0 && m > 0 {
        var i: nat :| Refuses(init, i) && init[i].value.promisedBallot == m;
        assert Refuses(replies, i);
      } else if m > 0 {
        assert Refuses(replies, k);
      }
    }
  }

  ghost function AcceptsIn(replies: seq<Option<AcceptReply>>): set<nat> {
    set i: nat | i < |replies| && replies[i].Some? && replies[i].value.accepted
  }

  lemma {:induction false} TallyCountsAccepts(replies: seq<Option<AcceptReply>>)
    ensures TallyAccepts(replies).accepts == |AcceptsIn(replies)|
  {
    if replies == [] {
      assert AcceptsIn(replies) == {};
    } else {
      var k := |replies| - 1;
      TallyCountsAccepts(replies[..k]);
      if replies[k].Some? && replies[k].value.accepted {
        assert AcceptsIn(replies) == AcceptsIn(replies[..k]) + {k};
      } else {
        assert AcceptsIn(replies) == AcceptsIn(replies[..k]);
      }
    }
  }

  ghost predicate RefusesAccept(replies: seq<Option<AcceptReply>>, i: nat) {
    i < |replies| && replies[i].Some? && !replies[i].value.accepted
  }

  /** The same for the second phase: the kept ballot is the highest that a refusal named. */
  lemma {:induction false} TallyKeepsHighestRejection(replies: seq<Option<AcceptReply>>)
    ensures forall i: nat :: RefusesAccept(replies, i) ==>
      replies[i].value.promisedBallot <= TallyAccepts(replies).maxPromised
    ensures TallyAccepts(replies).maxPromised > 0 ==> exists i: nat ::
      RefusesAccept(replies, i) && replies[i].value.promisedBallot == TallyAccepts(replies).maxPromised
  {
    if replies == [] {
    } else {
      var k := |replies| - 1;
      var init := replies[..k];
      TallyKeepsHighestRejection(init);
      assert forall i: nat :: i < k ==> (RefusesAccept(init, i) <==> RefusesAccept(replies, i));
      var m0, m := TallyAccepts(init).maxPromised, TallyAccepts(replies).maxPromised;
      if m == m0 && m > 0 {
        var i: nat :| RefusesAccept(init, i) && init[i].value.promisedBallot == m;
        assert RefusesAccept(replies, i);
      } else if m > 0 {
        assert RefusesAccept(replies, k);
      }
    }
  }

  // ----- what an attempt must come to, told by the replies -----

  /** v is what the promises oblige to propose: the caller's own only if none of them carries a command. */
  ghost predicate Obliged(replies: seq<Option<PrepareReply>>, value: Command, v: Command) {
    if forall i: nat :: !Carries(replies, i) then v == value else exists i: nat :: LastHighest(replies, i, v)
  }

  ghost predicate LastHighest(replies: seq<Option<PrepareReply>>, i: nat, v: Command) {
    && Carries(replies, i) && replies[i].value.acceptedValue == Some(v)
    && (forall j: nat :: Carries(replies, j) ==> replies[j].value.acceptedBallot <= replies[i].value.acceptedBallot)
    && (forall j: nat :: i < j && Carries(replies, j) ==>
          replies[j].value.acceptedBallot < replies[i].value.acceptedBallot)
  }

  lemma ProposalIsObliged(replies: seq<Option<PrepareReply>>, value: Command)
    ensures Obliged(replies, value, Proposal(TallyPrepares(replies), value))
  {
    TallyAdoptsHighest(replies);
    var t := TallyPrepares(replies);
    if t.adopted.Some? {
      var i: nat :| AdoptedFrom(replies, i, t);
      assert LastHighest(replies, i, t.adopted.value);
    }
  }

  ghost function RefusedPrepares(replies: seq<Option<PrepareReply>>): set<Ballot> {
    set i: nat | i < |replies| && Refuses(replies, i) :: replies[i].value.promisedBallot
  }

  ghost function RefusedAccepts(replies: seq<Option<AcceptReply>>): set<Ballot> {
    set i: nat | i < |replies| && RefusesAccept(replies, i) :: replies[i].value.promisedBallot
  }

  /** The round is the highest of the one it was and those of the refusing ballots. */
  ghost predicate RaisedTo(before: nat, refused: set<Ballot>, round: nat) {
    && before <= round && (forall b :: b in refused ==> Round(b) <= round)
    && (round == before || exists b :: b in refused && Round(b) == round)
  }

  lemma RoundMonotone(b: Ballot, c: Ballot)
    requires b <= c
    ensures Round(b) <= Round(c)
  {
  }

  lemma CatchUpRaises(before: nat, refused: set<Ballot>, highest: Ballot)
    requires forall b :: b in refused ==> b <= highest
    requires highest > 0 ==> highest in refused
    ensures RaisedTo(before, refused, CatchUp(before, highest))
  {
    forall b | b in refused
      ensures Round(b) <= Round(highest)
    {
      RoundMonotone(b, highest);
    }
  }

  /** One attempt that begins `round` and ends with `after` and `result`, told by what its replies say. */
  ghost predicate Means(n: nat, round: nat, value: Command, prepares: seq<Option<PrepareReply>>,
                        accepts: seq<Option<AcceptReply>>, after: nat, result: Option<Command>) {
    var promised, accepted := 2 * |PromisesIn(prepares)| > n, 2 * |AcceptsIn(accepts)| > n;
    var obliged := result.Some? ==> Obliged(prepares, value, result.value);
    var raised := RaisedTo(round, if promised then RefusedAccepts(accepts) else RefusedPrepares(prepares), after);
    && (result.Some? <==> promised && accepted) && obliged
    && (if result.Some? then after == round else raised)
  }

  lemma OutcomeMeans(n: nat, round: nat, value: Command, prepares: seq<Option<PrepareReply>>,
                     accepts: seq<Option<AcceptReply>>)
    ensures var (after, result) := SlotOutcome(n, round, value, TallyPrepares(prepares), TallyAccepts(accepts));
      Means(n, round, value, prepares, accepts, after, result)
  {
    var t1, t2 := TallyPrepares(prepares), TallyAccepts(accepts);
    TallyCountsPromises(prepares);
    TallyCountsAccepts(accepts);
    MajorityIsLeast(n, t1.promises);
    MajorityIsLeast(n, t2.accepts);
    if t1.promises < Majority(n) {
      PreparesRaise(round, prepares);
    } else if t2.accepts < Majority(n) {
      AcceptsRaise(round, accepts);
    } else {
      ProposalIsObliged(prepares, value);
    }
  }

  lemma PreparesRaise(round: nat, replies: seq<Option<PrepareReply>>)
    ensures RaisedTo(round, RefusedPrepares(replies), CatchUp(round, TallyPrepares(replies).maxPromised))
  {
    TallyKeepsHighestRefusal(replies);
    CatchUpRaises(round, RefusedPrepares(replies), TallyPrepares(replies).maxPromised);
  }

  lemma AcceptsRaise(round: nat, replies: seq<Option<AcceptReply>>)
    ensures RaisedTo(round, RefusedAccepts(replies), CatchUp(round, TallyAccepts(replies).maxPromised))
  {
    TallyKeepsHighestRejection(replies);
    CatchUpRaises(round, RefusedAccepts(replies), TallyAccepts(replies).maxPromised);
  }

  /** The world's share in one attempt of Submit: whether the context ended, and what arrived meanwhile. */
  datatype Attempt = Attempt(
    cancelled: bool,
    prepares: seq<Option<PrepareReply>>,
    learned: seq<(nat, Command)>,
    accepts: seq<Option<AcceptReply>>)

  /** The attempt gets exactly `value` chosen. */
  predicate Wins(n: nat, value: Command, a: Attempt) {
    ResultOf(n, value, a) == Some(value)
  }

  lemma ObligedOnce(replies: seq<Option<PrepareReply>>, value: Command, v: Command, w: Command)
    requires Obliged(replies, value, v) && Obliged(replies, value, w)
    ensures v == w
  {
    if i: nat :| Carries(replies, i) {
      var j: nat :| LastHighest(replies, j, v);
      var k: nat :| LastHighest(replies, k, w);
    }
  }

  /** An attempt gets `value` chosen exactly if majorities promise and accept and the promises leave it to `value`. */
  lemma WinsIff(n: nat, value: Command, a: Attempt)
    ensures Wins(n, value, a) <==>
      2 * |PromisesIn(a.prepares)| > n && 2 * |AcceptsIn(a.accepts)| > n && Obliged(a.prepares, value, value)
  {
    OutcomeMeans(n, 0, value, a.prepares, a.accepts);
    var result := ResultOf(n, value, a);
    if result.Some? && Obliged(a.prepares, value, value) {
      ObligedOnce(a.prepares, value, value, result.value);
    }
  }

  /** The command an attempt gets chosen, if any; it does not depend on the round. */
  function ResultOf(n: nat, value: Command, a: Attempt): Option<Command> {
    SlotOutcome(n, 0, value, TallyPrepares(a.prepares), TallyAccepts(a.accepts)).1
  }

  /** The log an attempt at `slot` leaves: the Learns that came in meanwhile, then its own command if it won. */
  function LogOutcome(chosen: Chosen, slot: nat, learned: seq<(nat, Command)>, result: Option<Command>): Chosen {
    if result.None? then LearnAll(chosen, learned) else Committed(LearnAll(chosen, learned), slot, result.value)
  }

  /** The log after the first k attempts of Submit, each at the slot that is then the first unchosen one. */
  function AfterAttempts(n: nat, chosen: Chosen, value: Command, attempts: seq<Attempt>, k: nat): Chosen {
    if k == 0 || k > |attempts| then chosen
    else
      var c, a := AfterAttempts(n, chosen, value, attempts, k - 1), attempts[k - 1];
      LogOutcome(c, AppliedCount(c), a.learned, ResultOf(n, value, a))
  }

  /** No Learn message names another command for the slot. */
  ghost predicate Unopposed(slot: nat, value: Command, learned: seq<(nat, Command)>) {
    forall m :: m in learned && m.0 == slot ==> m.1 == value
  }

  lemma {:induction false} AttemptsOnlyAdd(n: nat, chosen: Chosen, value: Command, attempts: seq<Attempt>, k: nat,
                                           slot: nat)
    requires k <= |attempts| && slot in chosen
    ensures slot in AfterAttempts(n, chosen, value, attempts, k)
    ensures AfterAttempts(n, chosen, value, attempts, k)[slot] == chosen[slot]
  {
    if k == 0 {
    } else {
      AttemptsOnlyAdd(n, chosen, value, attempts, k - 1, slot);
      LearnAllAdds(AfterAttempts(n, chosen, value, attempts, k - 1), attempts[k - 1].learned, slot);
    }
  }

  /** Attempt k leaves `value` in the applied sequence, at a slot not applied when Submit began, unless a Learn that
      arrived meanwhile named another command for that slot. */
  ghost predicate Applies(n: nat, chosen: Chosen, value: Command, attempts: seq<Attempt>, k: nat)
    requires k < |attempts|
  {
    var slot := AppliedCount(AfterAttempts(n, chosen, value, attempts, k));
    var t := Trace(AfterAttempts(n, chosen, value, attempts, k + 1));
    var stands := AppliedCount(chosen) <= slot < |t| && t[slot] == value;
    Unopposed(slot, value, attempts[k].learned) ==> stands
  }

  /** A won command that no Learn opposed lands in the slot it was proposed for, which becomes applied. */
  lemma WinLands(c: Chosen, learned: seq<(nat, Command)>, value: Command)
    requires Unopposed(AppliedCount(c), value, learned)
    ensures var t := Trace(LogOutcome(c, AppliedCount(c), learned, Some(value)));
      AppliedCount(c) < |t| && t[AppliedCount(c)] == value
  {
    var slot, c' := AppliedCount(c), LogOutcome(c, AppliedCount(c), learned, Some(value));
    forall s | s in c
      ensures s in c' && c[s] == c'[s]
    {
      LearnAllAdds(c, learned, s);
    }
    LearnAllAdds(c, learned, slot);
    TraceGrows(c, c');
  }

  lemma AttemptsApplyMore(n: nat, chosen: Chosen, value: Command, attempts: seq<Attempt>, k: nat)
    requires k <= |attempts|
    ensures AppliedCount(chosen) <= AppliedCount(AfterAttempts(n, chosen, value, attempts, k))
  {
    var c := AfterAttempts(n, chosen, value, attempts, k);
    forall s | s in chosen
      ensures s in c && chosen[s] == c[s]
    {
      AttemptsOnlyAdd(n, chosen, value, attempts, k, s);
    }
    TraceGrows(chosen, c);
  }

  lemma WinApplies(n: nat, chosen: Chosen, value: Command, attempts: seq<Attempt>, k: nat)
    requires k < |attempts| && Wins(n, value, attempts[k])
    ensures Applies(n, chosen, value, attempts, k)
  {
    var c := AfterAttempts(n, chosen, value, attempts, k);
    AttemptsApplyMore(n, chosen, value, attempts, k);
    if Unopposed(AppliedCount(c), value, attempts[k].learned) {
      WinLands(c, attempts[k].learned, value);
    }
  }

  /** Some attempt gets `value` chosen before the context ends. */
  ghost predicate SomeWins(n: nat, value: Command, attempts: seq<Attempt>) {
    exists i: nat :: i < |attempts| && Wins(n, value, attempts[i]) && forall j :: 0 <= j <= i ==> !attempts[j].cancelled
  }

  /** k attempts were made, none cancelled, and only the last of them may have won. */
  ghost predicate Tried(n: nat, value: Command, attempts: seq<Attempt>, k: nat, won: bool) {
    if k == 0 then !won
    else k <= |attempts| && Tried(n, value, attempts, k - 1, false)
         && !attempts[k - 1].cancelled && won == Wins(n, value, attempts[k - 1])
  }

  lemma {:induction false} TriedBefore(n: nat, value: Command, attempts: seq<Attempt>, k: nat, won: bool, j: nat)
    requires Tried(n, value, attempts, k, won) && j < k
    ensures k <= |attempts| && !attempts[j].cancelled && Wins(n, value, attempts[j]) == (won && j == k - 1)
  {
    if j == k - 1 {
    } else {
      TriedBefore(n, value, attempts, k - 1, false, j);
    }
  }

  /** The loop's verdict when it stops: on a win, a cancellation, or at the last attempt. */
  lemma Verdict(n: nat, value: Command, attempts: seq<Attempt>, k: nat, won: bool)
    requires Tried(n, value, attempts, k, won) && k <= |attempts|
    requires won || k == |attempts| || attempts[k].cancelled
    ensures won == SomeWins(n, value, attempts)
    ensures won ==> k > 0 && Wins(n, value, attempts[k - 1])
  {
    forall j: nat | j < k
      ensures !attempts[j].cancelled && Wins(n, value, attempts[j]) == (won && j == k - 1)
    {
      TriedBefore(n, value, attempts, k, won, j);
    }
  }

  class Node {
    const n: nat
    const idx: nat
    var round: nat
    const log: Log

    constructor (n: nat, idx: nat, log: Log)
      requires idx < n <= 256
      ensures this.n == n && this.idx == idx && this.log == log && round == 0
    {
      this.n, this.idx, this.log := n, idx, log;
      round := 0;
    }

    ghost predicate Valid()
      reads this, log, log.sm
    {
      var logOk := log.Valid();
      idx < n <= 256 && logOk
    }

    method CatchUpRound(promised: Ballot)
      modifies this`round
      ensures round == CatchUp(old(round), promised)
      ensures round >= old(round) && round >= Round(promised) && round in {old(round), Round(promised)}
    {
      var target := Round(promised);
      if round < target {
        round := target;
      }
    }

    /** Learn messages handled while the proposer waits. */
    method HandleLearns(learned: seq<(nat, Command)>)
      requires Valid()
      modifies log, log.sm`epoch, log.sm`members, log.sm.watch
      ensures Valid() && log.sm.watch == old(log.sm.watch)
      ensures log.chosen == LearnAll(old(log.chosen), learned)
    {
      for i := 0 to |learned|
        invariant Valid() && log.sm.watch == old(log.sm.watch)
        invariant log.chosen == LearnAll(old(log.chosen), learned[..i])
      {
        assert learned[..i + 1][..i] == learned[..i];
        log.Commit(learned[i].0, learned[i].1);
      }
      assert learned[..|learned|] == learned;
    }

    /** Phase 1: counts the replies to Prepare as they arrive. */
    method CollectPromises(replies: seq<Option<PrepareReply>>) returns (t: PrepareTally)
      ensures t == TallyPrepares(replies)
    {
      t := NO_PROMISES;
      for i := 0 to |replies|
        invariant t == TallyPrepares(replies[..i])
      {
        assert replies[..i + 1][..i] == replies[..i];
        if replies[i].Some? {
          t := CountPromise(t, replies[i].value);
        }
      }
      assert replies[..|replies|] == replies;
    }

    /** Phase 2: counts the replies to Accept. */
    method CollectVotes(replies: seq<Option<AcceptReply>>) returns (t: AcceptTally)
      ensures t == TallyAccepts(replies)
    {
      t := NO_ACCEPTS;
      for i := 0 to |replies|
        invariant t == TallyAccepts(replies[..i])
      {
        assert replies[..i + 1][..i] == replies[..i];
        if replies[i].Some? {
          t := CountAccept(t, replies[i].value);
        }
      }
      assert replies[..|replies|] == replies;
    }

    /** Both phases at a slot, and the commit if they win. */
    method Drive(slot: nat, value: Command, prepares: seq<Option<PrepareReply>>, accepts: seq<Option<AcceptReply>>)
        returns (result: Option<Command>)
      requires Valid()
      modifies this`round, log, log.sm`epoch, log.sm`members, log.sm.watch
      ensures Valid() && log.sm.watch == old(log.sm.watch)
      ensures (round, result) == SlotOutcome(n, old(round), value, TallyPrepares(prepares), TallyAccepts(accepts))
      ensures log.chosen == if result.Some? then Committed(old(log.chosen), slot, result.value) else old(log.chosen)
    {
      result := None;
      var t1 := CollectPromises(prepares);
      if t1.promises < Majority(n) {
        CatchUpRound(t1.maxPromised);
      } else {
        var proposal := Proposal(t1, value);
        var t2 := CollectVotes(accepts);
        if t2.accepts < Majority(n) {
          CatchUpRound(t2.maxPromised);
        } else {
          log.Commit(slot, proposal);
          result := Some(proposal);
        }
      }
    }

    /** One Prepare/Accept/Learn round for a slot, given the replies that arrive and the Learns that interleave. */
    method RunSlot(slot: nat, value: Command, a: Attempt) returns (ballot: Ballot, result: Option<Command>)
      requires Valid()
      modifies this`round, log, log.sm`epoch, log.sm`members, log.sm.watch
      ensures Valid() && log.sm.watch == old(log.sm.watch)
      ensures ballot == MakeBallot(old(round) + 1, idx)
      ensures (round, result) ==
        SlotOutcome(n, old(round) + 1, value, TallyPrepares(a.prepares), TallyAccepts(a.accepts))
      ensures result.Some? <==> 2 * |PromisesIn(a.prepares)| > n && 2 * |AcceptsIn(a.accepts)| > n
      ensures Means(n, old(round) + 1, value, a.prepares, a.accepts, round, result)
      ensures log.chosen == LogOutcome(old(log.chosen), slot, a.learned, result)
    {
      round := round + 1;
      ballot := MakeBallot(round, idx);
      HandleLearns(a.learned);
      result := Drive(slot, value, a.prepares, a.accepts);
      OutcomeMeans(n, old(round) + 1, value, a.prepares, a.accepts);
    }

    /** One attempt of Submit, at the first unchosen slot. */
    method TryOnce(value: Command, a: Attempt) returns (won: bool)
      requires Valid()
      modifies this`round, log, log.sm`epoch, log.sm`members, log.sm.watch
      ensures Valid() && log.sm.watch == old(log.sm.watch) && won == Wins(n, value, a)
      ensures log.chosen == LogOutcome(old(log.chosen), AppliedCount(old(log.chosen)), a.learned, ResultOf(n, value, a))
    {
      var slot := log.FirstUnchosen();
      var _, chosen := RunSlot(slot, value, a);
      won := chosen.Some? && chosen.value == value;
    }

    /** The retry loop of Submit, for any number of attempts. */
    method Retry(value: Command, attempts: seq<Attempt>) returns (ok: bool, ghost tries: nat)
      requires Valid()
      modifies this`round, log, log.sm`epoch, log.sm`members, log.sm.watch
      ensures Valid() && tries <= |attempts|
      ensures log.chosen == AfterAttempts(n, old(log.chosen), value, attempts, tries)
      ensures ok == SomeWins(n, value, attempts)
      ensures ok ==> tries > 0 && Wins(n, value, attempts[tries - 1])
      ensures !ok ==> tries == |attempts| || attempts[tries].cancelled
    {
      var attempt: nat := 0;
      ok := false;
      while attempt < |attempts| && !ok && !attempts[attempt].cancelled
        invariant attempt <= |attempts| && Valid() && log.sm.watch == old(log.sm.watch)
        invariant log.chosen == AfterAttempts(n, old(log.chosen), value, attempts, attempt)
        invariant Tried(n, value, attempts, attempt, ok)
      {
        ok := TryOnce(value, attempts[attempt]);
        attempt := attempt + 1;
      }
      tries := attempt;
      Verdict(n, value, attempts, attempt, ok);
    }

    /** Submit returns nil exactly when one of its attempts, before any cancellation, gets `value` chosen. Unless a
        Learn contradicted that win, `value` is then applied locally, at a slot that was not applied before. */
    method Submit(value: Command, attempts: seq<Attempt>) returns (ok: bool, ghost tries: nat)
      requires Valid() && |attempts| == 20
      modifies this`round, log, log.sm`epoch, log.sm`members, log.sm.watch
      ensures Valid() && tries <= 20
      ensures log.chosen == AfterAttempts(n, old(log.chosen), value, attempts, tries)
      ensures ok == SomeWins(n, value, attempts)
      ensures ok ==> tries > 0 && Applies(n, old(log.chosen), value, attempts, tries - 1)
      ensures !ok ==> tries == 20 || attempts[tries].cancelled
    {
      ok, tries := Retry(value, attempts);
      if ok {
        WinApplies(n, old(log.chosen), value, attempts, tries - 1);
      }
    }
  }
}
