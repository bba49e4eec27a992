/** Ballots of internal/paxos: a uint64 that holds (round << 8) | replica index. */
module Ballots {
  type Ballot = nat

  /** The first round whose shift by eight bits no longer fits in 64 bits. */
  const ROUND_LIMIT: nat := 0x100_0000_0000_0000
  const WORD: nat := 0x1_0000_0000_0000_0000

  /** The shift drops the bits above 64; the low eight bits are then zero, so "or" adds. */
  function MakeBallot(round: nat, idx: nat): Ballot
    requires idx < 256
  {
    (round * 256) % WORD + idx
  }

  function Round(b: Ballot): nat {
    b / 256
  }

  /** The replica index in the low eight bits. */
  function Index(b: Ballot): nat {
    b % 256
  }

  /** The round and the index can be read back exactly when the round is below 2^56. */
  lemma BallotRoundTrip(round: nat, idx: nat)
    requires idx < 256
    ensures Index(MakeBallot(round, idx)) == idx
    ensures Round(MakeBallot(round, idx)) == round <==> round < ROUND_LIMIT
    ensures round < ROUND_LIMIT ==> MakeBallot(round, idx) == round * 256 + idx
  {
    var q := (round * 256) / WORD;
    assert round * 256 == q * WORD + (round * 256) % WORD;
    assert WORD == 256 * ROUND_LIMIT;
    assert (round * 256) % WORD == 256 * (round - q * ROUND_LIMIT);
    if round < ROUND_LIMIT {
      assert q == 0;
    } else {
      assert q >= 1;
    }
  }

  /** Rounds dominate and the index breaks ties, so no two (round, index) pairs share a ballot. */
  lemma BallotOrder(r1: nat, i1: nat, r2: nat, i2: nat)
    requires i1 < 256 && i2 < 256 && r1 < ROUND_LIMIT && r2 < ROUND_LIMIT
    ensures MakeBallot(r1, i1) < MakeBallot(r2, i2) <==> r1 < r2 || (r1 == r2 && i1 < i2)
    ensures MakeBallot(r1, i1) == MakeBallot(r2, i2) <==> r1 == r2 && i1 == i2
  {
    BallotRoundTrip(r1, i1);
    BallotRoundTrip(r2, i2);
  }
}
