/** The acceptor role of internal/paxos: what one replica promises and accepts, slot by slot. */
module Acceptors {
  import opened Options
  import opened Ballots
  import opened Directory

  datatype AcceptorSlot = AcceptorSlot(promised: Ballot, acceptedBallot: Ballot, acceptedValue: Option<Command>)

  const FRESH := AcceptorSlot(0, 0, None)

  datatype PrepareReply =
    PrepareReply(promised: bool, acceptedBallot: Ballot, acceptedValue: Option<Command>, promisedBallot: Ballot)

  datatype AcceptReply = AcceptReply(accepted: bool, promisedBallot: Ballot)

  /** A slot never heard of reads as the zero value. */
  function At(slots: map<nat, AcceptorSlot>, slot: nat): AcceptorSlot {
    if slot in slots then slots[slot] else FRESH
  }

  /** A Prepare with ballot b and what it is answered: a promise exactly if b is above the one given so far. */
  function OnPrepare(sl: AcceptorSlot, b: Ballot): (AcceptorSlot, PrepareReply) {
    if b > sl.promised then
      (sl.(promised := b), PrepareReply(true, sl.acceptedBallot, sl.acceptedValue, b))
    else
      (sl, PrepareReply(false, sl.acceptedBallot, sl.acceptedValue, sl.promised))
  }

  /** An Accept with ballot b and what it is answered: yes exactly if b is not below the promise given so far. */
  function OnAccept(sl: AcceptorSlot, b: Ballot, v: Command): (AcceptorSlot, AcceptReply) {
    if b >= sl.promised then
      (AcceptorSlot(b, b, Some(v)), AcceptReply(true, b))
    else
      (sl, AcceptReply(false, sl.promised))
  }

  class Acceptor {
    var slots: map<nat, AcceptorSlot>

    constructor ()
      ensures forall s :: At(slots, s) == FRESH
    {
      slots := map[];
    }

    /** Finds the slot, entering a zero one first if there is none: no slot reads differently after. */
    method Slot(s: nat) returns (sl: AcceptorSlot)
      modifies this
      ensures s in slots && slots[s] == sl
      ensures forall t :: At(slots, t) == old(At(slots, t))
    {
      if s !in slots {
        slots := slots[s := FRESH];
      }
      sl := slots[s];
    }

    method Prepare(slot: nat, b: Ballot) returns (reply: PrepareReply)
      modifies this
      ensures (At(slots, slot), reply) == OnPrepare(old(At(slots, slot)), b)
      ensures reply.promised <==> b > old(At(slots, slot).promised)
      ensures reply.promisedBallot == At(slots, slot).promised
      ensures At(slots, slot).promised == if reply.promised then b else old(At(slots, slot).promised)
      ensures reply.acceptedBallot == At(slots, slot).acceptedBallot == old(At(slots, slot).acceptedBallot)
      ensures reply.acceptedValue == At(slots, slot).acceptedValue == old(At(slots, slot).acceptedValue)
      ensures forall t :: t != slot ==> At(slots, t) == old(At(slots, t))
    {
      var sl := Slot(slot);
      if b > sl.promised {
        slots := slots[slot := sl.(promised := b)];
        return PrepareReply(true, sl.acceptedBallot, sl.acceptedValue, b);
      }
      return PrepareReply(false, sl.acceptedBallot, sl.acceptedValue, sl.promised);
    }

    method Accept(slot: nat, b: Ballot, v: Command) returns (reply: AcceptReply)
      modifies this
      ensures (At(slots, slot), reply) == OnAccept(old(At(slots, slot)), b, v)
      ensures reply.accepted <==> b >= old(At(slots, slot).promised)
      ensures reply.promisedBallot == At(slots, slot).promised
      ensures At(slots, slot) == if reply.accepted then AcceptorSlot(b, b, Some(v)) else old(At(slots, slot))
      ensures forall t :: t != slot ==> At(slots, t) == old(At(slots, t))
    {
      var sl := Slot(slot);
      if b >= sl.promised {
        slots := slots[slot := sl.(promised := b, acceptedBallot := b, acceptedValue := Some(v))];
        return AcceptReply(true, b);
      }
      return AcceptReply(false, sl.promised);
    }
  }
}
