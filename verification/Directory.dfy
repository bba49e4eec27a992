/**
 * The replicated directory of internal/directory: the commands the replicas agree on,
 * and the epoch-numbered membership that a log of commands yields.
 */
module Directory {
  type NodeId = string

  datatype NodeInfo = NodeInfo(id: NodeId, addr: string, capacity: nat)

  /** A decoded ClusterCommand. `Lease` stands for the two lease commands, which have no effect yet. */
  datatype Command =
    | NodeJoin(node: NodeInfo)
    | NodeLeave(id: NodeId)
    | NodeDead(id: NodeId)
    | Lease(lease: string)
    | Noop

  /** What a replica derives from its applied log; also what a Ring message carries. */
  datatype View = View(epoch: nat, members: map<NodeId, NodeInfo>)

  const EMPTY_VIEW := View(0, map[])

  /** Whether a command changes the membership. */
  predicate Changes(v: View, c: Command) {
    match c
    case NodeJoin(n) => n.id !in v.members || v.members[n.id].addr != n.addr
    case NodeLeave(id) => id in v.members
    case NodeDead(id) => id in v.members
    case Lease(_) => false
    case Noop => false
  }

  function Applied(v: View, c: Command): View {
    if !Changes(v, c) then v
    else match c
      case NodeJoin(n) => View(v.epoch + 1, v.members[n.id := n])
      case NodeLeave(id) => View(v.epoch + 1, v.members - {id})
      case NodeDead(id) => View(v.epoch + 1, v.members - {id})
      case Lease(_) => v
      case Noop => v
  }

  function Replay(log: seq<Command>): View {
    if log == [] then EMPTY_VIEW else Applied(Replay(log[..|log| - 1]), log[|log| - 1])
  }

  /** The ring was the directory's state at some point of its log. */
  ghost predicate FromLog(log: seq<Command>, ring: View) {
    exists k: nat :: k <= |log| && ring == Replay(log[..k])
  }

  /** The epoch never falls as the log grows, and an equal epoch means nothing changed in between. */
  lemma {:induction false} ReplayMonotone(shorter: seq<Command>, longer: seq<Command>)
    requires shorter <= longer
    ensures Replay(shorter).epoch <= Replay(longer).epoch
    ensures Replay(shorter).epoch == Replay(longer).epoch ==> Replay(shorter) == Replay(longer)
    decreases |longer|
  {
    if |shorter| < |longer| {
      var init := longer[..|longer| - 1];
      assert shorter <= init;
      ReplayMonotone(shorter, init);
    } else {
      assert shorter == longer;
    }
  }

  /** `c` takes `id` out of the membership. */
  predicate Removes(c: Command, id: NodeId) {
    (c.NodeLeave? || c.NodeDead?) && c.id == id
  }

  /** The last word on `id` in the log is a join at position `k`. */
  ghost predicate JoinedAt(log: seq<Command>, id: NodeId, k: nat) {
    && k < |log|
    && log[k].NodeJoin? && log[k].node.id == id
    && forall j :: k < j < |log| ==> !Removes(log[j], id)
  }

  /** A node is a member exactly when it joined and no later command removed it. */
  lemma {:induction false} MemberIffJoined(log: seq<Command>, id: NodeId)
    ensures id in Replay(log).members <==> exists k: nat :: JoinedAt(log, id, k)
  {
    if log == [] {
    } else {
      var init, last := log[..|log| - 1], log[|log| - 1];
      MemberIffJoined(init, id);
      if id in Replay(log).members {
        if id in Replay(init).members {
          var k :| JoinedAt(init, id, k);
          assert JoinedAt(log, id, k);
        } else {
          assert JoinedAt(log, id, |log| - 1);
        }
      } else {
        forall k: nat ensures !JoinedAt(log, id, k) {
          if JoinedAt(log, id, k) && k < |log| - 1 {
            assert JoinedAt(init, id, k);
          }
        }
      }
    }
  }

  // ----- when the epoch moves -----

  /** Command k changes who is a member, or what is known of one. */
  ghost predicate MovesAt(log: seq<Command>, k: nat) {
    k < |log| && Replay(log[..k]).members != Replay(log[..k + 1]).members
  }

  ghost function Moves(log: seq<Command>): set<nat> {
    set k: nat | k < |log| && MovesAt(log, k)
  }

  lemma AppliedMoves(v: View, c: Command)
    ensures Applied(v, c).epoch == v.epoch + if Applied(v, c).members != v.members then 1 else 0
  {
    if c.NodeJoin? && Changes(v, c) {
      assert Applied(v, c).members[c.node.id] == c.node;
    } else if Changes(v, c) {
      assert c.id in v.members && c.id !in Applied(v, c).members;
    }
  }

  lemma MovesBefore(log: seq<Command>, n: nat, k: nat)
    requires k < n <= |log|
    ensures MovesAt(log[..n], k) <==> MovesAt(log, k)
  {
    assert log[..n][..k] == log[..k] && log[..n][..k + 1] == log[..k + 1];
  }

  /** The epoch counts the membership changes: one for each, and nothing else moves it. */
  lemma {:induction false} EpochCountsMoves(log: seq<Command>)
    ensures Replay(log).epoch == |Moves(log)|
  {
    if log == [] {
      assert Moves(log) == {};
    } else {
      var k := |log| - 1;
      EpochCountsMoves(log[..k]);
      AppliedMoves(Replay(log[..k]), log[k]);
      assert log[..k + 1] == log;
      forall j: nat | j < k
        ensures MovesAt(log[..k], j) <==> MovesAt(log, j)
      {
        MovesBefore(log, k, j);
      }
      assert Moves(log) == Moves(log[..k]) + if MovesAt(log, k) then {k} else {};
    }
  }

  // ----- what is known of a member -----

  /** The command is about the node. */
  predicate About(c: Command, id: NodeId) {
    Removes(c, id) || (c.NodeJoin? && c.node.id == id)
  }

  /** Where the last command about the node stands; the length of the log if there is none. */
  function LastOn(log: seq<Command>, id: NodeId): (i: nat)
    ensures i <= |log| && (i < |log| ==> About(log[i], id))
    ensures forall j :: 0 <= j < |log| && (i < |log| ==> i < j) ==> !About(log[j], id)
  {
    if log == [] then 0
    else
      var n := |log| - 1;
      if About(log[n], id) then n
      else
        var i := LastOn(log[..n], id);
        if i < n then i else |log|
  }

  /** The last command about the node decides whether it is a member, and where. */
  lemma {:induction false} LastDecides(log: seq<Command>, id: NodeId)
    ensures var i := LastOn(log, id);
      id in Replay(log).members <==> i < |log| && log[i].NodeJoin?
    ensures var i := LastOn(log, id);
      id in Replay(log).members ==> Replay(log).members[id].addr == log[i].node.addr
  {
    if log == [] {
    } else {
      LastDecides(log[..|log| - 1], id);
    }
  }

  /** Command k brings the node in, or to an address other than the one it had. */
  ghost predicate Brings(log: seq<Command>, id: NodeId, k: nat) {
    && k < |log| && log[k].NodeJoin? && log[k].node.id == id
    && var i := LastOn(log[..k], id);
    i < k && log[i].NodeJoin? ==> log[i].node.addr != log[k].node.addr
  }

  /** Command k brought the node to where it is: since then it was not removed, and joined only at the same address. */
  ghost predicate BroughtBy(log: seq<Command>, id: NodeId, k: nat) {
    && Brings(log, id, k)
    && forall j :: k < j < |log| && About(log[j], id) ==> log[j].NodeJoin? && log[j].node.addr == log[k].node.addr
  }

  lemma BroughtBefore(log: seq<Command>, id: NodeId, k: nat)
    requires log != [] && k < |log| - 1
    ensures BroughtBy(log, id, k) ==> BroughtBy(log[..|log| - 1], id, k)
    ensures BroughtBy(log[..|log| - 1], id, k) ==> Brings(log, id, k)
  {
    assert log[..|log| - 1][..k] == log[..k];
  }

  /** The join that brought a node to where it is makes it a member, and says what is known of it. */
  lemma {:induction false} BroughtIsMember(log: seq<Command>, id: NodeId, k: nat)
    requires BroughtBy(log, id, k)
    ensures id in Replay(log).members && Replay(log).members[id] == log[k].node
    decreases |log|
  {
    var n := |log| - 1;
    if k == n {
      LastDecides(log[..n], id);
    } else {
      BroughtBefore(log, id, k);
      BroughtIsMember(log[..n], id, k);
    }
  }

  /** Every member was brought by some join. */
  lemma {:induction false} MemberWasBrought(log: seq<Command>, id: NodeId) returns (k: nat)
    requires id in Replay(log).members
    ensures BroughtBy(log, id, k)
  {
    var n := |log| - 1;
    var here := Replay(log[..n]).members;
    LastDecides(log[..n], id);
    if About(log[n], id) && !(id in here && here[id].addr == log[n].node.addr) {
      k := n;
    } else {
      k := MemberWasBrought(log[..n], id);
      BroughtBefore(log, id, k);
      BroughtIsMember(log[..n], id, k);
    }
  }

  /** Every member is filed under its own id. */
  lemma {:induction false} MembersKeyedById(log: seq<Command>)
    ensures forall id :: id in Replay(log).members ==> Replay(log).members[id].id == id
  {
    if log == [] {
    } else {
      MembersKeyedById(log[..|log| - 1]);
    }
  }

  /** One watcher's channel: a buffer of one signal (state.go:124). */
  class Signal {
    var pending: bool
    constructor () ensures !pending { pending := false; }
  }

  /** The state machine of one replica. Apply runs in slot order under the log's lock. */
  class StateMachine {
    var epoch: nat
    var members: map<NodeId, NodeInfo>
    var watch: set<Signal>

    constructor ()
      ensures Current() == EMPTY_VIEW && watch == {}
    {
      epoch, members, watch := 0, map[], {};
    }

    /** Ring() snapshots the membership under the lock. */
    function Current(): View
      reads this
    {
      View(epoch, members)
    }

    /** Applies one committed command; a change leaves a signal with every subscriber and disturbs no other state. */
    method Apply(cmd: Command)
      modifies this`epoch, this`members, watch
      ensures Current() == Applied(old(Current()), cmd)
      ensures epoch == old(epoch) + if members != old(members) then 1 else 0
      ensures forall w :: w in watch ==> w.pending == (old(w.pending) || members != old(members))
    {
      AppliedMoves(Current(), cmd);
      var changed := false;
      match cmd {
        case NodeJoin(n) =>
          if n.id !in members || members[n.id].addr != n.addr {
            members := members[n.id := n];
            changed := true;
          }
        case NodeLeave(id) =>
          if id in members {
            members := members - {id};
            changed := true;
          }
        case NodeDead(id) =>
          if id in members {
            members := members - {id};
            changed := true;
          }
        case Noop =>
        case Lease(_) =>
      }
      if changed {
        epoch := epoch + 1;
        SignalAll();
      }
    }

    /** The non-blocking sends: a full buffer already holds the signal it needs. */
    method SignalAll()
      modifies watch
      ensures forall w :: w in watch ==> w.pending
    {
      var todo := watch;
      while todo != {}
        invariant todo <= watch
        invariant forall w :: w in watch - todo ==> w.pending
        decreases todo
      {
        var ch :| ch in todo;
        ch.pending := true;
        todo := todo - {ch};
      }
    }

    method Subscribe() returns (ch: Signal)
      modifies this`watch
      ensures fresh(ch) && !ch.pending
      ensures watch == old(watch) + {ch}
    {
      ch := new Signal();
      watch := watch + {ch};
    }

    method Unsubscribe(ch: Signal)
      modifies this`watch
      ensures watch == old(watch) - {ch}
    {
      watch := watch - {ch};
    }
  }
}
