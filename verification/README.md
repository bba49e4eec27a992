# PrefixMesh, modelled and proved

PrefixMesh is a distributed prefix cache. A replicated directory agrees on the cluster membership with
multi-decree Paxos; every membership change makes a new ring epoch, and epochs are streamed to the gateways and
cache nodes. Gateways place blocks on a consistent hash ring, write each block to its first `rf` owners, and match
a prompt's hash chain against what the owners hold. Cache nodes keep blocks in a byte-budget LRU or in a paged
arena. A prefetcher copies demanded blocks to new owners when the ring changes.

This project models that logic in Dafny and proves what it promises. `dafny verify dfyconfig.toml` checks all of it.

## The results

* **Consensus.** In every run with loss, delay, reordering, duplication and any number of concurrent proposers, a
  slot has at most one chosen command, and from the ballot that chose it on every proposal carries it
  (`ReplicatedLog.PaxosAgreement`, `ChosenForever`). All replicas apply prefixes of one sequence (`CommonSequence`),
  the branch that drops a conflicting commit is dead (`NoConflictingCommit`), and a won command is applied locally for
  good (`WonCommandApplied`, `WonCommandStays`). Every attempt of every run leaves the round and log that `RunSlot`
  leaves for the same replies and Learns (`Attempts.AttemptIsRunSlot`), so a `Submit` that succeeds has applied its
  command (`Proposers.WinApplies`). A proposer that a majority answers, undisturbed by higher ballots, wins by its
  second attempt from every reachable state (`Progress.SecondAttemptWins`), which fills the hole it went for
  (`HoleFilled`).
* **Membership.** The epoch determines the ring across replicas and time, rings read in the middle of a Commit included
  (`EpochDeterminesRing`), and whatever a watcher holds is a prefix of the common sequence, replayed
  (`RingWatcher.HeldFromCommonSequence`). No interleaving of Apply, Subscribe and the send loop loses a wake-up
  (`WatchStream.WaitingMeansCurrent`), and a loop left to itself soon rests with the current ring sent
  (`LoopComesToRest`). The epoch counts the commands that changed the members (`Directory.EpochCountsMoves`); a
  watcher's epoch falls exactly when an epoch-0 ring arrives (`RingWatcher.EpochFallsOnlyToZero`). Together: gateways at
  the same epoch route every block alike (`Mesh.SameEpochSameOwners`).
* **Stores.** Both stores refine one recency list (`Recency`): the LRU by a map and a list, the paged store by a heap
  of linked entries over one byte arena, with page ownership, sampling index and exact frecency as invariants. Under
  either eviction policy a held block was stored by some Put and held ever since (`Recency.HeldSinceStored`). Every
  series of calls on a new store, for every random source, is such a history with right answers, exact counters and a
  safe arena (`Sessions.ServePaged`, `ServeLru`); so a Get returns what a Put stored, byte for byte, and misses only
  what a Put evicted (`Sessions.RoundTrip`, `MissMeansEvicted`).
* **Placement.** The owner order is the members sorted by their nearest virtual node, whatever the hash; hence a join
  inserts one node and moves nobody (`HashRing.JoinKeepsOrder`, `OneOwnerChanges`, `JoinKeepsPrimary`). Nearness is
  clockwise distance from the number the id's first eight bytes spell (`KeySpellsId`, `NearerIsDistance`,
  `OwnersAreNearest`).
* **Matching and writing.** Batched matching equals a plain scan for every completion order of the batches
  (`Gateway.MatchOnRing`), tolerates fewer than `rf` failures, retried or not (`ToleratesFailures`, `MatchTolerates`),
  and finds what was written to stores with room for it (`Mesh.WrittenChainMatches`). What a write to empty stores
  leaves to be found is known block by block, for all capacities (`Mesh.WrittenFoundIff`). Warm commands handled in any
  order, with repeats and among others, by stores that evict and buckets that run dry, restore replication when stores
  have room and buckets have tokens (`Fleet.WarmingRestores`), so a warmed chain still matches after a ring change
  (`Mesh.WarmedChainStillMatches`).
* **Identity and rate.** Equal ids have equal history or exhibit a hash collision (`Chain.EqualIds`,
  `Chain.IdsIdentify`); the token bucket grants at most `rate + rate * T` in a window of length `T`
  (`Warmers.WindowBound`) and every call spaced `1 / rate` from the last (`SpacedCallsGranted`).

## How it is modelled

Objects whose methods update fields are classes with the source's fields and loops, each method proved against a
function of the old state; what the source promises is then proved of those functions, over whole histories and runs.
The protocol is a step system over a set of messages that only grows, so a message may be delivered late, again or
never; `Acceptors.Acceptor` and `LearnerLog.Log` are proved to do what its steps do, and `Proposers.Node.RunSlot` what
the steps of one attempt add up to. Concurrency in the gateway is an arbitrary choice of the next answer. Outside input
is a parameter: replies that arrive, clock readings, what a dial or a fetch yields, the vnode hash, SHA-256, random
sampling.

Where code and comments differ the model follows the code:

* Comment: everything past the first miss is a guaranteed miss. Eviction makes that false (`Mesh.EvictionOpensGap`). For
  chains of any length written to every node it holds exactly when the blocks that fit a store at all come first and fit
  together (`Mesh.GapIff`); only the run of consecutive hits is claimed.
* Comment: a join that is committed but not applied is an internal error. It happens exactly when a later removal is
  already applied (`JoinVisibleUnlessRemoved`), and there are runs in which it does
  (`JoinRace.JoinCommittedButRemoved`).
* Comment: chains for different models never collide. The root's input can be read as a step's input exactly when the
  model name has at least 32 bytes and a length divisible by 4 (`RootReadsAsStep`); for all other names an id
  determines position, model, block size and prefix, up to hash collisions, and block sizes count modulo 2^32
  (`IdsIdentify`). With a name of that kind ids of different models do meet (`LongNameMeetsOtherChain`).
* A watcher always takes an epoch-0 ring (`EpochCanFall`). It keeps a connection whose member changed address: the
  connections match the ring exactly when every kept one was dialled at its member's address (`ConnectionsMatch`), and
  each is at the address its member had when it was dialled (`DialledSince`). A node that joins again at another address
  is not dialled there (`MovedNodeKeepsConnection`).
* A rate below 1 never grants a warm (`GrantsIffRateAtLeastOne`).

## Model

| member | source | states |
|---|---|---|
| Ballots.BallotRoundTrip | internal/paxos/paxos.go:15-23 | index always reads back; round reads back exactly below 2^56, where the shift loses no bits |
| Ballots.BallotOrder | internal/paxos/paxos.go:15-21 | rounds dominate, the index breaks ties, no two pairs share a ballot |
| Acceptors.Acceptor.Slot | internal/paxos/paxos.go:41-48 | entering a zero slot changes no slot's reading |
| Acceptors.Acceptor.Prepare | internal/paxos/paxos.go:51-60 | promises iff the ballot is strictly above the promise so far, and then the promise is that ballot; what was accepted is reported and stays; other slots untouched |
| Acceptors.Acceptor.Accept | internal/paxos/paxos.go:63-74 | accepts iff the ballot is not below the promise, and then ballot and value are what is accepted and promised; other slots untouched |
| LearnerLog.AppliedCountUnique | internal/paxos/log.go:45-52 | the slot just below which everything is chosen is unique, so `applied` is the first unchosen slot |
| LearnerLog.AgreeingTracesComparable | internal/paxos/log.go:45-52 | logs that agree slot by slot have applied prefixes of one another |
| LearnerLog.TraceGrows | internal/paxos/log.go:41-52 | learning more never takes back what was applied |
| LearnerLog.LearnAllAdds | internal/paxos/log.go:32-44 | a series of Learns changes no known slot, and what is new is one of the messages |
| LearnerLog.LearnAllTakesFirst | internal/paxos/log.go:32-44 | a slot is known afterwards iff it was known or a Learn names it, and a new one has the command of its first Learn |
| LearnerLog.Log.constructor | internal/paxos/log.go:24-26 | an empty log has applied nothing to a fresh state machine |
| LearnerLog.Log.Commit | internal/paxos/log.go:32-53 | a new slot is recorded and exactly the newly contiguous commands are applied, in order, once; a known slot keeps its command and changes nothing |
| LearnerLog.Log.ValidView | internal/paxos/log.go:45-52 | the state machine holds what replaying the applied commands yields |
| LearnerLog.Log.FirstUnchosen | internal/paxos/log.go:56-64 | the result is always the next slot to apply |
| LearnerLog.Log.Gap | internal/paxos/log.go:68-77 | a hole is reported iff a later slot is chosen, and it is the next slot to apply |
| Proposers.TallyCountsPromises | internal/paxos/node.go:142-148 | the counting loop counts exactly the promising replies |
| Proposers.MajorityIsLeast | internal/paxos/node.go:87 | a count reaches the majority iff it is more than half of the replicas |
| Proposers.TallyAdoptsHighest | internal/paxos/node.go:149-152 | the adopted value belongs to the last reply of the highest accepted ballot among the promises, and is absent iff none accepted |
| Proposers.TallyKeepsHighestRefusal | internal/paxos/node.go:153-155 | the kept ballot is the highest any refusal named |
| Proposers.TallyCountsAccepts | internal/paxos/node.go:182-188 | the phase-2 loop counts exactly the accepting replies |
| Proposers.TallyKeepsHighestRejection | internal/paxos/node.go:189-191 | the ballot kept in phase 2 is the highest any rejection named |
| Proposers.OutcomeMeans | internal/paxos/node.go:138-209 | told by the replies alone: a value is chosen iff more than half promise and more than half accept; it is the one the promises oblige to; otherwise the round rises to the highest refusal of the phase that failed and no further |
| Proposers.WinsIff | internal/paxos/node.go:105-113 | an attempt wins for the caller iff more than half promise, more than half accept and the promises oblige to the caller's command |
| Proposers.Node.CatchUpRound | internal/paxos/node.go:213-221 | the round is raised to the refusing ballot's round and never lowered |
| Proposers.Node.HandleLearns | internal/paxos/node.go:198-206 | the log becomes the old one with every learned command recorded, the first for each slot |
| Proposers.Node.RunSlot | internal/paxos/node.go:121-209 | a command is chosen iff more than half of the replicas promise and more than half accept; it is the last of highest accepted ballot among the promises, else the caller's; after a loss the round covers every refusal of the phase that failed; the log becomes the old one with the Learns handled meanwhile and, exactly on success, the chosen command at the slot |
| Proposers.Node.Submit | internal/paxos/node.go:97-117 | succeeds iff one of 20 attempts wins with the caller's command before a cancellation, and gives up only after 20 or when cancelled; the log is what these attempts leave, one after the other; on success, unless a Learn opposed the win, the command stands applied at a slot not applied before |
| Proposers.WinApplies | internal/paxos/node.go:105-113 | a winning attempt that no Learn opposed leaves the command applied at a slot beyond everything applied before the call |
| Attempts.AttemptIsRunSlot | internal/paxos/node.go:121-209 | in every run an attempt moves round and log exactly as RunSlot does for the very replies that arrived and the very Learns handled meanwhile, and no Learn opposes a win |
| Agreement.QuorumsMeet | internal/paxos/node.go:87 | two sets of more than half of the replicas share one |
| Agreement.LaterProposalsCarryChosen | internal/paxos/node.go:138-164 | under the invariant, once chosen at a ballot every proposal from that ballot on carries the command |
| Agreement.ChosenIsUnique | internal/paxos/node.go:193-208 | under the invariant no slot has two commands accepted by majorities |
| Invariant.NewPromiseKept | internal/paxos/paxos.go:51-60 | a promise reports the highest vote below it and is kept from then on |
| Invariant.NewProposalSafe | internal/paxos/node.go:142-164 | the promises behind a proposal show that nothing else can be chosen below its ballot |
| Invariant.WonProposalChosen | internal/paxos/node.go:182-196 | a counted majority of acceptances means the proposal is chosen |
| Invariant.NextKeepsInv | internal/paxos/node.go:121-209 | every step of every replica keeps the whole protocol invariant |
| Invariant.InvInRun | internal/paxos/node.go:121-209 | the invariant holds in every state of every run |
| ReplicatedLog.RunOnlyGrows | internal/paxos/log.go:32-53 | along a run messages and log entries are never taken back |
| ReplicatedLog.PaxosAgreement | internal/paxos/node.go:121-209 | whatever two moments of a run are compared, a slot has one chosen command |
| ReplicatedLog.ChosenForever | internal/paxos/node.go:138-179 | after a command is chosen, every proposal for its slot at that ballot or above carries it, for the rest of the run |
| ReplicatedLog.NoConflictingCommit | internal/paxos/log.go:35-40 | in every run a Learn or an own commit for a known slot repeats its command: the conflict branch is dead |
| ReplicatedLog.CommitReaches | internal/paxos/log.go:41-52 | committing at or below the first unchosen slot applies that slot at once |
| ReplicatedLog.WonCommandApplied | internal/paxos/node.go:105-113 | in every run a won command is applied locally at its slot whatever Learns interleaved |
| ReplicatedLog.WonCommandStays | internal/paxos/node.go:105-113 | and in every later state of the run it still stands applied at that slot |
| ReplicatedLog.JoinVisibleUnlessRemoved | internal/directory/server.go:106-114 | at every later moment of the run, also in the middle of a Commit, a reader that sees the join applied finds the node a member iff no later applied command removed it for good |
| JoinRace.JoinCommittedButRemoved | internal/directory/server.go:111-114 | a run of two replicas, for every node: the join is won and committed, and the node is not a member right after |
| ReplicatedLog.LastWord | internal/directory/state.go:45-64 | after a join, either some join or some removal is the last word on the node |
| ReplicatedLog.CommonSequence | internal/paxos/log.go:45-52 | in every run one sequence exists of which every replica always has applied a prefix |
| ReplicatedLog.PublishedFromSequence | internal/directory/state.go:90-102 | every ring a replica can publish, also between two commands of one Commit, is a prefix of the common sequence, replayed |
| ReplicatedLog.EpochDeterminesRing | internal/directory/state.go:36-102 | rings of equal epoch are equal, whichever replicas published them and when, also in the middle of a Commit |
| Progress.SoundInRun | internal/paxos/node.go:122-221 | in every run every ballot on the network is of a round begun, and every refusal heard is within the ballot the proposer will catch up to |
| Progress.BidIsFresh | internal/paxos/node.go:122 | no message on the network carries the ballot of an attempt about to start |
| Progress.WillingMembersWin | internal/paxos/node.go:142-196 | an attempt whose members have promised nothing higher ends with a majority in both phases |
| Progress.HighBidWins | internal/paxos/node.go:121-209 | in every run an undisturbed attempt whose ballot is above a majority's promises wins |
| Progress.LostCatchesUp | internal/paxos/node.go:157-160 | an attempt that ends without a win has caught up to the round of every promise of the answering majority |
| Progress.SecondAttemptWins | internal/paxos/node.go:121-221 | in every run, from every reachable state: two attempts at a slot that one set of more than half of the replicas answers and no higher ballot disturbs contain a win |
| Progress.HoleFilled | internal/paxos/node.go:234-250 | in every run, after two such attempts the first slot that was not applied when they began is applied |
| Directory.ReplayMonotone | internal/directory/state.go:70-72 | the epoch never falls as the log grows; equal epochs mean nothing changed in between |
| Directory.EpochCountsMoves | internal/directory/state.go:44-72 | for every log the epoch is the number of commands that changed the members, so a no-op or a repeated join never makes a ring |
| Directory.MemberIffJoined | internal/directory/state.go:44-64 | a node is a member iff it joined and no later command removed it |
| Directory.BroughtIsMember | internal/directory/state.go:45-49 | a join that brought a new node or a new address, with nothing on that node after it but joins at the same address, gives the member its entry |
| Directory.MemberWasBrought | internal/directory/state.go:45-64 | and every member's entry is that of such a join |
| Directory.MembersKeyedById | internal/directory/state.go:45-48 | every member is filed under its own id |
| Directory.StateMachine.Apply | internal/directory/state.go:36-87 | the replay function's next view; the epoch rises by one iff the members changed, and every subscriber has a signal iff it had one or they changed |
| Directory.StateMachine.Subscribe | internal/directory/state.go:123-129 | a fresh empty signal joins the watch set, nothing else changes |
| Directory.StateMachine.Unsubscribe | internal/directory/state.go:131-135 | exactly that signal leaves the watch set |
| WatchStream.InvInRun | internal/directory/server.go:146-174 | the stream invariant holds under every interleaving of Apply, Subscribe and the send loop |
| WatchStream.SentEpochsIncrease | internal/directory/server.go:150-158 | every watcher is sent strictly increasing epochs, each a state the directory went through |
| WatchStream.WaitingMeansCurrent | internal/directory/state.go:70-87 | no lost wake-up: with no Apply in flight, a loop that waits without a signal has sent the current ring |
| WatchStream.LoopComesToRest | internal/directory/server.go:164-173 | after every run a loop left to itself waits without a signal within five steps, and with no Apply in flight the last ring it sent is then the current one |
| RingWatcher.HeldWasReceived | internal/ringwatch/watcher.go:86-97 | a watcher holds only what some replica sent |
| RingWatcher.HeldIsLastNews | internal/ringwatch/watcher.go:86-97 | over every history the held ring is the last that had epoch 0 or was newer than all since the last epoch 0 |
| RingWatcher.LastNewsOnce | internal/ringwatch/watcher.go:86-97 | there is only one such ring in a history |
| RingWatcher.EpochFallsOnlyToZero | internal/ringwatch/watcher.go:93-97 | the held epoch falls exactly when an epoch-0 ring arrives over a later one |
| RingWatcher.EpochMonotoneWithoutZero | internal/ringwatch/watcher.go:93-97 | without epoch-0 rings the held epoch only rises and is at least every one received |
| RingWatcher.EpochCanFall | internal/ringwatch/watcher.go:93 | concrete: a lagging replica's empty ring sets a watcher from epoch 1 back to 0 |
| RingWatcher.HeldFromCommonSequence | internal/ringwatch/watcher.go:86-97 | in every run one sequence exists such that whatever any watcher holds is a prefix of it, replayed |
| RingWatcher.WatchersAgreeOnEpoch | internal/ringwatch/watcher.go:86-97 | watchers at the same epoch hold the same ring, whatever replicas fed them and when |
| RingWatcher.Watcher.Apply | internal/ringwatch/watcher.go:86-125 | takes a ring iff none is held, it is newer or its epoch is 0; then a node is connected iff it is a member and was connected before or can be dialled, old connections as dialled, new ones at the ring's address |
| RingWatcher.DialledSince | internal/ringwatch/watcher.go:98-118 | after every series of rings a connection is at the address its member had when it was dialled, and the member has been in every ring since |
| RingWatcher.ConnectionsMatch | internal/ringwatch/watcher.go:98-118 | after a ring is taken the connections are at its addresses iff every kept one was dialled at its member's current address |
| RingWatcher.MovedNodeKeepsConnection | internal/ringwatch/watcher.go:98-118 | concrete: a node that joins at one address and again at another is in the new ring at the second and stays connected at the first |
| Mesh.SentArePublished | internal/directory/server.go:146-174 | what a replica's send loops send, under every interleaving and in every run, are rings that replica could publish |
| Mesh.SameEpochSameOwners | internal/hashring/ring.go:27-55 | gateways whose rings carry the same epoch route every block to the same owners, at the addresses the directory has for them, in every run |
| Gaps.HeldIsNewest | internal/blockstore/lru.go:43-61 | putting blocks with distinct ids into an empty store leaves the longest run of the newest that fit at all |
| Gaps.HeldIff | internal/blockstore/lru.go:43-61 | each of them is held iff it fits at all and weighs, with the fitting ones after it, at most the capacity |
| Gaps.GapFreeIff | internal/blockstore/lru.go:43-61 | no block is lost before one that is held iff the fitting blocks come first and fit together |
| Gaps.GapFreeIffAllFit | internal/blockstore/lru.go:43-61 | if each fits alone: iff all fit together |
| Mesh.GapIff | internal/gateway/server.go:127-131 | for chains of any length sent to every node, a lookup has no miss before a hit iff the fitting blocks come first and fit together |
| Mesh.EvictionOpensGap | internal/gateway/server.go:127-131 | concrete: of two blocks that each fit but not together, the lookup misses the first and finds the second |
| Mesh.WrittenFoundIff | internal/gateway/server.go:165-200 | after a write to empty stores of any capacities, a block is found iff one of its first rf owners has room for it together with all that was sent there after it |
| Mesh.WrittenChainMatches | internal/gateway/server.go:276-341 | write through PutBlocks and the stores to match: blocks streamed to nodes with room, whose epoch is not ahead, match in full on that ring while fewer than rf nodes fail |
| Mesh.WarmedChainStillMatches | internal/prefetch/prefetch.go:139-218 | through a ring change: a chain whose blocks survive at old owners, once its warm commands are handled by stores with room and buckets with tokens, still matches in full on the new ring with fewer than rf failures |
| Recency.TrimKeepsLongestPrefix | internal/blockstore/lru.go:54-56 | what is kept is the longest recent run within budget: no eviction more than needed |
| Recency.AfterOk | internal/blockstore/lru.go:43-61 | after every history ids are distinct and weights positive and within capacity |
| Recency.ListIsByLastUse | internal/blockstore/lru.go:43-103 | after every history of puts and touches the list is sorted by last use |
| Recency.HeldSinceStored | internal/blockstore/paged.go:109-175 | for every history under either policy, a held block was newly stored by some Put and has been held ever since |
| Recency.HistoryOk | internal/blockstore/paged.go:109-149 | for every history under either policy ids stay distinct and weights positive and within capacity |
| Recency.AfterIsHistory | internal/blockstore/lru.go:43-103 | the LRU lists of a history are one of these histories |
| Recency.HeldWasPut | internal/blockstore/lru.go:43-103 | under LRU a held block was newly stored by some Put of the history and has been held ever since |
| Recency.PutBesideOthers | internal/blockstore/lru.go:43-61 | a block that fits beside the others becomes held and evicts nothing |
| LruStore.LRU.constructor | internal/blockstore/lru.go:30-36 | an empty store of the given capacity |
| LruStore.LRU.UsedIsPayload | internal/blockstore/lru.go:39-41 | the bytes counted are the payload bytes held plus 128 for each block, within capacity |
| LruStore.LRU.Put | internal/blockstore/lru.go:43-61 | the list becomes what the recency list prescribes; stores iff the block is not held and its payload plus 128 bytes is within capacity; counts evictions and their cost |
| LruStore.LRU.Get | internal/blockstore/lru.go:63-74 | returns the very block held and makes it most recent; hits and misses counted |
| LruStore.LRU.Contains | internal/blockstore/lru.go:76-87 | answers membership; a hit makes the block most recent |
| LruStore.LRU.Touch | internal/blockstore/lru.go:89-95 | moves a known block to the front, nothing otherwise |
| LruStore.LRU.EvictOldest | internal/blockstore/lru.go:107-115 | drops exactly the last of the list, from list, map and byte count, and adds its cost to the evicted cost |
| Frecency.PlainDecays | internal/blockstore/paged.go:212-216 | letting time pass multiplies the sum over all touches by the decay over that time |
| Frecency.DecayedTick | internal/blockstore/paged.go:214-215 | one tick more multiplies the decayed count by the decay, and none leaves it as it is |
| Frecency.TouchIsPlain | internal/blockstore/paged.go:94-98 | the lazy update stores exactly the sum over all touches of d^age |
| Frecency.PlainBounds | internal/blockstore/paged.go:96-98 | with one tick per access the count is at least 1 and below 1 / (1 - d) |
| Frecency.WaitingKeepsOrder | internal/blockstore/paged.go:210-219 | time without touches never reorders two blocks' eviction scores |
| Paging.NeededCovers | internal/blockstore/paged.go:89-91 | the page count covers the payload with no page to spare, and is 0 iff it is empty |
| Paging.NeededFits | internal/blockstore/paged.go:116-119 | at most n pages are needed iff the payload is no longer than n pages, and none iff it is empty |
| Paging.PageInside | internal/blockstore/paged.go:134-141 | every page lies inside the arena, before any later page |
| PagedStore.Paged.constructor | internal/blockstore/paged.go:69-87 | all pages free, nothing stored, invariant established |
| PagedStore.Paged.LruPushFront | internal/blockstore/paged.go:243-252 | the linked list gains the entry at the front, both directions threaded |
| PagedStore.Paged.LruRemove | internal/blockstore/paged.go:254-266 | the linked list loses exactly that entry, whatever its position |
| PagedStore.Paged.LruMoveFront | internal/blockstore/paged.go:268-274 | the entry moves to the front and the others keep their order |
| PagedStore.Paged.Bump | internal/blockstore/paged.go:94-98 | one clock tick; the count stays the exact sum over the recorded touches |
| PagedStore.Recount | internal/blockstore/paged.go:96-97 | the new count is the plain sum including the new touch |
| PagedStore.Paged.TouchKnown | internal/blockstore/paged.go:94-100 | an access moves the block to the front and keeps the whole invariant |
| PagedStore.Paged.Touch | internal/blockstore/paged.go:190-196 | the recency list's touch |
| PagedStore.Paged.Contains | internal/blockstore/paged.go:177-188 | answers membership and touches on a hit; hits and misses counted |
| PagedStore.Paged.Get | internal/blockstore/paged.go:151-175 | returns byte for byte the block that was put, and touches it; hits and misses counted |
| PagedStore.Paged.ReadPayload | internal/blockstore/paged.go:161-166 | the pages read back in order give the payload |
| PagedStore.Paged.Allocate | internal/blockstore/paged.go:134-141 | takes pages off the end of the free list and writes the payload to them, leaving every other page's bytes alone |
| PagedStore.Paged.Sample | internal/blockstore/paged.go:212-220 | the victim is the first of least score among min(16, stored) draws, each the entry that the random source names |
| PagedStore.Paged.LeastIsCheapest | internal/blockstore/paged.go:212-220 | the draw of least score is the cheapest to lose: its decayed sum over all touches, times its cost, per page, is not above that of any draw and below that of every earlier one |
| PagedStore.Paged.PickVictim | internal/blockstore/paged.go:206-226 | a victim is found iff anything is stored: the oldest under LRU, which draws nothing; under cost the first draw, of at most 16, whose decayed sum over all touches times cost per page is least |
| PagedStore.Paged.EvictOne | internal/blockstore/paged.go:205-239 | succeeds iff anything is stored and removes exactly that victim, named without the score: the last of the list, or the first draw with the least touches-times-cost per page; counts it with its cost |
| PagedStore.Paged.SwapRemove | internal/blockstore/paged.go:229-233 | the sampling index loses exactly that entry and every position stays right |
| PagedStore.Paged.FreePages | internal/blockstore/paged.go:227-235 | the pages go back to the free list, the partition holds without the victim, occupancy falls by their size |
| PagedStore.Paged.MakeRoom | internal/blockstore/paged.go:120-124 | evicts until enough pages are free and no longer: before the last eviction there were too few; under LRU exactly the shortest run of least recent blocks; never fails |
| PagedStore.Paged.Insert | internal/blockstore/paged.go:125-148 | the new block, in a fresh entry, stands at the front of an otherwise unchanged list |
| PagedStore.Paged.Put | internal/blockstore/paged.go:109-149 | stores iff the block is not held and its payload is not empty and no longer than the arena; under LRU refines the recency list; under either policy it is a step of a history, survivors in order; evictions and their cost counted; new entries are fresh |
| PagedStore.Paged.PagesPartitioned | internal/blockstore/paged.go:37-39 | a page is free or belongs to exactly one stored block |
| PagedStore.Paged.ArenaIsSafe | internal/blockstore/paged.go:37-39 | every page is free or belongs to exactly one stored block, is listed once, and bytes in use and free make up the arena |
| PagedStore.Paged.OccupancyExact | internal/blockstore/paged.go:147 | occupancy is the exact size of pages in use, and with the free pages the whole arena |
| PagedStore.Paged.ListByLastAccess | internal/blockstore/paged.go:94-100 | the linked list is strictly ordered by last access |
| PagedStore.Paged.FrecencyExact | internal/blockstore/paged.go:96-98 | every stored count is the exact decayed sum, in [1, 1 / (1 - d)) |
| Sessions.ServePaged | internal/blockstore/paged.go:69-239 | every series of calls on a new paged store, either policy, any random source: a history of the recency list, every answer right, counters exact, arena safe |
| Sessions.ServeLru | internal/blockstore/lru.go:30-115 | every series of calls on a new byte-budget store: the list the recency list prescribes, every answer right, counters exact |
| Sessions.RoundTrip | internal/blockstore/paged.go:151-175 | what a Get of a series returns is, byte for byte, a block that an earlier Put newly stored and that stayed since |
| Sessions.MissMeansEvicted | internal/blockstore/paged.go:151-158 | a Get that misses a block stored by an earlier Put comes after a Put that evicted it |
| HashRing.LexTotal | internal/hashring/ring.go:52 | the string order that breaks point ties is total |
| HashRing.LexIs | internal/hashring/ring.go:52 | it is decided at the first character that differs, or by the shorter being a prefix |
| HashRing.Sort | internal/hashring/ring.go:47-53 | a sorted permutation by point, then node id |
| HashRing.New | internal/hashring/ring.go:28-55 | sorted, holding a point iff it is the hash of a member and an index below the number per node, which is 128 when the one given is not positive; for every order of visiting the map |
| HashRing.Search | internal/hashring/ring.go:79 | binary search finds the first point at or after the key |
| HashRing.KeySpellsId | internal/hashring/ring.go:78 | the key is the one number below 256^8 whose digits to the base 256 are the first eight bytes of the id |
| HashRing.Collect | internal/hashring/ring.go:80-90 | the first distinct nodes met clockwise, until there are enough |
| HashRing.WalkIsOrder | internal/hashring/ring.go:67-91 | walking the ring lists all members sorted by their nearest virtual node clockwise |
| HashRing.NearerIsDistance | internal/hashring/ring.go:79-83 | clockwise order is the order of the distances up from the key modulo 2^64, ties by node id |
| HashRing.OrderUnique | internal/hashring/ring.go:67-91 | that order is determined by membership and layout alone |
| HashRing.OwnersCount | internal/hashring/ring.go:71-91 | exactly min(n, members) distinct members, and fewer owners are a prefix of more |
| HashRing.OwnersAreNearest | internal/hashring/ring.go:71-91 | the owners are the members nearest to the number the id spells, nearest first, and every other member is farther than each of them |
| HashRing.Owners | internal/hashring/ring.go:71-91 | min(n, members) distinct members, the nearest to the number that the first eight bytes of the id spell, in order; nothing on an empty ring or for n <= 0 |
| HashRing.Owner | internal/hashring/ring.go:59-65 | the member nearest to the number the id spells, with its address; absent iff the ring is empty |
| HashRing.SameMembersSameOwners | internal/hashring/ring.go:27-55 | rings of the same membership agree on every owner |
| HashRing.JoinKeepsOrder | internal/hashring/ring.go:67-70 | deleting the joiner from the new owner order gives the old one |
| HashRing.OneOwnerChanges | internal/hashring/ring.go:67-70 | one join or leave: only the joiner can enter, and then only the last owner can drop out |
| HashRing.JoinKeepsPrimary | internal/hashring/ring.go:67-70 | with two or more owners a join keeps the old primary among the first two |
| Gateway.MakeBatches | internal/gateway/server.go:213-233 | one batch per owner with a client, the others set aside, owners run out dropped |
| CacheNode.TouchAllKeeps | internal/cachenode/server.go:57-70 | looking blocks up changes their order and not which are held |
| CacheNode.Server.Contains | internal/cachenode/server.go:38-70 | rejected, with nothing looked up, iff the node has an epoch and the caller's is below it and not 0; else one bit per id for what was held before the call, every lookup a use, up to the first malformed id |
| CacheNode.Server.PutBlocks | internal/cachenode/server.go:92-117 | blocks are put in order until the first request whose epoch is not 0 and below the node's, or whose id or parent is not 32 bytes; stored and existing are counted exactly |
| CacheNode.StampedAllPut | internal/cachenode/server.go:92-117 | well-formed blocks stamped with an epoch that is never behind the node's are all put, in order, and the call succeeds |
| CacheNode.StampedRefused | internal/cachenode/server.go:92-117 | stamped with an epoch behind the node's, none is put and the call is refused |
| Gateway.Complete | internal/gateway/server.go:242-267 | an answer, even one with fewer bits than ids, marks exactly the blocks it has and sends the rest to the next round |
| Gateway.ProbeReplica | internal/gateway/server.go:205-271 | for any completion order, each index is found at its owner, retried, or out of owners; wrongEpoch iff an asked node rejected |
| Gateway.NothingLater | internal/gateway/server.go:177-181 | once found or out of owners, later rounds add nothing, so stopping early is sound |
| Gateway.FanOut | internal/gateway/server.go:166-181 | present iff one of the first rf owners is reachable and says yes; the holder is the first such |
| Gateway.MatchOnRing | internal/gateway/server.go:165-200 | depth is the longest all-present prefix and each ref names the first owner that has the block |
| Gateway.FoundIff | internal/gateway/server.go:177-186 | a block counts as found iff one of its first rf owners answers, in its round, that it has it |
| Gateway.LocatedMeans | internal/gateway/server.go:187-194 | the address told for a block is the ring's for the first of its owners that has it |
| Gateway.RejectedIff | internal/gateway/server.go:177-181 | the epoch counts as rejected iff some owner that is asked, because those before it did not have the block, rejects it |
| Gateway.Match | internal/gateway/server.go:135-163 | rejects ids not of 32 bytes; the whole chain is matched on the ring read first or, iff a node rejected that epoch and a newer ring is at hand, on the ring read for the retry; the answer is empty only without ring, members or chain |
| Gateway.ToleratesFailures | internal/gateway/server.go:165-200 | with at least rf members and fewer than rf failing, a fully replicated chain matches in full |
| Gateway.MatchTolerates | internal/gateway/server.go:135-163 | so Match answers the full depth for a chain replicated on the ring it ends up using, retried or not |
| Gateway.Route | internal/gateway/server.go:277-303 | each block goes once, in order, to each of its first rf owners; a missing block or an id not of 32 bytes fails the call; the writes carry the epoch of the ring read last, 0 without one |
| Gateway.ShareIff | internal/gateway/server.go:286-297 | a node is sent a block iff it is among the first rf owners by the ring read when the block came |
| Gateway.ShareInOrder | internal/gateway/server.go:286-297 | and the blocks it is sent come in the order they arrived |
| Gateway.PutThenMatch | internal/gateway/server.go:294-296 | what was routed and stored is matched in full while fewer than rf nodes fail |
| Prefetch.SourceIsSurvivor | internal/prefetch/prefetch.go:173-185 | a source is found iff some old owner is in the new ring at a non-empty address, and it is the address of the first such |
| Prefetch.TargetsAre | internal/prefetch/prefetch.go:186-191 | targets are exactly the new owners that were not owners |
| Prefetch.DueIff | internal/prefetch/prefetch.go:171-217 | a command is due iff it carries the block's id, parent and model and the deadline, from that source, to a new owner that was not one |
| Prefetch.AddrsAreLast | internal/prefetch/prefetch.go:142-145 | the address of a node is that of its last entry in the ring message |
| Prefetch.Prefetcher.constructor | internal/prefetch/prefetch.go:51-88 | defaults for replication, threshold, half-life, tracking limit and deadline; nothing tracked |
| Prefetch.Prefetcher.PlanBlock | internal/prefetch/prefetch.go:171-196 | the commands due for one block, one per target |
| Prefetch.Prefetcher.OnRing | internal/prefetch/prefetch.go:141-218 | for a newer ring exactly the commands due for the blocks whose cooled demand is at least the threshold, each once; for any other ring none; the ring is remembered |
| Fleet.ReceivedWithin | internal/cachenode/server.go:92-117 | a node with room for all it is sent ends up holding exactly what it held and what it was sent |
| Fleet.HandledWithin | internal/cachenode/warmer.go:88-134 | with room for all that is expected a handled command loses no block, and a present or executed one leaves its block held |
| Fleet.HoldsOn | internal/cachenode/warmer.go:88-134 | in every campaign with room, what a node holds it goes on holding |
| Fleet.PaysAlways | internal/cachenode/warmer.go:59-70 | a bucket with a token for every command its node will get never runs dry, whatever the order |
| Fleet.Arrives | internal/cachenode/warmer.go:88-134 | a command delivered in time, from a source that held the block at the start, leaves it held at the end |
| Fleet.WarmingRestores | internal/prefetch/prefetch.go:165-217 | any order, any other commands, any repeats: with room and tokens at the nodes, and the block held by the old owners that remain, every new owner ends up holding it |
| Prefetch.OneCopyPerChange | internal/prefetch/prefetch.go:186-196 | a single join or leave asks for at most one copy of each block |
| Warmers.TokensBounded | internal/cachenode/warmer.go:59-70 | over every run the tokens stay between 0 and the rate |
| Warmers.GrantedIffWaited | internal/cachenode/warmer.go:63-69 | a call is granted iff the rate is at least 1 and the time since the last call is at least (1 - tokens) / rate |
| Warmers.SpacedCallsGranted | internal/cachenode/warmer.go:59-70 | calls at least 1 / rate apart are all granted, whatever the bucket held |
| Warmers.SiteAfterMeans | internal/cachenode/warmer.go:88-134 | the list changes only for a held block, which is used, and for a wanted, paid and fetched one, which is put; the bucket fills up iff the block is wanted, and pays a token iff it has one |
| Warmers.GrantsConserved | internal/cachenode/warmer.go:62-69 | grants plus tokens left never exceed the start plus the income since |
| Warmers.WindowBound | internal/cachenode/warmer.go:45-70 | every stretch of calls within time T grants at most rate + rate * T |
| Warmers.GrantsIffRateAtLeastOne | internal/cachenode/warmer.go:63-67 | a fresh bucket ever grants iff the rate is at least 1 |
| Warmers.Warmer.constructor | internal/cachenode/warmer.go:45-57 | a full bucket; a rate of 0 or less becomes 200 |
| Warmers.Warmer.Allow | internal/cachenode/warmer.go:59-70 | tokens grow by rate times elapsed time up to the rate; granted iff that leaves at least 1, which is then taken |
| Warmers.Warmer.Handle | internal/cachenode/warmer.go:88-134 | executed iff addressed here with a 32-byte id, in time, not held, with a source, within budget and fetched; skipped iff held; dropped iff late or over budget; store and bucket become what that fate makes of them |
| Chain.Next | internal/chain/chain.go:27-36 | hashes the parent followed by four bytes for each token, highest first, in order |
| Chain.RootHashes | internal/chain/chain.go:17-24 | a root hashes the model name and then the block size modulo 2^32 as four bytes, highest first |
| Chain.StepHashes | internal/chain/chain.go:27-36 | a step hashes the parent and then four bytes per token, whose values times 2^24, 2^16, 2^8 and 1 add up to it |
| Chain.BlocksFlatten | internal/chain/chain.go:40-50 | the blocks in order are the tokens again |
| Chain.BlocksFull | internal/chain/chain.go:38-50 | no block is empty and all but the last are full |
| Chain.Chunk | internal/chain/chain.go:40-50 | the loop cuts exactly those blocks |
| Chain.Build | internal/chain/chain.go:53-62 | the first id hashes the root and the first block, every other the id before it and its own block |
| Chain.SharedPrefixSharesIds | internal/chain/chain.go:26-62 | prompts sharing their first k full blocks share their first k ids |
| Chain.EqualIds | internal/chain/chain.go:26-62 | equal ids at one position: same model, block size modulo 2^32 and blocks up to there, or two inputs with one hash |
| Chain.RootReadsAsStep | internal/chain/chain.go:15-36 | a root input is also a step input iff the model name has 32 or more bytes and a length divisible by 4 |
| Chain.IdsIdentify | internal/chain/chain.go:15-62 | for all other names equal ids at any two positions mean same position and history, or a collision |
| Chain.LongNameMeetsOtherChain | internal/chain/chain.go:15-62 | for such names, whatever the hash, the first id of one model's chain equals the second id of another model's |

## Left out

- gRPC transport, dialling, timeouts, contexts, event bus, Prometheus, flag parsing and load generation: plumbing; only "a message may be lost, late or repeated" is kept.
- Acceptor restart: acceptors keep their state, as the source says it does not provide durability.
- Rounds at or above 2^56 in the protocol runs: a run begins no round whose ballot would overflow.
- Command encoding: commands are compared as commands, so a value that does not decode is not modelled.
- The onJoin hook, heartbeats, suspicion and failure detection timing: wall-clock heuristics.
- Lease commands: agreed on but without effect, as in the source.
- Back-off and jitter between attempts of Submit: they only delay.
- Floating-point rounding: frecency, demand and tokens are exact reals, and decay is a constant between 0 and 1.
- The random number generator: an arbitrary sequence of numbers, fixed for each store.
- 32-bit page numbers and 64-bit byte counts in the stores: taken as large enough.
- Gateway.Match: the matched depth is not truncated to 32 bits, and clients are fixed within a round rather than looked up anew for each index.
- Prefetch.Prefetcher.OnRing: demand cooling is an arbitrary function of demand and age, and the confidence field is not carried.
- HandleAccess and the sweep of tracked blocks: tracked demand is a field that OnRing takes as it finds it.
- Warmers.Warmer.Handle: the store is the LRU one, and the fetch is a parameter.
- Fleet.WarmingRestores: the stores are LRU ones, nothing but warm commands reaches them during the campaign, and tokens refilled meanwhile are not counted on.
- CacheNode.Server.Contains: the store is the LRU one.
- CacheNode.Server.PutBlocks: the store is the LRU one.
- The node's GetBlocks and Touch: the same loop over a store call as Contains.
- Progress.SecondAttemptWins: assumes that a member answers an attempt's Prepare once, as a unary call does; the step system alone would let a repeated Prepare be refused.
