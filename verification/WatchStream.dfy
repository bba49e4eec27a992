/**
 * The watch stream of internal/directory: Apply changes the state under its lock and signals the
 * subscribers after releasing it, while each WatchRing loop subscribes, reads the ring, sends it and
 * waits on a channel that buffers one signal. All interleavings of these parts are runs.
 */
module WatchStream {
  import opened Directory

  /** Where a WatchRing call stands. Reading the ring and sending it are separate moments. */
  datatype Loop = Unborn | ToRead | HasRead(ring: View) | Waiting | Stopped

  datatype Watcher = Watcher(loop: Loop, pending: bool, lastSent: nat, sent: seq<View>) {
    predicate Subscribed() {
      !loop.Unborn? && !loop.Stopped?
    }
  }

  /** `toSignal` is the snapshot of subscribers an Apply in flight has yet to signal. */
  datatype State = State(log: seq<Command>, view: View, applying: bool, toSignal: set<nat>, watchers: seq<Watcher>)

  datatype Step =
    | Mutate(cmd: Command)
    | SignalOne(w: nat)
    | FinishApply
    | Subscribe(w: nat)
    | ReadRing(w: nat)
    | Send(w: nat)
    | Wake(w: nat)
    | Stop(w: nat)

  predicate Init(s: State) {
    && s.log == [] && s.view == EMPTY_VIEW && !s.applying && s.toSignal == {}
    && forall w :: 0 <= w < |s.watchers| ==> s.watchers[w] == Watcher(Unborn, false, 0, [])
  }

  predicate Enabled(s: State, step: Step) {
    match step
    case Mutate(_) => !s.applying
    case SignalOne(w) => s.applying && w in s.toSignal && w < |s.watchers|
    case FinishApply => s.applying && s.toSignal == {}
    case Subscribe(w) => w < |s.watchers| && s.watchers[w].loop.Unborn?
    case ReadRing(w) => w < |s.watchers| && s.watchers[w].loop.ToRead?
    case Send(w) => w < |s.watchers| && s.watchers[w].loop.HasRead?
    case Wake(w) => w < |s.watchers| && s.watchers[w].loop.Waiting? && s.watchers[w].pending
    case Stop(w) => w < |s.watchers| && s.watchers[w].Subscribed()
  }

  function Subscribers(s: State): set<nat> {
    set w: nat | w < |s.watchers| && s.watchers[w].Subscribed()
  }

  /** The send closure: an epoch already sent is skipped, except that epoch 0 is sent again. */
  function Sent(w: Watcher): Watcher
    requires w.loop.HasRead?
  {
    if w.loop.ring.epoch == w.lastSent && w.lastSent != 0 then w.(loop := Waiting)
    else w.(loop := Waiting, lastSent := w.loop.ring.epoch, sent := w.sent + [w.loop.ring])
  }

  function Do(s: State, step: Step): State
    requires Enabled(s, step)
  {
    match step
    case Mutate(cmd) =>
      var view := Applied(s.view, cmd);
      s.(log := s.log + [cmd], view := view, applying := true,
      toSignal := if Changes(s.view, cmd) then Subscribers(s) else {})
    case SignalOne(w) =>
      s.(toSignal := s.toSignal - {w}, watchers := s.watchers[w := s.watchers[w].(pending := true)])
    case FinishApply => s.(applying := false)
    case Subscribe(w) => s.(watchers := s.watchers[w := s.watchers[w].(loop := ToRead)])
    case ReadRing(w) => s.(watchers := s.watchers[w := s.watchers[w].(loop := HasRead(s.view))])
    case Send(w) => s.(watchers := s.watchers[w := Sent(s.watchers[w])])
    case Wake(w) => s.(watchers := s.watchers[w := s.watchers[w].(loop := ToRead, pending := false)])
    case Stop(w) => s.(watchers := s.watchers[w := s.watchers[w].(loop := Stopped)])
  }

  ghost predicate Next(s: State, s': State) {
    exists step :: Enabled(s, step) && s' == Do(s, step)
  }

  ghost predicate Run(states: seq<State>) {
    && |states| > 0
    && Init(states[0])
    && forall i :: 0 <= i < |states| - 1 ==> Next(states[i], states[i + 1])
  }

  // ----- the invariant -----

  /** What a loop knows: the epoch it has read or sent last. */
  function Known(w: Watcher): nat {
    if w.loop.HasRead? then w.loop.ring.epoch else w.lastSent
  }

  ghost predicate Increasing(sent: seq<View>) {
    forall i, j :: 0 <= i < j < |sent| ==> sent[i].epoch < sent[j].epoch
  }

  ghost predicate SentOk(log: seq<Command>, w: Watcher) {
    && Increasing(w.sent)
    && (forall i :: 0 <= i < |w.sent| ==> FromLog(log, w.sent[i]))
    && w.lastSent == (if w.sent == [] then 0 else w.sent[|w.sent| - 1].epoch)
    && (w.loop.HasRead? ==> FromLog(log, w.loop.ring) && w.lastSent <= w.loop.ring.epoch)
  }

  /** No signal is spurious: after its first send a loop only reads once something has changed. */
  ghost predicate WakeOk(s: State, i: nat)
    requires i < |s.watchers|
  {
    var w := s.watchers[i];
    && (w.pending ==> s.view.epoch > 0)
    && (w.loop.Unborn? ==> w.sent == [])
    && (w.loop.Waiting? ==> w.sent != [])
    && (w.sent != [] && w.loop.ToRead? ==> s.view.epoch > 0)
    && (w.sent != [] && w.loop.HasRead? ==> w.loop.ring.epoch > 0)
  }

  /** No wake-up is lost: a loop behind the state has a signal waiting or on its way. */
  ghost predicate NotLost(s: State, i: nat)
    requires i < |s.watchers|
  {
    var w := s.watchers[i];
    (w.loop.Waiting? || w.loop.HasRead?) && Known(w) != s.view.epoch ==> w.pending || i in s.toSignal
  }

  ghost predicate Inv(s: State) {
    && s.view == Replay(s.log)
    && (s.toSignal != {} ==> s.applying && s.view.epoch > 0)
    && (forall i :: 0 <= i < |s.watchers| ==> SentOk(s.log, s.watchers[i]) && WakeOk(s, i) && NotLost(s, i))
  }

  lemma FromLogGrows(log: seq<Command>, cmd: Command, ring: View)
    requires FromLog(log, ring)
    ensures FromLog(log + [cmd], ring)
  {
    var k: nat :| k <= |log| && ring == Replay(log[..k]);
    assert (log + [cmd])[..k] == log[..k];
  }

  lemma FromLogBounded(log: seq<Command>, ring: View)
    requires FromLog(log, ring)
    ensures ring.epoch <= Replay(log).epoch
    ensures ring.epoch == Replay(log).epoch ==> ring == Replay(log)
  {
    var k: nat :| k <= |log| && ring == Replay(log[..k]);
    ReplayMonotone(log[..k], log);
  }

  lemma MutateSentOk(s: State, cmd: Command, i: nat)
    requires Inv(s) && i < |s.watchers|
    ensures SentOk(s.log + [cmd], s.watchers[i])
  {
    var w := s.watchers[i];
    forall k | 0 <= k < |w.sent|
      ensures FromLog(s.log + [cmd], w.sent[k])
    {
      FromLogGrows(s.log, cmd, w.sent[k]);
    }
    if w.loop.HasRead? {
      FromLogGrows(s.log, cmd, w.loop.ring);
    }
  }

  lemma MutateInv(s: State, cmd: Command)
    requires Inv(s) && !s.applying
    ensures Inv(Do(s, Mutate(cmd)))
  {
    var s' := Do(s, Mutate(cmd));
    assert s'.log[..|s.log|] == s.log;
    forall i | 0 <= i < |s.watchers|
      ensures SentOk(s'.log, s'.watchers[i]) && WakeOk(s', i) && NotLost(s', i)
    {
      MutateSentOk(s, cmd, i);
      assert SentOk(s.log, s.watchers[i]) && WakeOk(s, i) && NotLost(s, i);
    }
  }

  lemma ReadInv(s: State, i: nat)
    requires Inv(s) && Enabled(s, ReadRing(i))
    ensures Inv(Do(s, ReadRing(i)))
  {
    var w := s.watchers[i];
    assert SentOk(s.log, w);
    assert s.log[..|s.log|] == s.log;
    assert FromLog(s.log, s.view);
    if w.sent != [] {
      FromLogBounded(s.log, w.sent[|w.sent| - 1]);
    }
    var s' := Do(s, ReadRing(i));
    forall j | 0 <= j < |s.watchers|
      ensures SentOk(s'.log, s'.watchers[j]) && WakeOk(s', j) && NotLost(s', j)
    {
      assert SentOk(s.log, s.watchers[j]) && WakeOk(s, j) && NotLost(s, j);
    }
  }

  /** Sending keeps the epochs increasing: an equal epoch is skipped, and epoch 0 can only come first. */
  lemma SentStaysOk(log: seq<Command>, w: Watcher)
    requires w.loop.HasRead? && SentOk(log, w) && (w.sent != [] ==> w.loop.ring.epoch > 0)
    ensures SentOk(log, Sent(w)) && Sent(w).lastSent == w.loop.ring.epoch && Sent(w).sent != []
  {
    var w' := Sent(w);
    if w'.sent != w.sent {
      forall i, j | 0 <= i < j < |w'.sent|
        ensures w'.sent[i].epoch < w'.sent[j].epoch
      {
        if j == |w.sent| && i < |w.sent| - 1 {
          assert w.sent[i].epoch < w.sent[|w.sent| - 1].epoch;
        }
      }
    }
  }

  lemma SendInv(s: State, i: nat)
    requires Inv(s) && Enabled(s, Send(i))
    ensures Inv(Do(s, Send(i)))
  {
    var s' := Do(s, Send(i));
    assert SentOk(s.log, s.watchers[i]) && WakeOk(s, i) && NotLost(s, i);
    SentStaysOk(s.log, s.watchers[i]);
    forall j | 0 <= j < |s.watchers|
      ensures SentOk(s'.log, s'.watchers[j]) && WakeOk(s', j) && NotLost(s', j)
    {
      assert SentOk(s.log, s.watchers[j]) && WakeOk(s, j) && NotLost(s, j);
    }
  }

  predicate Quiet(step: Step) {
    !step.Mutate? && !step.ReadRing? && !step.Send?
  }

  lemma QuietInv(s: State, step: Step)
    requires Inv(s) && Enabled(s, step) && Quiet(step)
    ensures Inv(Do(s, step))
  {
    var s' := Do(s, step);
    assert s'.view == s.view && s'.log == s.log && |s'.watchers| == |s.watchers|;
    forall j | 0 <= j < |s.watchers|
      ensures SentOk(s'.log, s'.watchers[j]) && WakeOk(s', j) && NotLost(s', j)
    {
      QuietSent(s, step, j);
      assert SentOk(s.log, s.watchers[j]);
      QuietWake(s, step, j);
    }
  }

  lemma QuietSent(s: State, step: Step, j: nat)
    requires Enabled(s, step) && Quiet(step) && j < |s.watchers|
    ensures var w, w' := s.watchers[j], Do(s, step).watchers[j];
      w'.sent == w.sent && w'.lastSent == w.lastSent && (w'.loop.HasRead? ==> w'.loop == w.loop)
  {
  }

  lemma QuietWake(s: State, step: Step, j: nat)
    requires Enabled(s, step) && Quiet(step) && j < |s.watchers|
    requires WakeOk(s, j) && NotLost(s, j) && (s.toSignal != {} ==> s.view.epoch > 0)
    ensures WakeOk(Do(s, step), j) && NotLost(Do(s, step), j)
  {
  }

  lemma NextKeepsInv(s: State, s': State)
    requires Inv(s) && Next(s, s')
    ensures Inv(s')
  {
    var step :| Enabled(s, step) && s' == Do(s, step);
    match step {
      case Mutate(cmd) => MutateInv(s, cmd);
      case ReadRing(w) => ReadInv(s, w);
      case Send(w) => SendInv(s, w);
      case _ => QuietInv(s, step);
    }
  }

  lemma {:induction false} InvInRun(states: seq<State>, i: nat)
    requires Run(states) && i < |states|
    ensures Inv(states[i])
  {
    if i == 0 {
    } else {
      InvInRun(states, i - 1);
      assert Next(states[i - 1], states[i - 1 + 1]);
      NextKeepsInv(states[i - 1], states[i]);
    }
  }

  /** In every run each watcher is sent strictly increasing epochs, each ring a state the directory went through. */
  lemma SentEpochsIncrease(states: seq<State>, i: nat, w: nat)
    requires Run(states) && i < |states| && w < |states[i].watchers|
    ensures Increasing(states[i].watchers[w].sent)
    ensures forall k :: 0 <= k < |states[i].watchers[w].sent| ==> FromLog(states[i].log, states[i].watchers[w].sent[k])
  {
    InvInRun(states, i);
    assert SentOk(states[i].log, states[i].watchers[w]);
  }

  /** No lost wake-up: with no Apply in flight, a loop that waits without a signal has sent the current ring. */
  lemma WaitingMeansCurrent(states: seq<State>, i: nat, w: nat)
    requires Run(states) && i < |states| && w < |states[i].watchers|
    requires !states[i].applying && states[i].watchers[w].loop.Waiting? && !states[i].watchers[w].pending
    ensures var sent := states[i].watchers[w].sent; sent != [] && sent[|sent| - 1] == states[i].view
  {
    InvInRun(states, i);
    var s := states[i];
    var sent := s.watchers[w].sent;
    assert SentOk(s.log, s.watchers[w]) && WakeOk(s, w) && NotLost(s, w);
    FromLogBounded(s.log, sent[|sent| - 1]);
  }

  // ----- a loop left alone comes to rest -----

  /** What a subscribed loop does next, if it can do anything without a signal. */
  ghost function OwnStep(w: nat, watcher: Watcher): Step {
    if watcher.loop.ToRead? then ReadRing(w) else if watcher.loop.HasRead? then Send(w) else Wake(w)
  }

  ghost predicate Resting(w: Watcher) {
    w.loop.Waiting? && !w.pending
  }

  /** How many steps of its own a loop still has before it rests: a turn is a wake-up, a read and a send. */
  ghost function StepsLeft(w: Watcher): nat {
    (if w.loop.ToRead? then 2 else if w.loop.HasRead? then 1 else 0) + if w.pending then 3 else 0
  }

  lemma OwnStepCounts(s: State, w: nat)
    requires w < |s.watchers| && s.watchers[w].Subscribed() && !Resting(s.watchers[w])
    ensures var step := OwnStep(w, s.watchers[w]);
      && Enabled(s, step)
      && var s' := Do(s, step);
      && s' == s.(watchers := s.watchers[w := s'.watchers[w]]) && s'.watchers[w].Subscribed()
      && StepsLeft(s'.watchers[w]) == StepsLeft(s.watchers[w]) - 1
  {
  }

  lemma RunNext(states: seq<State>, s': State)
    requires Run(states) && Next(states[|states| - 1], s')
    ensures Run(states + [s'])
  {
    var more := states + [s'];
    forall i | 0 <= i < |more| - 1
      ensures Next(more[i], more[i + 1])
    {
    }
  }

  /**
   * After any run a subscribed loop that alone goes on takes at most five more steps, and then it waits without a
   * signal; if no Apply was in flight, the last ring it has sent is the current one.
   */
  lemma {:induction false} LoopComesToRest(states: seq<State>, w: nat) returns (run: seq<State>)
    requires Run(states)
    requires var s := states[|states| - 1]; w < |s.watchers| && s.watchers[w].Subscribed()
    ensures Run(run) && states <= run
    ensures var s, t := states[|states| - 1], run[|run| - 1];
      && |run| - |states| == StepsLeft(s.watchers[w]) <= 5
      && w < |t.watchers| && t == s.(watchers := s.watchers[w := t.watchers[w]]) && Resting(t.watchers[w])
      && (!s.applying ==> var sent := t.watchers[w].sent; sent != [] && sent[|sent| - 1] == s.view)
    decreases StepsLeft(states[|states| - 1].watchers[w])
  {
    var s := states[|states| - 1];
    if Resting(s.watchers[w]) {
      run := states;
      assert s.watchers[w := s.watchers[w]] == s.watchers;
      if !s.applying {
        WaitingMeansCurrent(states, |states| - 1, w);
      }
    } else {
      OwnStepCounts(s, w);
      var s' := Do(s, OwnStep(w, s.watchers[w]));
      assert Next(s, s');
      RunNext(states, s');
      run := LoopComesToRest(states + [s'], w);
      var t := run[|run| - 1];
      assert s'.watchers[w := t.watchers[w]] == s.watchers[w := t.watchers[w]];
    }
  }
}
