/**
 The unbounded channel and the single-waiter signal it sleeps on: many senders, one receiver, over the queue that
 `MpscFifo` refines; `ChannelFifo` puts the FIFO itself in the queue's place.  Parking is a contract: the receiver
 resumes when, and only when, a sender schedules it.
 */
module Channel {
  import opened Common
  import opened Runs
  import opened Q = MpscQueue

  /** fiber_signal_t.waiter; there is one receiver, so a fiber in it is the receiver. */
  datatype Signal = NoWaiter | Raised | Installed

  datatype Receiver =
    | Popping         // mpsc_fifo_trypop
    | ClearScratch
    | Installing      // CAS NO_WAITER -> this fiber
    | FallingAsleep   // installed; the manager has yet to set scratch after the switch
    | Parked
    | Resuming        // scheduled by a sender
    | Resetting       // store NO_WAITER

  datatype Sender =
    | Outside
    | Linking(i: nat)
    | Raising(i: nat) // about to exchange RAISED into the signal
    | Clearing        // took the receiver out of the signal; about to store NO_WAITER
    | Spinning        // until scratch says the receiver is off its stack
    | Waking

  datatype Mem = Mem(
    signal: Signal,
    scratch: bool,            // FIBER_SIGNAL_READY_TO_WAKE
    waker: Option<Tid>)       // auxiliary: the sender that took the receiver out of the signal

  const QUIET := Mem(NoWaiter, false, None)

  datatype State = State(queue: Queue, mem: Mem, receiver: Receiver, senders: map<Tid, Sender>)

  ghost predicate Init(s: State) {
    s == State(EMPTY, QUIET, Popping, map[])
  }

  // ---------------------------------------------------------------- transitions

  /** fiber_signal_wait */
  ghost predicate WaitStep(m: Mem, pc: Receiver, m': Mem, pc': Receiver) {
    match pc
    case Popping => false
    case ClearScratch => m' == m.(scratch := false) && pc' == Installing
    case Installing =>
      if m.signal == NoWaiter then m' == m.(signal := Installed) && pc' == FallingAsleep
      else m' == m && pc' == Resetting
    case FallingAsleep => m' == m.(scratch := true) && pc' == Parked
    case Parked => false
    case Resuming => m' == m.(scratch := false) && pc' == Resetting
    case Resetting => m' == m.(signal := NoWaiter) && pc' == Popping
  }

  /** fiber_signal_raise; its last step schedules the receiver. */
  ghost predicate RaiseStep(t: Tid, m: Mem, pc: Sender, r: Receiver, m': Mem, pc': Sender, r': Receiver) {
    match pc
    case Raising(_) =>
      && r' == r
      && if m.signal == Installed then m' == m.(signal := Raised, waker := Some(t)) && pc' == Clearing
         else m' == m.(signal := Raised) && pc' == Outside
    case Clearing =>
      m' == m.(signal := NoWaiter) && pc' == Spinning && r' == r
    case Spinning =>
      m' == m && r' == r && pc' == if m.scratch then Waking else Spinning
    case Waking =>
      m' == m.(waker := None) && pc' == Outside && r' == Resuming
    case _ => false
  }

  ghost predicate Receive(s: State, s': State) {
    && s' == State(s'.queue, s'.mem, s'.receiver, s.senders)
    && if s.receiver == Popping && FirstLinked(s.queue) then
         && s.queue.taken < |s.queue.messages| && Take(s.queue, s'.queue, s.queue.messages[s.queue.taken])
         && s'.mem == s.mem && s'.receiver == Popping
       else if s.receiver == Popping then s'.queue == s.queue && s'.mem == s.mem && s'.receiver == ClearScratch
       else s'.queue == s.queue && WaitStep(s.mem, s.receiver, s'.mem, s'.receiver)
  }

  ghost predicate Send(s: State, s': State, t: Tid) {
    && t in s.senders && t in s'.senders
    && s' == State(s'.queue, s'.mem, s'.receiver, s.senders[t := s'.senders[t]])
    && match s.senders[t]
       case Outside =>
         && |s'.queue.messages| > 0 && Exchange(s.queue, s'.queue, t, s'.queue.messages[|s'.queue.messages| - 1])
         && s'.mem == s.mem && s'.receiver == s.receiver && s'.senders[t] == Linking(|s.queue.messages|)
       case Linking(i) =>
         Link(s.queue, s'.queue, t, i) && s'.mem == s.mem && s'.receiver == s.receiver && s'.senders[t] == Raising(i)
       case _ =>
         s'.queue == s.queue && RaiseStep(t, s.mem, s.senders[t], s.receiver, s'.mem, s'.senders[t], s'.receiver)
  }

  ghost predicate Join(s: State, s': State, t: Tid) {
    t !in s.senders && s' == s.(senders := s.senders[t := Outside])
  }

  ghost predicate Next(s: State, s': State) {
    Receive(s, s') || exists t :: Send(s, s', t) || Join(s, s', t)
  }

  // ---------------------------------------------------------------- invariant

  ghost predicate Asleep(r: Receiver) {
    r.FallingAsleep? || r.Parked?
  }

  ghost predicate IsWaker(pc: Sender) {
    pc.Clearing? || pc.Spinning? || pc.Waking?
  }

  /** The receiver, the signal and the waker tell one story. */
  ghost predicate MemInv(m: Mem, r: Receiver) {
    && (Asleep(r) <==> m.signal == Installed || m.waker.Some?)
    && (m.signal == Installed ==> m.waker == None)
    && (m.scratch <==> r.Parked? || r.Resuming?)
  }

  ghost predicate SenderInv(t: Tid, q: Queue, m: Mem, pc: Sender, r: Receiver) {
    && (pc.Linking? || pc.Raising? ==>
          pc.i < |q.linked| && pc.i < |q.pushers| && q.linked[pc.i] == pc.Raising? && q.pushers[pc.i] == t)
    && (IsWaker(pc) ==> m.waker == Some(t))
    && (pc.Waking? ==> r.Parked?)
  }

  /** The sender of the first message has linked it and not raised the signal yet. */
  ghost predicate WakeComing(q: Queue, senders: map<Tid, Sender>) {
    && q.taken < |q.pushers|
    && var t := q.pushers[q.taken]; t in senders && senders[t] == Raising(q.taken)
  }

  ghost predicate WakeInv(q: Queue, m: Mem, r: Receiver, senders: map<Tid, Sender>) {
    FirstLinked(q) ==>
      && (m.signal == Installed ==> WakeComing(q, senders))
      && (r.ClearScratch? || r.Installing? ==> m.signal == Raised || WakeComing(q, senders))
  }

  ghost predicate WakerInv(m: Mem, senders: map<Tid, Sender>) {
    m.waker.Some? ==> m.waker.value in senders && IsWaker(senders[m.waker.value])
  }

  ghost predicate Inv(s: State) {
    && Valid(s.queue) && MemInv(s.mem, s.receiver)
    && (forall t :: t in s.senders ==> SenderInv(t, s.queue, s.mem, s.senders[t], s.receiver))
    && WakeInv(s.queue, s.mem, s.receiver, s.senders) && WakerInv(s.mem, s.senders)
  }

  // ---------------------------------------------------------------- steps keep the invariant

  lemma ReceiverKeeps(s: State, s': State)
    requires Inv(s) && Receive(s, s')
    ensures Inv(s')
  {
    forall t | t in s.senders ensures SenderInv(t, s'.queue, s'.mem, s.senders[t], s'.receiver) {
      assert SenderInv(t, s.queue, s.mem, s.senders[t], s.receiver);
    }
  }

  lemma SenderOwn(s: State, s': State, t: Tid)
    requires Inv(s) && Send(s, s', t)
    ensures Valid(s'.queue) && MemInv(s'.mem, s'.receiver)
    ensures SenderInv(t, s'.queue, s'.mem, s'.senders[t], s'.receiver)
    ensures forall u :: u in s.senders && u != t ==> SenderInv(u, s'.queue, s'.mem, s.senders[u], s'.receiver)
  {
    assert SenderInv(t, s.queue, s.mem, s.senders[t], s.receiver);
    forall u | u in s.senders && u != t ensures SenderInv(u, s'.queue, s'.mem, s.senders[u], s'.receiver) {
      assert SenderInv(u, s.queue, s.mem, s.senders[u], s.receiver);
    }
  }

  lemma SenderWakes(s: State, s': State, t: Tid)
    requires Inv(s) && Send(s, s', t)
    ensures WakeInv(s'.queue, s'.mem, s'.receiver, s'.senders) && WakerInv(s'.mem, s'.senders)
  {
    assert SenderInv(t, s.queue, s.mem, s.senders[t], s.receiver);
  }

  lemma NextKeeps(s: State, s': State)
    requires Inv(s) && Next(s, s')
    ensures Inv(s')
  {
    if Receive(s, s') {
      ReceiverKeeps(s, s');
    } else {
      var t :| Send(s, s', t) || Join(s, s', t);
      if Send(s, s', t) {
        SenderOwn(s, s', t);
        SenderWakes(s, s', t);
      }
    }
  }

  lemma InitInv(s: State)
    requires Init(s)
    ensures Inv(s)
  {
  }

  lemma RunInv(run: seq<State>, i: nat)
    requires IsRun(Init, Next, run) && i < |run|
    ensures Inv(run[i])
  {
    forall s | Init(s) ensures Inv(s) { InitInv(s); }
    forall s, s' | Inv(s) && Next(s, s') ensures Inv(s') { NextKeeps(s, s'); }
    Invariance(Init, Next, Inv, run, i);
  }

  // ---------------------------------------------------------------- theorems

  /** No lost wake-up: while the receiver waits in the signal and a message could be popped, that message's sender
      is still to raise the signal. */
  lemma NoLostWakeup(run: seq<State>, i: nat)
    requires IsRun(Init, Next, run) && i < |run|
    requires run[i].mem.signal == Installed && FirstLinked(run[i].queue)
    ensures var q := run[i].queue;
      && q.taken < |q.pushers| && q.pushers[q.taken] in run[i].senders
      && run[i].senders[q.pushers[q.taken]] == Raising(q.taken)
  {
    RunInv(run, i);
  }

  /** A sleeping receiver is in the signal, or exactly one sender has taken it out and is on its way to wake it;
      and a receiver is only ever scheduled while it is parked. */
  lemma SleeperHasOneWaker(run: seq<State>, i: nat, t: Tid, u: Tid)
    requires IsRun(Init, Next, run) && i < |run| && t in run[i].senders && u in run[i].senders
    ensures var s := run[i];
      && (Asleep(s.receiver) ==> s.mem.signal == Installed || exists w :: w in s.senders && IsWaker(s.senders[w]))
      && (IsWaker(s.senders[t]) ==> Asleep(s.receiver) && s.mem.signal != Installed)
      && (IsWaker(s.senders[t]) && IsWaker(s.senders[u]) ==> t == u)
      && (s.senders[t].Waking? ==> s.receiver == Parked)
  {
    RunInv(run, i);
    var s := run[i];
    assert SenderInv(t, s.queue, s.mem, s.senders[t], s.receiver);
    assert SenderInv(u, s.queue, s.mem, s.senders[u], s.receiver);
  }

  /** Only a parked receiver waits; every other receiver, and every sender, always has a step to take. */
  lemma NeverStuck(run: seq<State>, i: nat, t: Tid)
    requires IsRun(Init, Next, run) && i < |run|
    ensures run[i].receiver == Parked || exists s' :: Receive(run[i], s')
    ensures t in run[i].senders ==> exists s' :: Send(run[i], s', t)
  {
    RunInv(run, i);
    var s := run[i];
    if s.receiver != Parked {
      var s' := ReceiverGoesOn(s);
    }
    if t in s.senders {
      var s' := SenderGoesOn(s, t);
    }
  }

  /** Asleep, or about to take a message. */
  ghost predicate ReceiverRests(s: State) {
    s.receiver == Parked || (s.receiver == Popping && FirstLinked(s.queue))
  }

  /** How many of its own steps the receiver is from resting at most; a raise it has not seen sends it round once. */
  ghost function ReceiverDistance(s: State): nat {
    match s.receiver
    case Parked => 0
    case FallingAsleep => 1
    case Installing => if s.mem.signal == NoWaiter then 2 else 6
    case ClearScratch => if s.mem.signal == NoWaiter then 3 else 7
    case Popping => if s.mem.signal == NoWaiter then 4 else 8
    case Resetting => 5
    case Resuming => 6
  }

  /** Outside, or waiting for the receiver to get off its stack. */
  ghost predicate SenderRests(s: State, pc: Sender) {
    pc == Outside || (pc == Spinning && !s.mem.scratch)
  }

  ghost function SenderDistance(pc: Sender): nat {
    match pc
    case Outside => 0
    case Linking(_) => 5
    case Raising(_) => 4
    case Clearing => 3
    case Spinning => 2
    case Waking => 1
  }

  lemma ReceiverGoesOn(s: State) returns (s': State)
    requires Inv(s) && s.receiver != Parked
    ensures Receive(s, s')
    ensures ReceiverRests(s) || ReceiverDistance(s') < ReceiverDistance(s)
  {
    var m := s.mem;
    match s.receiver
    case Popping =>
      s' := if FirstLinked(s.queue) then s.(queue := s.queue.(taken := s.queue.taken + 1))
            else s.(receiver := ClearScratch);
    case ClearScratch => s' := s.(mem := m.(scratch := false), receiver := Installing);
    case Installing =>
      s' := if m.signal == NoWaiter then s.(mem := m.(signal := Installed), receiver := FallingAsleep)
            else s.(receiver := Resetting);
    case FallingAsleep => s' := s.(mem := m.(scratch := true), receiver := Parked);
    case Resuming => s' := s.(mem := m.(scratch := false), receiver := Resetting);
    case Resetting => s' := s.(mem := m.(signal := NoWaiter), receiver := Popping);
  }

  lemma SenderGoesOn(s: State, t: Tid) returns (s': State)
    requires Inv(s) && t in s.senders
    ensures Send(s, s', t)
    ensures SenderRests(s, s.senders[t]) || SenderDistance(s'.senders[t]) < SenderDistance(s.senders[t])
  {
    var q, m, pc := s.queue, s.mem, s.senders[t];
    assert SenderInv(t, q, m, pc, s.receiver);
    match pc
    case Outside =>
      var q' := Queue(q.messages + [0], q.pushers + [t], q.linked + [false], q.taken);
      s' := s.(queue := q', senders := s.senders[t := Linking(|q.messages|)]);
    case Linking(i) => s' := s.(queue := q.(linked := q.linked[i := true]), senders := s.senders[t := Raising(i)]);
    case Raising(_) =>
      s' := if m.signal == Installed
            then s.(mem := m.(signal := Raised, waker := Some(t)), senders := s.senders[t := Clearing])
            else s.(mem := m.(signal := Raised), senders := s.senders[t := Outside]);
    case Clearing => s' := s.(mem := m.(signal := NoWaiter), senders := s.senders[t := Spinning]);
    case Spinning => s' := s.(senders := s.senders[t := if m.scratch then Waking else Spinning]);
    case Waking => s' := s.(mem := m.(waker := None), receiver := Resuming, senders := s.senders[t := Outside]);
  }

  // ---------------------------------------------------------------- what the operations answer

  /** A raise takes on the receiver's wake-up exactly when the receiver sleeps and nobody else is waking it; and a waker
      goes on to schedule it exactly when it is off its stack. */
  lemma RaiseWakesExactly(run: seq<State>, i: nat, t: Tid)
    requires IsRun(Init, Next, run) && i + 1 < |run| && Send(run[i], run[i + 1], t)
    ensures var s, pc, pc' := run[i], run[i].senders[t], run[i + 1].senders[t];
      && (pc.Raising? ==>
            (pc' == Clearing <==> Asleep(s.receiver) && forall w :: w in s.senders ==> !IsWaker(s.senders[w])))
      && (pc.Raising? ==> pc' == Clearing || pc' == Outside)
      && (pc.Spinning? ==> pc' == if s.receiver == Parked then Waking else Spinning)
  {
    RunInv(run, i);
    var s := run[i];
    assert SenderInv(t, s.queue, s.mem, s.senders[t], s.receiver);
    forall w | w in s.senders && IsWaker(s.senders[w]) ensures s.mem.waker == Some(w) {
      assert SenderInv(w, s.queue, s.mem, s.senders[w], s.receiver);
    }
  }

  /** A sender raises the signal in the step from i. */
  ghost predicate RaisedAt(run: seq<State>, i: nat) {
    i + 1 < |run| && exists t :: Send(run[i], run[i + 1], t) && run[i].senders[t].Raising?
  }

  /** The receiver, or the sender that took it out of the signal, stores NO_WAITER in the step from i. */
  ghost predicate ResetAt(run: seq<State>, i: nat) {
    && i + 1 < |run|
    && (|| (Receive(run[i], run[i + 1]) && run[i].receiver == Resetting)
        || exists t :: Send(run[i], run[i + 1], t) && run[i].senders[t] == Clearing)
  }

  /** Some raise has not been reset since. */
  ghost predicate RaisePending(run: seq<State>, i: nat) {
    exists j :: 0 <= j < i && RaisedAt(run, j) && NotReset(run, j + 1, i)
  }

  ghost predicate NotReset(run: seq<State>, j: nat, i: nat) {
    forall k :: j <= k < i ==> !ResetAt(run, k)
  }

  lemma SignalStep(run: seq<State>, i: nat)
    requires IsRun(Init, Next, run) && i + 1 < |run|
    ensures run[i + 1].mem.signal == Raised <==> RaisedAt(run, i) || (run[i].mem.signal == Raised && !ResetAt(run, i))
  {
    assert StepAt(Next, run, i + 1);
    RunInv(run, i);
    var s, s' := run[i], run[i + 1];
    forall t | Send(s, s', t) ensures SenderInv(t, s.queue, s.mem, s.senders[t], s.receiver) {
    }
  }

  /** The signal shows RAISED exactly while some raise has not been reset. */
  lemma {:induction false} SignalShowsRaise(run: seq<State>, i: nat)
    requires IsRun(Init, Next, run) && i < |run|
    ensures run[i].mem.signal == Raised <==> RaisePending(run, i)
  {
    if i > 0 {
      SignalShowsRaise(run, i - 1);
      SignalStep(run, i - 1);
      if RaisedAt(run, i - 1) {
        assert NotReset(run, i, i);
      }
      if RaisePending(run, i - 1) && !ResetAt(run, i - 1) {
        var j :| 0 <= j < i - 1 && RaisedAt(run, j) && NotReset(run, j + 1, i - 1);
        assert NotReset(run, j + 1, i);
      }
      if RaisePending(run, i) {
        var j :| 0 <= j < i && RaisedAt(run, j) && NotReset(run, j + 1, i);
        if j < i - 1 {
          assert NotReset(run, j + 1, i - 1);
        }
      }
    }
  }

  /** A receiver takes a message exactly when the first one is linked, and sleeps exactly when no raise is pending. */
  lemma SleepsExactly(run: seq<State>, i: nat)
    requires IsRun(Init, Next, run) && i + 1 < |run| && Receive(run[i], run[i + 1])
    ensures var s, s' := run[i], run[i + 1];
      && (s.receiver == Installing ==> s'.receiver == if RaisePending(run, i) then Resetting else FallingAsleep)
      && (s.receiver == Popping ==>
            if FirstLinked(s.queue) then s'.receiver == Popping && s'.queue.taken == s.queue.taken + 1
            else s'.receiver == ClearScratch && s'.queue == s.queue)
  {
    RunInv(run, i);
    SignalShowsRaise(run, i);
  }

  // ---------------------------------------------------------------- progress

  ghost predicate ReceiverCanRest(s: State, k: nat)
    decreases k
  {
    ReceiverRests(s) || (k > 0 && exists s' :: Receive(s, s') && ReceiverCanRest(s', k - 1))
  }

  ghost predicate SenderCanRest(s: State, t: Tid, k: nat)
    decreases k
  {
    && t in s.senders
    && (SenderRests(s, s.senders[t]) || (k > 0 && exists s' :: Send(s, s', t) && SenderCanRest(s', t, k - 1)))
  }

  lemma {:induction false} ReceiverComesToRest(s: State, k: nat)
    requires Inv(s) && ReceiverDistance(s) <= k
    ensures ReceiverCanRest(s, k)
    decreases k
  {
    if !ReceiverRests(s) {
      var s' := ReceiverGoesOn(s);
      ReceiverKeeps(s, s');
      ReceiverComesToRest(s', k - 1);
    }
  }

  lemma {:induction false} SenderComesToRest(s: State, t: Tid, k: nat)
    requires Inv(s) && t in s.senders && SenderDistance(s.senders[t]) <= k
    ensures SenderCanRest(s, t, k)
    decreases k
  {
    if !SenderRests(s, s.senders[t]) {
      var s' := SenderGoesOn(s, t);
      NextKeeps(s, s');
      SenderComesToRest(s', t, k - 1);
    }
  }

  /** From every reachable state the receiver comes, by its own steps alone, to take a message or to sleep; and every
      sender finishes, or waits for a receiver that is still on its stack. */
  lemma CompletesAlone(run: seq<State>, i: nat, t: Tid)
    requires IsRun(Init, Next, run) && i < |run|
    ensures ReceiverCanRest(run[i], 8)
    ensures t in run[i].senders ==> SenderCanRest(run[i], t, 5)
  {
    RunInv(run, i);
    ReceiverComesToRest(run[i], 8);
    if t in run[i].senders {
      SenderComesToRest(run[i], t, 5);
    }
  }
}
