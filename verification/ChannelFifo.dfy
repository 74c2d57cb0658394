/**
 The channel over the actual FIFO.  A sender's push and the receiver's pop take the FIFO's own steps, interleaved
 with the signal's; seen through the queue that the FIFO refines, every step is a step of `Channel` or invisible, so
 what is proved there holds here.
 */
module ChannelFifo {
  import opened Common
  import opened Runs
  import Q = MpscQueue
  import F = MpscFifo
  import C = Channel

  /** A sender that is pushing is `Outside` as far as the signal goes. */
  datatype State = State(fifo: F.State, mem: C.Mem, receiver: C.Receiver, senders: map<Tid, C.Sender>)

  ghost predicate Init(s: State) {
    F.Init(s.fifo) && s.mem == C.QUIET && s.receiver == C.Popping && s.senders == map[]
  }

  // ---------------------------------------------------------------- transitions

  /** A step of mpsc_fifo_trypop; a pop that finds nothing makes the receiver wait on the signal. */
  ghost predicate PopStep(s: State, s': State) {
    var f, f' := s.fifo, s'.fifo;
    && s.receiver == C.Popping && !f'.consumer.PeekNext?
    && f' == F.State(f'.mem, f'.consumer, f.producers) && F.ConsumerStep(f.mem, f.consumer, f'.mem, f'.consumer)
    && var found := !(f.consumer.PopNext? && f'.consumer == F.Resting);
       s' == s.(fifo := f', receiver := if found then C.Popping else C.ClearScratch)
  }

  ghost predicate WaitStep(s: State, s': State) {
    s' == s.(mem := s'.mem, receiver := s'.receiver) && C.WaitStep(s.mem, s.receiver, s'.mem, s'.receiver)
  }

  /** A step of mpsc_fifo_push; once its message is linked the sender raises the signal. */
  ghost predicate PushStep(s: State, s': State, t: Tid) {
    && t in s.senders && s.senders[t] == C.Outside && F.Produce(s.fifo, s'.fifo, t)
    && var pc := s.fifo.producers[t];
       if pc.PushLink? then pc.at > 0 && s' == s.(fifo := s'.fifo, senders := s.senders[t := C.Raising(pc.at - 1)])
       else s' == s.(fifo := s'.fifo)
  }

  ghost predicate RaiseStep(s: State, s': State, t: Tid) {
    && t in s.senders && t in s'.senders && s' == State(s.fifo, s'.mem, s'.receiver, s.senders[t := s'.senders[t]])
    && C.RaiseStep(t, s.mem, s.senders[t], s.receiver, s'.mem, s'.senders[t], s'.receiver)
  }

  ghost predicate Join(s: State, s': State, t: Tid) {
    F.Join(s.fifo, s'.fifo, t) && t !in s.senders && s' == s.(fifo := s'.fifo, senders := s.senders[t := C.Outside])
  }

  ghost predicate Next(s: State, s': State) {
    PopStep(s, s') || WaitStep(s, s') || exists t :: PushStep(s, s', t) || RaiseStep(s, s', t) || Join(s, s', t)
  }

  // ---------------------------------------------------------------- abstraction

  ghost function AbstractSender(producer: F.Producer, sender: C.Sender): C.Sender {
    if producer.PushLink? && producer.at > 0 then C.Linking(producer.at - 1) else sender
  }

  ghost function AbstractSenders(producers: map<Tid, F.Producer>, senders: map<Tid, C.Sender>): map<Tid, C.Sender> {
    map t | t in senders :: if t in producers then AbstractSender(producers[t], senders[t]) else senders[t]
  }

  ghost function Abstract(s: State): C.State {
    C.State(F.Abstract(s.fifo.mem), s.mem, s.receiver, AbstractSenders(s.fifo.producers, s.senders))
  }

  /** Who is inside the FIFO is outside the signal. */
  ghost predicate Coupled(s: State) {
    && s.fifo.producers.Keys == s.senders.Keys
    && (forall t :: t in s.senders ==> (s.fifo.producers[t] == F.Outside || s.senders[t] == C.Outside))
    && (forall t :: t in s.senders ==> !s.senders[t].Linking?)
    && !s.fifo.consumer.PeekNext? && !s.fifo.consumer.PeekRead? && !s.fifo.consumer.Peeked?
    && (s.fifo.consumer != F.Resting ==> s.receiver == C.Popping)
  }

  ghost predicate Inv(s: State) {
    F.Inv(s.fifo) && Coupled(s) && C.Inv(Abstract(s))
  }

  // ---------------------------------------------------------------- refinement

  lemma SenderMoves(producers: map<Tid, F.Producer>, senders: map<Tid, C.Sender>, t: Tid, p: F.Producer, c: C.Sender)
    requires t in producers && t in senders
    ensures AbstractSenders(producers[t := p], senders[t := c])
         == AbstractSenders(producers, senders)[t := AbstractSender(p, c)]
  {
  }

  lemma PopRefines(s: State, s': State)
    requires F.Inv(s.fifo) && Coupled(s) && PopStep(s, s')
    ensures Abstract(s') == Abstract(s) || C.Receive(Abstract(s), Abstract(s'))
  {
    F.ConsumerRefines(s.fifo.mem, s.fifo.consumer, s'.fifo.mem, s'.fifo.consumer);
  }

  lemma PushRefines(s: State, s': State, t: Tid)
    requires F.QueueInv(s.fifo.mem) && PushStep(s, s', t) && F.ProducerInv(s.fifo.mem, t, s.fifo.producers[t])
    ensures Abstract(s') == Abstract(s) || C.Send(Abstract(s), Abstract(s'), t)
  {
    var f, f' := s.fifo, s'.fifo;
    F.ProducerRefines(t, f.mem, f.producers[t], f'.mem, f'.producers[t]);
    SenderMoves(f.producers, s.senders, t, f'.producers[t], s'.senders[t]);
    assert s'.senders == s.senders[t := s'.senders[t]];
    if !f.producers[t].PushLink? && !f.producers[t].PushExchange? {
      assert Abstract(s').senders == Abstract(s).senders;
    }
  }

  lemma RaiseRefines(s: State, s': State, t: Tid)
    requires Coupled(s) && RaiseStep(s, s', t)
    ensures C.Send(Abstract(s), Abstract(s'), t)
  {
    SenderMoves(s.fifo.producers, s.senders, t, s.fifo.producers[t], s'.senders[t]);
    assert s.fifo.producers[t := s.fifo.producers[t]] == s.fifo.producers;
  }

  lemma JoinRefines(s: State, s': State, t: Tid)
    requires Coupled(s) && Join(s, s', t)
    ensures C.Join(Abstract(s), Abstract(s'), t)
  {
    assert Abstract(s').senders == Abstract(s).senders[t := C.Outside];
  }

  /** Every step of the channel over the FIFO is a step of the channel over the queue, or invisible in it. */
  lemma StepRefines(s: State, s': State)
    requires F.Inv(s.fifo) && Coupled(s) && Next(s, s')
    ensures Abstract(s') == Abstract(s) || C.Next(Abstract(s), Abstract(s'))
  {
    if PopStep(s, s') {
      PopRefines(s, s');
    } else if WaitStep(s, s') {
      assert C.Receive(Abstract(s), Abstract(s'));
    } else {
      var t :| PushStep(s, s', t) || RaiseStep(s, s', t) || Join(s, s', t);
      if PushStep(s, s', t) {
        assert F.ProducerInv(s.fifo.mem, t, s.fifo.producers[t]);
        PushRefines(s, s', t);
      } else if RaiseStep(s, s', t) {
        RaiseRefines(s, s', t);
      } else {
        JoinRefines(s, s', t);
      }
    }
  }

  lemma StepFifo(s: State, s': State)
    requires Next(s, s')
    ensures s'.fifo == s.fifo || F.Next(s.fifo, s'.fifo)
  {
    if !PopStep(s, s') && !WaitStep(s, s') {
      var t :| PushStep(s, s', t) || RaiseStep(s, s', t) || Join(s, s', t);
      assert RaiseStep(s, s', t) || F.Produce(s.fifo, s'.fifo, t) || F.Join(s.fifo, s'.fifo, t);
    }
  }

  lemma WakesParked(s: State, t: Tid)
    requires Coupled(s) && C.Inv(Abstract(s)) && t in s.senders && s.senders[t].Waking?
    ensures s.receiver == C.Parked
  {
    assert Abstract(s).senders[t] == C.Waking;
    assert C.SenderInv(t, Abstract(s).queue, s.mem, C.Waking, s.receiver);
  }

  lemma ReceiverCoupled(s: State, s': State)
    requires Coupled(s) && (PopStep(s, s') || WaitStep(s, s'))
    ensures Coupled(s')
  {
  }

  lemma SenderCoupled(s: State, s': State, t: Tid)
    requires Coupled(s) && (PushStep(s, s', t) || RaiseStep(s, s', t) || Join(s, s', t))
    requires t in s.senders && s.senders[t].Waking? ==> s.receiver == C.Parked
    ensures Coupled(s')
  {
  }

  lemma StepCoupled(s: State, s': State)
    requires Coupled(s) && C.Inv(Abstract(s)) && Next(s, s')
    ensures Coupled(s')
  {
    if PopStep(s, s') || WaitStep(s, s') {
      ReceiverCoupled(s, s');
    } else {
      var t :| PushStep(s, s', t) || RaiseStep(s, s', t) || Join(s, s', t);
      if t in s.senders && s.senders[t].Waking? {
        WakesParked(s, t);
      }
      SenderCoupled(s, s', t);
    }
  }

  lemma NextKeeps(s: State, s': State)
    requires Inv(s) && Next(s, s')
    ensures Inv(s')
  {
    StepRefines(s, s');
    StepFifo(s, s');
    StepCoupled(s, s');
    if s'.fifo != s.fifo {
      F.NextKeeps(s.fifo, s'.fifo);
    }
    if Abstract(s') != Abstract(s) {
      C.NextKeeps(Abstract(s), Abstract(s'));
    }
  }

  lemma InitAbstract(s: State)
    requires Init(s)
    ensures C.Init(Abstract(s))
  {
  }

  lemma InitInv(s: State)
    requires Init(s)
    ensures Inv(s)
  {
    F.InitInv(s.fifo);
    InitAbstract(s);
    C.InitInv(Abstract(s));
  }

  lemma InvStarts()
    ensures forall s :: Init(s) ==> Inv(s)
  {
    forall s | Init(s) ensures Inv(s) { InitInv(s); }
  }

  lemma InvGoesOn()
    ensures forall s, s' :: Inv(s) && Next(s, s') ==> Inv(s')
  {
    forall s, s' | Inv(s) && Next(s, s') ensures Inv(s') { NextKeeps(s, s'); }
  }

  lemma InvIsInductive()
    ensures Inductive(Init, Next, Inv)
  {
    InvStarts();
    InvGoesOn();
  }

  lemma RunInv(run: seq<State>, i: nat)
    requires IsRun(Init, Next, run) && i < |run|
    ensures Inv(run[i])
  {
    InvIsInductive();
    Invariance(Init, Next, Inv, run, i);
  }

  // ---------------------------------------------------------------- theorems

  /** The channel over the FIFO refines the channel over the queue, in every run. */
  lemma RefinesChannel(run: seq<State>, i: nat)
    requires IsRun(Init, Next, run) && i + 1 < |run|
    ensures C.Init(Abstract(run[0]))
    ensures Abstract(run[i + 1]) == Abstract(run[i]) || C.Next(Abstract(run[i]), Abstract(run[i + 1]))
  {
    InitAbstract(run[0]);
    RunInv(run, i);
    assert StepAt(Next, run, i + 1);
    StepRefines(run[i], run[i + 1]);
  }

  /** What receive returns, read out of FIFO nodes, is a prefix of what was sent, in the order of the tail exchanges. */
  lemma ReceivedInOrder(run: seq<State>, i: nat)
    requires IsRun(Init, Next, run) && i < |run|
    ensures run[i].fifo.mem.popped <= run[i].fifo.mem.pushed
  {
    RunInv(run, i);
  }

  /** A receiver does not sleep through a message: while it sleeps and the FIFO's first link has been made, the sender
      of that message is still to raise the signal, or some sender is on its way to wake the receiver. */
  lemma SleeperIsWoken(run: seq<State>, i: nat)
    requires IsRun(Init, Next, run) && i < |run| && C.Asleep(run[i].receiver)
    ensures var s, m := run[i], run[i].fifo.mem;
      && m.head in m.heap
      && (m.heap[m.head].next.Some? ==>
            || (m.passed < |m.pushers| && m.pushers[m.passed] in s.senders
                && s.senders[m.pushers[m.passed]] == C.Raising(m.passed))
            || exists w :: w in s.senders && C.IsWaker(s.senders[w]))
  {
    RunInv(run, i);
    var s, m := run[i], run[i].fifo.mem;
    var q := F.Abstract(m);
    assert F.QueuedAt(m, m.passed);
    assert m.heap[m.head].next.Some? ==> F.Linked(m, m.passed) && Q.FirstLinked(q);
    var senders := Abstract(s).senders;
    forall w | w in senders ensures w in s.senders && (C.IsWaker(senders[w]) ==> senders[w] == s.senders[w]) {
    }
    assert C.WakeInv(q, s.mem, s.receiver, senders) && C.WakerInv(s.mem, senders);
  }

  /** A receiver waits on the signal exactly when the FIFO's first link has not been made. */
  lemma WaitsExactly(run: seq<State>, i: nat)
    requires IsRun(Init, Next, run) && i + 1 < |run| && PopStep(run[i], run[i + 1]) && run[i].fifo.consumer.PopNext?
    ensures var m := run[i].fifo.mem;
      && m.head in m.heap
      && run[i + 1].receiver == if m.heap[m.head].next.Some? then C.Popping else C.ClearScratch
  {
    RunInv(run, i);
  }
}
