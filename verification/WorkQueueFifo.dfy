/**
 The work queue over the actual FIFO.  A push takes the FIFO's own steps, and so does the pop of whichever thread is
 the worker; seen through the queue that the FIFO refines, every step is a step of `WorkQueue` or invisible.  That
 there is only one worker is what makes the FIFO's single consumer enough.
 */
module WorkQueueFifo {
  import opened Common
  import opened Runs
  import Q = MpscQueue
  import F = MpscFifo
  import W = WorkQueue

  /** A thread stays `Counted` while it pushes, and `TryPop` until its pop returns. */
  datatype State = State(fifo: F.State, mem: W.Mem, threads: seq<W.Pc>)

  ghost predicate Init(s: State) {
    F.Init(s.fifo) && s.mem == W.IDLE && s.threads == []
  }

  // ---------------------------------------------------------------- transitions

  ghost predicate PushStep(s: State, s': State, t: Tid) {
    && t < |s.threads| && s.threads[t].Counted? && F.Produce(s.fifo, s'.fifo, t)
    && var pc := if s.fifo.producers[t].PushLink? then W.Pushed(s.threads[t].started) else s.threads[t];
       s' == s.(fifo := s'.fifo, threads := s.threads[t := pc])
  }

  /** What a popping thread does after a step of mpsc_fifo_trypop. */
  ghost function AfterPop(c: F.Consumer, c': F.Consumer): W.Pc {
    if c.PopNext? && c' == F.Resting then W.Compare else if c.PopWrite? then W.CountOut else W.TryPop
  }

  ghost predicate PopStep(s: State, s': State, t: Tid) {
    var f, f' := s.fifo, s'.fifo;
    && t < |s.threads| && s.threads[t] == W.TryPop && !f'.consumer.PeekNext?
    && f' == F.State(f'.mem, f'.consumer, f.producers) && F.ConsumerStep(f.mem, f.consumer, f'.mem, f'.consumer)
    && s' == s.(fifo := f', threads := s.threads[t := AfterPop(f.consumer, f'.consumer)])
  }

  ghost predicate CountStep(s: State, s': State, t: Tid) {
    && t < |s.threads| == |s'.threads|
    && s' == s.(mem := s'.mem, threads := s.threads[t := s'.threads[t]])
    && W.CountStep(t, s.mem, s.threads[t], s'.mem, s'.threads[t])
  }

  ghost predicate Step(s: State, s': State, t: Tid) {
    PushStep(s, s', t) || PopStep(s, s', t) || CountStep(s, s', t)
  }

  ghost predicate Join(s: State, s': State) {
    F.Join(s.fifo, s'.fifo, |s.threads|) && s' == s.(fifo := s'.fifo, threads := s.threads + [W.Outside])
  }

  ghost predicate Next(s: State, s': State) {
    Join(s, s') || exists t :: Step(s, s', t)
  }

  // ---------------------------------------------------------------- abstraction

  ghost predicate HasTaken(c: F.Consumer) {
    c.PopRead? || c.PopWrite?
  }

  ghost function AbstractPc(taken: bool, producer: F.Producer, pc: W.Pc): W.Pc {
    if pc.TryPop? && taken then W.CountOut
    else if pc.Counted? && producer.PushLink? && producer.at > 0 then W.Linking(producer.at - 1, pc.started)
    else pc
  }

  ghost function ProducerOf(producers: map<Tid, F.Producer>, t: int): F.Producer {
    if t >= 0 && t in producers then producers[t] else F.Producer.Outside
  }

  ghost function AbstractThreads(taken: bool, producers: map<Tid, F.Producer>, threads: seq<W.Pc>): seq<W.Pc> {
    seq(|threads|, t requires 0 <= t < |threads| => AbstractPc(taken, ProducerOf(producers, t), threads[t]))
  }

  ghost function Abstract(s: State): W.State {
    W.State(F.Abstract(s.fifo.mem), s.mem, AbstractThreads(HasTaken(s.fifo.consumer), s.fifo.producers, s.threads))
  }

  /** Only a thread in its push uses its FIFO producer, and only the worker in its pop the consumer. */
  ghost predicate Coupled(s: State) {
    && (forall t :: t in s.fifo.producers <==> 0 <= t < |s.threads|)
    && (forall t :: 0 <= t < |s.threads| ==> ThreadCoupled(ProducerOf(s.fifo.producers, t), s.threads[t]))
    && !s.fifo.consumer.PeekNext? && !s.fifo.consumer.PeekRead? && !s.fifo.consumer.Peeked?
    && (s.fifo.consumer != F.Resting ==> WorkerPops(s))
  }

  ghost predicate ThreadCoupled(producer: F.Producer, pc: W.Pc) {
    !pc.Linking? && (producer == F.Producer.Outside || pc.Counted?)
  }

  ghost predicate WorkerPops(s: State) {
    s.mem.worker.Some? && s.mem.worker.value < |s.threads| && s.threads[s.mem.worker.value] == W.TryPop
  }

  ghost predicate Inv(s: State) {
    F.Inv(s.fifo) && Coupled(s) && W.Inv(Abstract(s))
  }

  // ---------------------------------------------------------------- refinement

  /** A thread that pops is the worker, and no other thread does. */
  lemma PopperIsWorker(s: State, t: Tid, u: Tid)
    requires W.Inv(Abstract(s)) && t < |s.threads| && u < |s.threads|
    requires s.threads[t] == W.TryPop && W.Working(Abstract(s).threads[u])
    ensures t == u && s.mem.worker == Some(t)
  {
    W.WorkerIsUnique(Abstract(s), t, u);
  }

  lemma PushRefines(s: State, s': State, t: Tid)
    requires F.QueueInv(s.fifo.mem) && PushStep(s, s', t) && F.ProducerInv(s.fifo.mem, t, s.fifo.producers[t])
    requires s.threads[t].started ==> s.fifo.consumer == F.Resting
    ensures Abstract(s') == Abstract(s) || W.Step(Abstract(s), Abstract(s'), t)
  {
    var f, f' := s.fifo, s'.fifo;
    F.ProducerRefines(t, f.mem, f.producers[t], f'.mem, f'.producers[t]);
    var a, a' := Abstract(s).threads, Abstract(s').threads;
    assert a' == a[t := a'[t]];
    if !f.producers[t].PushLink? && !f.producers[t].PushExchange? {
      assert a' == a;
    }
  }

  lemma PopRefines(s: State, s': State, t: Tid)
    requires F.QueueInv(s.fifo.mem) && F.ConsumerInv(s.fifo.mem, s.fifo.consumer) && PopStep(s, s', t)
    requires !s.fifo.consumer.PeekNext? && !s.fifo.consumer.PeekRead? && !s.fifo.consumer.Peeked?
    requires forall u :: 0 <= u < |s.threads| && s.threads[u] == W.TryPop ==> u == t
    ensures Abstract(s') == Abstract(s) || W.Step(Abstract(s), Abstract(s'), t)
  {
    var f, f' := s.fifo, s'.fifo;
    F.ConsumerRefines(f.mem, f.consumer, f'.mem, f'.consumer);
    var a, a' := Abstract(s).threads, Abstract(s').threads;
    assert a' == a[t := a'[t]];
    if !f.consumer.PopAdvance? && !(f.consumer.PopNext? && f'.consumer == F.Resting) {
      assert a' == a;
    }
  }

  lemma CountRefines(s: State, s': State, t: Tid)
    requires Coupled(s) && CountStep(s, s', t)
    requires s.fifo.consumer == F.Resting || s.threads[t] == W.Outside
    ensures W.Step(Abstract(s), Abstract(s'), t)
  {
    var a, a' := Abstract(s).threads, Abstract(s').threads;
    assert ThreadCoupled(ProducerOf(s.fifo.producers, t), s.threads[t]);
    assert a[t] == s.threads[t] && a'[t] == s'.threads[t];
    assert a' == a[t := a'[t]];
  }

  lemma JoinRefines(s: State, s': State)
    requires Coupled(s) && Join(s, s')
    ensures W.Join(Abstract(s), Abstract(s'))
  {
    var a, a' := Abstract(s).threads, Abstract(s').threads;
    assert a' == a + [W.Outside];
  }

  /** Only the worker touches the counters between election and EMPTY, so a pop in progress is its own. */
  lemma CounterRests(s: State, s': State, t: Tid)
    requires Coupled(s) && W.Inv(Abstract(s)) && CountStep(s, s', t)
    ensures s.fifo.consumer == F.Resting || s.threads[t] == W.Outside
  {
    if s.fifo.consumer != F.Resting && s.threads[t] != W.Outside {
      var w := s.mem.worker.value;
      PopperIsWorker(s, w, t);
    }
  }

  /** A push that was told to start working is the worker's, which has not begun to pop. */
  lemma StarterRests(s: State, t: Tid)
    requires Coupled(s) && W.Inv(Abstract(s)) && t < |s.threads| && s.threads[t].Counted? && s.threads[t].started
    ensures s.fifo.consumer == F.Resting
  {
    if s.fifo.consumer != F.Resting {
      PopperIsWorker(s, s.mem.worker.value, t);
    }
  }

  lemma OnePopper(s: State, t: Tid)
    requires W.Inv(Abstract(s)) && t < |s.threads| && s.threads[t] == W.TryPop
    ensures forall u :: 0 <= u < |s.threads| && s.threads[u] == W.TryPop ==> u == t
    ensures s.mem.worker == Some(t)
  {
    forall u | 0 <= u < |s.threads| && s.threads[u] == W.TryPop ensures u == t {
      PopperIsWorker(s, t, u);
    }
    PopperIsWorker(s, t, t);
  }

  /** Every step of the work queue over the FIFO is a step of the work queue over the queue, or invisible in it. */
  lemma StepRefines(s: State, s': State, t: Tid)
    requires Inv(s) && Step(s, s', t)
    ensures Abstract(s') == Abstract(s) || W.Step(Abstract(s), Abstract(s'), t)
  {
    if PushStep(s, s', t) {
      assert F.ProducerInv(s.fifo.mem, t, s.fifo.producers[t]);
      if s.threads[t].started {
        StarterRests(s, t);
      }
      PushRefines(s, s', t);
    } else if PopStep(s, s', t) {
      OnePopper(s, t);
      PopRefines(s, s', t);
    } else {
      CounterRests(s, s', t);
      CountRefines(s, s', t);
    }
  }

  // ---------------------------------------------------------------- the coupling is kept

  lemma PushCoupled(s: State, s': State, t: Tid)
    requires Coupled(s) && PushStep(s, s', t)
    ensures Coupled(s')
  {
    forall u | 0 <= u < |s'.threads| ensures ThreadCoupled(ProducerOf(s'.fifo.producers, u), s'.threads[u]) {
      assert ThreadCoupled(ProducerOf(s.fifo.producers, u), s.threads[u]);
    }
  }

  lemma PopCoupled(s: State, s': State, t: Tid)
    requires Coupled(s) && PopStep(s, s', t) && s.mem.worker == Some(t)
    ensures Coupled(s')
  {
    forall u | 0 <= u < |s'.threads| ensures ThreadCoupled(ProducerOf(s'.fifo.producers, u), s'.threads[u]) {
      assert ThreadCoupled(ProducerOf(s.fifo.producers, u), s.threads[u]);
    }
  }

  lemma CountCoupled(s: State, s': State, t: Tid)
    requires Coupled(s) && CountStep(s, s', t)
    requires s.fifo.consumer == F.Resting || (s.threads[t] == W.Outside && s.mem.inCount > 0)
    ensures Coupled(s')
  {
    forall u | 0 <= u < |s'.threads| ensures ThreadCoupled(ProducerOf(s'.fifo.producers, u), s'.threads[u]) {
      assert ThreadCoupled(ProducerOf(s.fifo.producers, u), s.threads[u]);
    }
  }

  lemma JoinCoupled(s: State, s': State)
    requires Coupled(s) && Join(s, s')
    ensures Coupled(s')
  {
    forall u | 0 <= u < |s'.threads| ensures ThreadCoupled(ProducerOf(s'.fifo.producers, u), s'.threads[u]) {
      if u < |s.threads| {
        assert ThreadCoupled(ProducerOf(s.fifo.producers, u), s.threads[u]);
      }
    }
  }

  lemma StepCoupled(s: State, s': State, t: Tid)
    requires Inv(s) && Step(s, s', t)
    ensures Coupled(s')
  {
    if PushStep(s, s', t) {
      PushCoupled(s, s', t);
    } else if PopStep(s, s', t) {
      OnePopper(s, t);
      PopCoupled(s, s', t);
    } else {
      CounterRests(s, s', t);
      assert s.mem.worker.Some? <==> s.mem.inCount > 0;
      CountCoupled(s, s', t);
    }
  }

  lemma StepKeeps(s: State, s': State, t: Tid)
    requires Inv(s) && Step(s, s', t)
    ensures Inv(s')
  {
    StepRefines(s, s', t);
    StepCoupled(s, s', t);
    if s'.fifo != s.fifo {
      assert F.Next(s.fifo, s'.fifo);
      F.NextKeeps(s.fifo, s'.fifo);
    }
    if Abstract(s') != Abstract(s) {
      W.NextKeeps(Abstract(s), Abstract(s'));
    }
  }

  lemma NextKeeps(s: State, s': State)
    requires Inv(s) && Next(s, s')
    ensures Inv(s')
  {
    if Join(s, s') {
      JoinRefines(s, s');
      JoinCoupled(s, s');
      F.NextKeeps(s.fifo, s'.fifo);
      W.NextKeeps(Abstract(s), Abstract(s'));
    } else {
      var t: Tid :| Step(s, s', t);
      StepKeeps(s, s', t);
    }
  }

  lemma InitAbstract(s: State)
    requires Init(s)
    ensures W.Init(Abstract(s))
  {
  }

  lemma InitInv(s: State)
    requires Init(s)
    ensures Inv(s)
  {
    F.InitInv(s.fifo);
    InitCoupled(s);
    InitCounts(s, Abstract(s));
  }

  lemma InitCoupled(s: State)
    requires Init(s)
    ensures Coupled(s)
  {
  }

  lemma InitCounts(s: State, a: W.State)
    requires Init(s) && a == Abstract(s)
    ensures W.Inv(a)
  {
    InitAbstract(s);
    W.InitInv(a);
  }

  lemma InvStarts()
    ensures forall s :: Init(s) ==> Inv(s)
  {
    forall s | Init(s) ensures Inv(s) { InitInv(s); }
  }

  lemma InvGoesOn()
    ensures forall s, s' :: Inv(s) && Next(s, s') ==> Inv(s')
  {
    forall s, s' | Inv(s) && Next(s, s') ensures Inv(s') { NextKeeps(s, s'); }
  }

  lemma InvIsInductive()
    ensures Inductive(Init, Next, Inv)
  {
    InvStarts();
    InvGoesOn();
  }

  lemma RunInv(run: seq<State>, i: nat)
    requires IsRun(Init, Next, run) && i < |run|
    ensures Inv(run[i])
  {
    InvIsInductive();
    Invariance(Init, Next, Inv, run, i);
  }

  // ---------------------------------------------------------------- theorems

  /** The work queue over the FIFO refines the work queue over the queue, in every run. */
  lemma RefinesWorkQueue(run: seq<State>, i: nat)
    requires IsRun(Init, Next, run) && i + 1 < |run|
    ensures W.Init(Abstract(run[0]))
    ensures Abstract(run[i + 1]) == Abstract(run[i]) || W.Next(Abstract(run[i]), Abstract(run[i + 1]))
  {
    InitAbstract(run[0]);
    NextRefines(run, i);
  }

  lemma NextRefines(run: seq<State>, i: nat)
    requires IsRun(Init, Next, run) && i + 1 < |run|
    ensures Abstract(run[i + 1]) == Abstract(run[i]) || W.Next(Abstract(run[i]), Abstract(run[i + 1]))
  {
    RunInv(run, i);
    assert StepAt(Next, run, i + 1);
    if Join(run[i], run[i + 1]) {
      JoinRefines(run[i], run[i + 1]);
    } else {
      var t: Tid :| Step(run[i], run[i + 1], t);
      StepRefines(run[i], run[i + 1], t);
    }
  }

  /** Election discharges what the FIFO demands: no two threads are ever in its pop. */
  lemma SingleConsumer(run: seq<State>, i: nat, t: Tid, u: Tid)
    requires IsRun(Init, Next, run) && i < |run| && t < |run[i].threads| && u < |run[i].threads|
    requires run[i].threads[t] == run[i].threads[u] == W.TryPop
    ensures t == u
  {
    RunInv(run, i);
    OnePopper(run[i], t);
  }

  /** When EMPTY is returned, the values read out of the FIFO's nodes are all the values pushed, and every push that has
      counted its item has got it into the FIFO. */
  lemma EmptyMeansDrained(run: seq<State>, i: nat, t: Tid)
    requires IsRun(Init, Next, run) && i + 1 < |run| && CountStep(run[i], run[i + 1], t)
    requires run[i].threads[t].Subtract? && run[i + 1].threads[t] == W.Outside
    ensures var m := run[i + 1].fifo.mem; m.popped == m.pushed && |m.pushed| == run[i + 1].mem.counted
  {
    RunInv(run, i);
    RunInv(run, i + 1);
    EmptyStep(run[i], run[i + 1], t, Abstract(run[i]), Abstract(run[i + 1]));
  }

  lemma EmptyStep(s: State, s': State, t: Tid, a: W.State, a': W.State)
    requires F.Inv(s'.fifo) && Coupled(s) && CountStep(s, s', t) && a == Abstract(s) && a' == Abstract(s')
    requires W.Inv(a) && W.Inv(a') && s.threads[t].Subtract? && s'.threads[t] == W.Outside
    ensures var m := s'.fifo.mem; m.popped == m.pushed && |m.pushed| == s'.mem.counted
  {
    CounterRests(s, s', t);
    CountRefines(s, s', t);
    assert a.threads[t] == s.threads[t] && a'.threads[t] == s'.threads[t];
    W.EmptyStep(a, a', t);
  }

  /** A worker goes to compare its counters exactly when the FIFO's first link has not been made, and counts an item out
      exactly when its pop has returned one. */
  lemma PopAnswersExactly(run: seq<State>, i: nat, t: Tid)
    requires IsRun(Init, Next, run) && i + 1 < |run| && PopStep(run[i], run[i + 1], t)
    ensures var m, m', c, pc' := run[i].fifo.mem, run[i + 1].fifo.mem, run[i].fifo.consumer, run[i + 1].threads[t];
      && m.head in m.heap
      && (pc' == W.Compare <==> c.PopNext? && m.heap[m.head].next == None)
      && (pc' == W.CountOut <==> |m'.popped| > |m.popped|)
  {
    RunInv(run, i);
    assert F.QueuedAt(run[i].fifo.mem, run[i].fifo.mem.passed);
  }
}
