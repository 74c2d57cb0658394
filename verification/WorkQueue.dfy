/**
 The work queue: whoever raises the item count from zero becomes the worker and must drain the queue until it
 is told EMPTY.  Items travel through the single-consumer queue that `MpscFifo` refines; `WorkQueueFifo` puts the
 FIFO itself in its place.
 */
module WorkQueue {
  import opened Common
  import opened Runs
  import opened Counting
  import opened Q = MpscQueue

  datatype Pc =
    | Outside
    // work_queue_push
    | Counted(started: bool)           // in_count incremented; the item is not in the FIFO yet
    | Linking(i: nat, started: bool)
    // work_queue_get_work, run by the worker
    | TryPop
    | CountOut                         // popped; out_count not yet incremented
    | Compare
    | ZeroOut
    | Subtract(out: int)

  datatype Mem = Mem(
    inCount: int,
    outCount: int,
    counted: nat,               // history: pushes that have incremented in_count
    retired: nat,               // history: items already subtracted from in_count
    worker: Option<Tid>)        // auxiliary: the fiber told START_WORKING and not yet EMPTY

  const IDLE := Mem(0, 0, 0, 0, None)

  datatype State = State(queue: Queue, mem: Mem, threads: seq<Pc>)

  ghost predicate Init(s: State) {
    s == State(EMPTY, IDLE, [])
  }

  ghost function Pushed(started: bool): Pc {
    if started then TryPop else Outside
  }

  /** The steps on the two counters. */
  ghost predicate CountStep(t: Tid, m: Mem, pc: Pc, m': Mem, pc': Pc) {
    match pc
    case Outside =>
      && pc' == Counted(m.inCount + 1 == 1)
      && m' == m.(inCount := m.inCount + 1, counted := m.counted + 1,
                  worker := if m.inCount + 1 == 1 then Some(t) else m.worker)
    case CountOut =>
      m' == m.(outCount := m.outCount + 1) && pc' == TryPop                 // MORE_WORK
    case Compare =>
      m' == m && pc' == if m.outCount == m.inCount then ZeroOut else TryPop
    case ZeroOut =>
      m' == m.(outCount := 0) && pc' == Subtract(m.outCount)
    case Subtract(out) =>
      && out >= 0
      && var left := m.inCount - out;
         if left == 0 then                                                  // EMPTY
           m' == m.(inCount := left, retired := m.retired + out, worker := None) && pc' == Outside
         else m' == m.(inCount := left, retired := m.retired + out) && pc' == TryPop
    case _ => false
  }

  ghost predicate ThreadStep(t: Tid, q: Queue, m: Mem, pc: Pc, q': Queue, m': Mem, pc': Pc) {
    match pc
    case Counted(started) =>
      && |q'.messages| > 0 && Exchange(q, q', t, q'.messages[|q'.messages| - 1])
      && m' == m && pc' == Linking(|q.messages|, started)
    case Linking(i, started) =>
      Link(q, q', t, i) && m' == m && pc' == Pushed(started)
    case TryPop =>
      && m' == m
      && if FirstLinked(q) then q.taken < |q.messages| && Take(q, q', q.messages[q.taken]) && pc' == CountOut
         else q' == q && pc' == Compare
    case _ => q' == q && CountStep(t, m, pc, m', pc')
  }

  ghost predicate Step(s: State, s': State, t: Tid) {
    && t < |s.threads| == |s'.threads|
    && s' == State(s'.queue, s'.mem, s.threads[t := s'.threads[t]])
    && ThreadStep(t, s.queue, s.mem, s.threads[t], s'.queue, s'.mem, s'.threads[t])
  }

  ghost predicate Join(s: State, s': State) {
    s' == s.(threads := s.threads + [Outside])
  }

  ghost predicate Next(s: State, s': State) {
    Join(s, s') || exists t :: Step(s, s', t)
  }

  // ---------------------------------------------------------------- invariant

  /** Told START_WORKING, and not yet EMPTY. */
  ghost predicate Working(pc: Pc) {
    match pc
    case Outside => false
    case Counted(started) => started
    case Linking(_, started) => started
    case _ => true
  }

  ghost predicate Pending(pc: Pc) {
    pc.Counted?
  }

  ghost predicate MemInv(q: Queue, m: Mem, pending: nat) {
    && Valid(q) && m.counted == |q.messages| + pending
    && m.inCount == m.counted - m.retired && m.retired <= q.taken
    && (m.worker.Some? <==> m.inCount > 0)
    && (m.worker == None ==> m.outCount == 0 && m.retired == q.taken)
  }

  /** The worker's view of out_count: what it has handed out since it last settled. */
  ghost predicate ThreadInv(t: Tid, q: Queue, m: Mem, pc: Pc) {
    && (pc.Linking? ==> pc.i < |q.linked| && pc.i < |q.pushers| && q.pushers[pc.i] == t)
    && (Working(pc) ==>
          && m.worker == Some(t)
          && match pc
             case CountOut => m.outCount == q.taken - m.retired - 1
             case Subtract(out) => m.outCount == 0 && out == q.taken - m.retired
             case _ => m.outCount == q.taken - m.retired)
  }

  ghost predicate ThreadsInv(s: State) {
    && (forall t :: 0 <= t < |s.threads| ==> ThreadInv(t, s.queue, s.mem, s.threads[t]))
    && (s.mem.worker.Some? ==> s.mem.worker.value < |s.threads| && Working(s.threads[s.mem.worker.value]))
  }

  ghost predicate Inv(s: State) {
    MemInv(s.queue, s.mem, Count(s.threads, Pending)) && ThreadsInv(s)
  }

  lemma StepMem(t: Tid, q: Queue, m: Mem, pc: Pc, q': Queue, m': Mem, pc': Pc, pending: nat, pending': nat)
    requires MemInv(q, m, pending) && ThreadInv(t, q, m, pc) && ThreadStep(t, q, m, pc, q', m', pc')
    requires pending' == pending - Unit(Pending(pc)) + Unit(Pending(pc'))
    ensures MemInv(q', m', pending')
  {
  }

  lemma StepThread(t: Tid, q: Queue, m: Mem, pc: Pc, q': Queue, m': Mem, pc': Pc, pending: nat)
    requires MemInv(q, m, pending) && ThreadInv(t, q, m, pc) && ThreadStep(t, q, m, pc, q', m', pc')
    ensures ThreadInv(t, q', m', pc')
    ensures forall u, ot {:trigger ThreadInv(u, q, m, ot)} ::
      u != t && ThreadInv(u, q, m, ot) ==> ThreadInv(u, q', m', ot)
  {
  }

  lemma StepThreads(s: State, s': State, t: Tid, pending: nat)
    requires MemInv(s.queue, s.mem, pending) && ThreadsInv(s) && Step(s, s', t)
    ensures ThreadsInv(s')
  {
    assert ThreadInv(t, s.queue, s.mem, s.threads[t]);
    StepThread(t, s.queue, s.mem, s.threads[t], s'.queue, s'.mem, s'.threads[t], pending);
    forall u | 0 <= u < |s'.threads| ensures ThreadInv(u, s'.queue, s'.mem, s'.threads[u]) {
      assert ThreadInv(u, s.queue, s.mem, s.threads[u]);
    }
  }

  lemma StepKeeps(s: State, s': State, t: Tid)
    requires Inv(s) && Step(s, s', t)
    ensures Inv(s')
  {
    var pending, pending' := Count(s.threads, Pending), Count(s'.threads, Pending);
    Move(s.threads, t, s'.threads[t], Pending);
    StepThreads(s, s', t, pending);
    assert ThreadInv(t, s.queue, s.mem, s.threads[t]);
    StepMem(t, s.queue, s.mem, s.threads[t], s'.queue, s'.mem, s'.threads[t], pending, pending');
  }

  lemma NextKeeps(s: State, s': State)
    requires Inv(s) && Next(s, s')
    ensures Inv(s')
  {
    if Join(s, s') {
      Arrive(s.threads, Outside, Pending);
    } else {
      var t: Tid :| Step(s, s', t);
      StepKeeps(s, s', t);
    }
  }

  lemma InitInv(s: State)
    requires Init(s)
    ensures Inv(s)
  {
  }

  lemma InvIsInductive()
    ensures Inductive(Init, Next, Inv)
  {
    forall s | Init(s) ensures Inv(s) { InitInv(s); }
    forall s, s' | Inv(s) && Next(s, s') ensures Inv(s') { NextKeeps(s, s'); }
  }

  lemma RunInv(run: seq<State>, i: nat)
    requires IsRun(Init, Next, run) && i < |run|
    ensures Inv(run[i])
  {
    InvIsInductive();
    Invariance(Init, Next, Inv, run, i);
  }

  // ---------------------------------------------------------------- theorems

  lemma WorkerIsUnique(s: State, t: Tid, u: Tid)
    requires Inv(s) && t < |s.threads| && u < |s.threads| && Working(s.threads[t]) && Working(s.threads[u])
    ensures t == u && s.mem.worker == Some(t)
  {
    assert ThreadInv(t, s.queue, s.mem, s.threads[t]) && ThreadInv(u, s.queue, s.mem, s.threads[u]);
  }

  /** At most one fiber is the worker. */
  lemma OneWorker(run: seq<State>, i: nat, t: Tid, u: Tid)
    requires IsRun(Init, Next, run) && i < |run| && t < |run[i].threads| && u < |run[i].threads|
    requires Working(run[i].threads[t]) && Working(run[i].threads[u])
    ensures t == u
  {
    RunInv(run, i);
    WorkerIsUnique(run[i], t, u);
  }

  /** What EMPTY means in the state in which it is returned. */
  lemma EmptyStep(s: State, s': State, t: Tid)
    requires Inv(s) && Inv(s') && Step(s, s', t) && s.threads[t].Subtract? && s'.threads[t] == Outside
    ensures var q, m := s'.queue, s'.mem;
      m.counted == q.taken == |q.messages| && m.inCount == 0 && m.worker == None && q == s.queue
  {
    assert ThreadInv(t, s.queue, s.mem, s.threads[t]);
  }

  /** EMPTY is returned only when every counted item has been handed out. */
  lemma EmptyMeansAllHandedOut(run: seq<State>, i: nat, t: Tid)
    requires IsRun(Init, Next, run) && i + 1 < |run| && Step(run[i], run[i + 1], t)
    requires run[i].threads[t].Subtract? && run[i + 1].threads[t] == Outside
    ensures var q, m := run[i + 1].queue, run[i + 1].mem;
      m.counted == q.taken == |q.messages| && m.inCount == 0 && m.worker == None
  {
    RunInv(run, i);
    RunInv(run, i + 1);
    EmptyStep(run[i], run[i + 1], t);
  }

  /** Nothing is left behind: whenever items are outstanding some fiber is the worker, and a push elects one exactly
      when there is none. */
  lemma OutstandingHasWorker(run: seq<State>, i: nat)
    requires IsRun(Init, Next, run) && i < |run|
    ensures var q, m := run[i].queue, run[i].mem;
      && q.taken <= |q.messages| <= m.counted
      && (q.taken < m.counted ==> exists t :: 0 <= t < |run[i].threads| && Working(run[i].threads[t]))
      && (m.inCount + 1 == 1 <==> forall t :: 0 <= t < |run[i].threads| ==> !Working(run[i].threads[t]))
  {
    RunInv(run, i);
    var s := run[i];
    forall t | 0 <= t < |s.threads| && Working(s.threads[t]) ensures s.mem.inCount > 0 {
      assert ThreadInv(t, s.queue, s.mem, s.threads[t]);
    }
  }

  /** Every fiber always has a step to take. */
  lemma NeverStuck(run: seq<State>, i: nat, t: Tid)
    requires IsRun(Init, Next, run) && i < |run| && t < |run[i].threads|
    ensures exists s' :: Step(run[i], s', t)
  {
    RunInv(run, i);
    var s := run[i];
    assert ThreadInv(t, s.queue, s.mem, s.threads[t]);
    var q', m', pc' := GoesOn(t, s.queue, s.mem, s.threads[t]);
    assert Step(s, State(q', m', s.threads[t := pc']), t);
  }

  /** Outside, about to hand out an item, or waiting for a push that has counted its item and not linked it yet. */
  ghost predicate Rests(q: Queue, m: Mem, pc: Pc) {
    pc == Outside || (pc == TryPop && (FirstLinked(q) || q.taken != m.counted))
  }

  /** How many of its own steps a fiber is from resting at most: a drained worker settles and is told EMPTY. */
  ghost function Distance(q: Queue, m: Mem, pc: Pc): nat {
    var drained := q.taken == m.counted;
    match pc
    case Outside => 0
    case Counted(_) => 7
    case Linking(_, _) => 6
    case CountOut => 5
    case TryPop => if drained then 4 else 0
    case Compare => if drained then 3 else 1
    case ZeroOut => 2
    case Subtract(_) => 1
  }

  lemma GoesOn(t: Tid, q: Queue, m: Mem, pc: Pc) returns (q': Queue, m': Mem, pc': Pc)
    requires Valid(q) && m.retired <= q.taken && m.inCount == m.counted - m.retired && ThreadInv(t, q, m, pc)
    ensures ThreadStep(t, q, m, pc, q', m', pc')
    ensures Rests(q, m, pc) || Distance(q', m', pc') < Distance(q, m, pc)
  {
    q', m' := q, m;
    match pc
    case Outside =>
      var worker := if m.inCount + 1 == 1 then Some(t) else m.worker;
      m', pc' := m.(inCount := m.inCount + 1, counted := m.counted + 1, worker := worker), Counted(m.inCount + 1 == 1);
    case Counted(started) =>
      q' := Queue(q.messages + [0], q.pushers + [t], q.linked + [false], q.taken);
      pc' := Linking(|q.messages|, started);
    case Linking(i, started) => q', pc' := q.(linked := q.linked[i := true]), Pushed(started);
    case TryPop =>
      if FirstLinked(q) {
        q', pc' := q.(taken := q.taken + 1), CountOut;
      } else {
        pc' := Compare;
      }
    case CountOut => m', pc' := m.(outCount := m.outCount + 1), TryPop;
    case Compare => pc' := if m.outCount == m.inCount then ZeroOut else TryPop;
    case ZeroOut => m', pc' := m.(outCount := 0), Subtract(m.outCount);
    case Subtract(out) =>
      var left := m.inCount - out;
      if left == 0 {
        m', pc' := m.(inCount := left, retired := m.retired + out, worker := None), Outside;
      } else {
        m', pc' := m.(inCount := left, retired := m.retired + out), TryPop;
      }
  }

  // ---------------------------------------------------------------- what the operations answer

  /** A worker that finds nothing to pop moves to settle its count exactly when every counted item has been handed out,
      and is told EMPTY exactly when that is still so as it settles: no item has been counted meanwhile. */
  lemma EmptyExactly(run: seq<State>, i: nat, t: Tid)
    requires IsRun(Init, Next, run) && i + 1 < |run| && Step(run[i], run[i + 1], t)
    ensures var q, m, pc, pc' := run[i].queue, run[i].mem, run[i].threads[t], run[i + 1].threads[t];
      && (pc.Compare? ==> pc' == if m.counted == q.taken then ZeroOut else TryPop)
      && (pc.Subtract? ==> pc' == if m.counted == q.taken then Outside else TryPop)
  {
    RunInv(run, i);
    assert ThreadInv(t, run[i].queue, run[i].mem, run[i].threads[t]);
  }

  /** get_work hands out an item exactly when the first one is linked, and a push elects its caller exactly when nobody
      is the worker. */
  lemma AnswersExactly(run: seq<State>, i: nat, t: Tid)
    requires IsRun(Init, Next, run) && i + 1 < |run| && Step(run[i], run[i + 1], t)
    ensures var q, q', pc, pc' := run[i].queue, run[i + 1].queue, run[i].threads[t], run[i + 1].threads[t];
      && (pc.TryPop? ==>
            if FirstLinked(q) then pc' == CountOut && q'.taken == q.taken + 1 else pc' == Compare && q' == q)
      && (pc.Outside? ==>
            pc' == Counted(forall u :: 0 <= u < |run[i].threads| ==> !Working(run[i].threads[u])))
  {
    OutstandingHasWorker(run, i);
  }

  // ---------------------------------------------------------------- progress

  ghost predicate CanRest(s: State, t: Tid, k: nat)
    decreases k
  {
    && t < |s.threads|
    && (Rests(s.queue, s.mem, s.threads[t]) || (k > 0 && exists s' :: Step(s, s', t) && CanRest(s', t, k - 1)))
  }

  lemma {:induction false} ComesToRest(s: State, t: Tid, k: nat)
    requires Inv(s) && t < |s.threads| && Distance(s.queue, s.mem, s.threads[t]) <= k
    ensures CanRest(s, t, k)
    decreases k
  {
    if !Rests(s.queue, s.mem, s.threads[t]) {
      assert ThreadInv(t, s.queue, s.mem, s.threads[t]);
      var q', m', pc' := GoesOn(t, s.queue, s.mem, s.threads[t]);
      var s' := State(q', m', s.threads[t := pc']);
      assert Step(s, s', t);
      StepKeeps(s, s', t);
      ComesToRest(s', t, k - 1);
    }
  }

  /** From every reachable state every fiber comes, within seven steps of its own, to an end of its operation, to an
      item it can hand out, or to wait for a push in progress; a worker with nothing outstanding comes to EMPTY. */
  lemma CompletesAlone(run: seq<State>, i: nat, t: Tid)
    requires IsRun(Init, Next, run) && i < |run| && t < |run[i].threads|
    ensures CanRest(run[i], t, 7)
  {
    RunInv(run, i);
    ComesToRest(run[i], t, 7);
  }
}
