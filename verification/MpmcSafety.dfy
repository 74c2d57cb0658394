/**
 What the invariant of `MpmcFifo` means: order, structure and disjointness of the FIFOs, safe reclamation, and that
 nobody is ever stuck.
 */
module MpmcSafety {
  import opened Common
  import opened Runs
  import opened MpmcFifo

  /** Each FIFO is one: what has been popped from it, in head-CAS order, is a prefix of what has been pushed onto it, in
      tail-CAS order. */
  lemma PoppedIsPrefixOfPushed(run: seq<State>, i: nat, q: Fid)
    requires IsRun(Init, Next, run) && i < |run| && q in run[i].pool.fifos
    ensures run[i].pool.fifos[q].popped <= run[i].pool.fifos[q].pushed
  {
    RunInv(run, i);
    assert QueueInv(View(run[i].pool, q));
  }

  /** A FIFO from head to tail is a doubly linked list of its unpopped values in order, except that a `prev` link
      is missing exactly while the push that owes it is in flight. */
  lemma QueueIsLinked(run: seq<State>, i: nat, q: Fid, j: nat)
    requires IsRun(Init, Next, run) && i < |run| && q in run[i].pool.fifos
    requires |run[i].pool.fifos[q].popped| < j < |run[i].pool.fifos[q].order|
    ensures var f, heap := run[i].pool.fifos[q], run[i].pool.heap;
      && |f.order| == |f.pushed| + 1 && f.head == f.order[|f.popped|] && f.tail == f.order[|f.order| - 1]
      && f.order[j - 1] in heap && f.order[j] in heap && heap[f.order[j]].value == f.pushed[j - 1]
      && heap[f.order[j]].next == Some(f.order[j - 1])
      && heap[f.order[j - 1]].prev in {None, Some(f.order[j])}
      && (heap[f.order[j - 1]].prev == None <==> exists u :: Owes(run[i].threads, u, q, j))
  {
    RunInv(run, i);
    var m := View(run[i].pool, q);
    assert LinkersInv(m, run[i].threads);
    assert LinkedOrOwed(m, run[i].threads, j);
    forall u | Owes(run[i].threads, u, q, j) ensures m.heap[m.order[j - 1]].prev == None {
      assert InPool(run[i].pool, u, run[i].threads[u]);
    }
  }

  /** No node is in two FIFOs, or twice in one. */
  lemma QueuesAreDisjoint(run: seq<State>, i: nat, q: Fid, j: nat, q2: Fid, j2: nat)
    requires IsRun(Init, Next, run) && i < |run| && q in run[i].pool.fifos && q2 in run[i].pool.fifos
    requires |run[i].pool.fifos[q].popped| <= j < |run[i].pool.fifos[q].order|
    requires |run[i].pool.fifos[q2].popped| <= j2 < |run[i].pool.fifos[q2].order|
    requires run[i].pool.fifos[q].order[j] == run[i].pool.fifos[q2].order[j2]
    ensures q == q2 && j == j2
  {
    RunInv(run, i);
    var m, m2 := View(run[i].pool, q), View(run[i].pool, q2);
    assert QueueInv(m) && QueueInv(m2);
    assert QueuedAt(m, j) && QueuedAt(m2, j2);
  }

  lemma StepKeepsNodes(t: Tid, m: Mem, th: Thread, m': Mem, th': Thread, n: Node)
    requires n in m.heap && (PushStep(t, m, th, m', th') || PopStep(t, m, th, m', th'))
    ensures n in m'.heap
  {
  }

  lemma QueueStepKeepsNodes(s: State, s': State, t: Tid, n: Node)
    requires QueueStep(s, s', t) && n in s.pool.heap
    ensures n in s'.pool.heap
  {
    var q := s.threads[t].fifo;
    StepKeepsNodes(t, View(s.pool, q), s.threads[t], View(s'.pool, q), s'.threads[t], n);
  }

  lemma SweepTakes(s: State, s': State, t: Tid, n: Node)
    requires Scan(s, s', t) && n in s.pool.heap && n !in s'.pool.heap
    ensures var pc := s.threads[t].pc; pc.ScanSweep? && n in pc.pending && n !in pc.seen
  {
  }

  /** Nodes leave the heap only through a sweep that has not seen them. */
  lemma ReclaimStep(s: State, s': State, n: Node) returns (t: Tid)
    requires Next(s, s') && n in s.pool.heap && n !in s'.pool.heap
    ensures t in s.threads && var pc := s.threads[t].pc; pc.ScanSweep? && n in pc.pending && n !in pc.seen
  {
    forall u | QueueStep(s, s', u) ensures false {
      QueueStepKeepsNodes(s, s', u, n);
    }
    t :| Step(s, s', t);
    SweepTakes(s, s', t, n);
  }

  /** A node handed to its gc function is not under any thread's validated hazard, whichever FIFO the thread works on
      and whichever FIFO the node came from. */
  lemma ReclaimedIsUnguarded(run: seq<State>, i: nat, n: Node, u: Tid, k: nat)
    requires IsRun(Init, Next, run) && i + 1 < |run|
    requires n in run[i].pool.heap && n !in run[i + 1].pool.heap
    requires u in run[i].threads && k < 2
    ensures Guard(run[i].threads[u].pc, k) != Some(n)
  {
    assert StepAt(Next, run, i + 1);
    var t := ReclaimStep(run[i], run[i + 1], n);
    RunInv(run, i);
    UnseenIsUnguarded(run[i], t, u, k);
  }

  /** The nodes the next step of a thread reads or writes through a pointer. */
  ghost function Derefs(pc: Pc): set<Node> {
    match pc
    case PushInit(n) => {n}
    case PushNext(n, _) => {n}
    case PushLink(_, tl, _) => {tl}
    case PopPrev(h) => {h}
    case PopValue(_, p) => {p}
    case PopRetire(h) => {h}
    case ScanSweep(pending, _) => if pending == [] then {} else {pending[0]}
    case _ => {}
  }

  /** No thread ever touches a reclaimed node, nor a node another thread has been given since. */
  lemma NoUseAfterFree(run: seq<State>, i: nat, t: Tid)
    requires IsRun(Init, Next, run) && i < |run| && t in run[i].threads
    ensures forall n :: n in Derefs(run[i].threads[t].pc) ==>
      n in run[i].pool.heap && (run[i].pool.heap[n].place.Private? ==> run[i].pool.heap[n].place.owner == t)
  {
    RunInv(run, i);
    assert InPool(run[i].pool, t, run[i].threads[t]);
  }

  /** A thread between operations publishes nothing in slot 0, and nothing at all right after a successful pop. */
  lemma IdleHoldsNoHazard(run: seq<State>, i: nat, t: Tid)
    requires IsRun(Init, Next, run) && i < |run| && t in run[i].threads
    ensures run[i].threads[t].pc.Idle? ==> run[i].threads[t].slot0 == None
    ensures run[i].threads[t].pc.PopRetire? ==> run[i].threads[t].slot0 == run[i].threads[t].slot1 == None
  {
    RunInv(run, i);
    assert InPool(run[i].pool, t, run[i].threads[t]);
  }

  /** The thread's compare-and-swap finds what it read. */
  ghost predicate CanWin(m: Mem, pc: Pc) {
    (pc.PushCas? && m.tail == pc.tl) || (pc.PopCas? && m.head == pc.h)
  }

  /** How many of its own steps a thread is from the end of its operation at most.  Having read an end of the queue that
      has moved since, it first has to start over. */
  ghost function PushDistance(m: Mem, pc: Pc): nat {
    match pc
    case PushInit(_) => 8
    case PushLoad(_) => 7
    case PushHazard(_, tl) => if tl == m.tail then 6 else 9
    case PushCheck(_, tl) => if tl == m.tail then 5 else 8
    case PushNext(_, tl) => if tl == m.tail then 4 else 9
    case PushCas(_, tl) => if tl == m.tail then 3 else 8
    case PushLink(_, _, _) => 2
    case PushClear(_) => 1
    case _ => 0
  }

  ghost function PopDistance(m: Mem, pc: Pc): nat {
    match pc
    case PopLoad => 11
    case PopHazard(h) => if h == m.head then 10 else 13
    case PopCheck(h) => if h == m.head then 9 else 12
    case PopPrev(h) => if h == m.head then 8 else 14
    case PopEmpty(_) => 1
    case PopHazard1(h, _) => if h == m.head then 7 else 13
    case PopCheck1(h, _) => if h == m.head then 6 else 12
    case PopValue(h, _) => if h == m.head then 5 else 13
    case PopCas(h, _, _) => if h == m.head then 4 else 12
    case PopClear0(_, _) => 3
    case PopClear1(_, _) => 2
    case PopRetire(_) => 1
    case _ => 0
  }

  ghost function ScanDistance(th: Thread): nat {
    match th.pc
    case ScanRead(rest, k, _) => 2 * |rest| + (if k == 0 then 1 else 0) + |th.retired| + 2
    case ScanSweep(pending, _) => |pending| + 1
    case _ => 0
  }

  ghost function Distance(s: State, t: Tid): nat
    requires t in s.threads && s.threads[t].fifo in s.pool.fifos
  {
    var th, m := s.threads[t], View(s.pool, s.threads[t].fifo);
    PushDistance(m, th.pc) + PopDistance(m, th.pc) + ScanDistance(th)
  }

  lemma PushGoesOn(t: Tid, m: Mem, th: Thread) returns (m': Mem, th': Thread)
    requires OwnsInv(m, t, th.pc) && LinkInv(m, t, th.pc)
    requires th.pc.PushInit? || th.pc.PushLoad? || th.pc.PushHazard? || th.pc.PushCheck? || th.pc.PushNext?
          || th.pc.PushCas? || th.pc.PushLink? || th.pc.PushClear?
    ensures PushStep(t, m, th, m', th') && (CanWin(m, th.pc) ==> m' != m) && m'.id == m.id
    ensures PushDistance(m', th'.pc) < PushDistance(m, th.pc)
  {
    m' := m;
    match th.pc
    case PushInit(n) => m', th' := Write(m, n, m.heap[n].(prev := None)), th.(pc := PushLoad(n));
    case PushLoad(n) => th' := th.(pc := PushHazard(n, m.tail));
    case PushHazard(n, tl) => th' := th.(pc := PushCheck(n, tl), slot0 := Some(tl));
    case PushCheck(n, tl) => th' := th.(pc := if m.tail == tl then PushNext(n, tl) else PushLoad(n));
    case PushNext(n, tl) => m', th' := Write(m, n, m.heap[n].(next := Some(tl))), th.(pc := PushCas(n, tl));
    case PushCas(n, tl) =>
      if m.tail == tl {
        m', th' := Enqueue(t, m, n), th.(pc := PushLink(n, tl, |m.order|));
      } else {
        th' := th.(pc := PushLoad(n));
      }
    case PushLink(n, tl, _) => m', th' := Write(m, tl, m.heap[tl].(prev := Some(n))), th.(pc := PushClear(tl));
    case PushClear(_) => th' := th.(pc := Idle, slot0 := None);
  }

  ghost predicate Popping(pc: Pc) {
    || pc.PopLoad? || pc.PopHazard? || pc.PopCheck? || pc.PopPrev? || pc.PopEmpty? || pc.PopHazard1? || pc.PopCheck1?
    || pc.PopValue? || pc.PopCas? || pc.PopClear0? || pc.PopClear1? || pc.PopRetire?
  }

  lemma PopGoesOn(t: Tid, m: Mem, th: Thread) returns (m': Mem, th': Thread)
    requires OwnsInv(m, t, th.pc) && PopInv(m, th.pc) && GuardInv(m, th, 1) && (Popping(th.pc) || th.pc.Idle?)
    ensures PopStep(t, m, th, m', th') && (CanWin(m, th.pc) ==> m' != m) && m'.id == m.id
    ensures th.pc.Idle? || PopDistance(m', th'.pc) < PopDistance(m, th.pc)
  {
    m' := m;
    match th.pc
    case Idle => th' := th.(pc := PopLoad);
    case PopLoad => th' := th.(pc := PopHazard(m.head));
    case PopHazard(h) => th' := th.(pc := PopCheck(h), slot0 := Some(h));
    case PopCheck(h) => th' := th.(pc := if m.head == h then PopPrev(h) else PopLoad);
    case PopPrev(h) =>
      th' := th.(pc := if m.heap[h].prev.Some? then PopHazard1(h, m.heap[h].prev.value) else PopEmpty(h));
    case PopEmpty(_) => th' := th.(pc := Idle, slot0 := None);
    case PopHazard1(h, p) => th' := th.(pc := PopCheck1(h, p), slot1 := Some(p));
    case PopCheck1(h, p) => th' := th.(pc := if m.head == h then PopValue(h, p) else PopLoad);
    case PopValue(h, p) => th' := th.(pc := PopCas(h, p, m.heap[p].value));
    case PopCas(h, p, v) =>
      if m.head == h {
        m', th' := Dequeue(t, m, p, v), th.(pc := PopClear0(h, p));
        assert |m'.popped| > |m.popped|;
      } else {
        th' := th.(pc := PopLoad);
      }
    case PopClear0(h, p) => th' := th.(pc := PopClear1(h, p), slot0 := None);
    case PopClear1(h, _) => th' := th.(pc := PopRetire(h), slot1 := None);
    case PopRetire(h) =>
      m', th' := Write(m, h, m.heap[h].(place := Retired(t))), th.(pc := Idle, retired := [h] + th.retired);
  }

  lemma ScanGoesOn(threads: map<Tid, Thread>, records: seq<Tid>, heap: map<Node, Cell>, th: Thread)
    returns (heap': map<Node, Cell>, th': Thread)
    requires (th.pc.ScanRead? || th.pc.ScanSweep?) && RestInv(threads, th.pc)
    ensures ScanStep(threads, records, heap, th, heap', th') && ScanDistance(th') < ScanDistance(th)
  {
    heap' := heap;
    match th.pc
    case ScanRead(rest, k, seen) =>
      if rest == [] {
        th' := th.(pc := ScanSweep(th.retired, seen), retired := []);
      } else {
        assert rest[0] in rest;
        var found := Found(Slot(threads[rest[0]], k));
        th' := th.(pc := if k == 0 then ScanRead(rest, 1, seen + found) else ScanRead(rest[1..], 0, seen + found));
      }
    case ScanSweep(pending, seen) =>
      if pending == [] {
        th' := th.(pc := Idle);
      } else if pending[0] in seen {
        th' := th.(pc := ScanSweep(pending[1..], seen), retired := [pending[0]] + th.retired);
      } else {
        heap', th' := heap - {pending[0]}, th.(pc := ScanSweep(pending[1..], seen));
      }
  }

  lemma QueueGoesOn(s: State, t: Tid, th: Thread, m: Mem) returns (s': State)
    requires t in s.threads && th == s.threads[t] && th.fifo in s.pool.fifos && m == View(s.pool, th.fifo)
    requires ThreadInv(m, t, th) && !th.pc.ScanRead? && !th.pc.ScanSweep?
    ensures QueueStep(s, s', t) && (CanWin(m, th.pc) ==> View(s'.pool, th.fifo) != m)
    ensures s'.threads[t].fifo == th.fifo && (th.pc.Idle? || Distance(s', t) < Distance(s, t))
  {
    var m', th';
    if Popping(th.pc) || th.pc.Idle? {
      m', th' := PopGoesOn(t, m, th);
    } else {
      m', th' := PushGoesOn(t, m, th);
    }
    s' := State(Updated(s.pool, m'), s.threads[t := th'], s.records);
    assert View(s'.pool, th.fifo) == m';
  }

  lemma ThreadGoesOn(s: State, t: Tid) returns (s': State)
    requires Inv(s) && t in s.threads
    ensures s.threads[t].fifo in s.pool.fifos && Step(s, s', t)
    ensures CanWin(View(s.pool, s.threads[t].fifo), s.threads[t].pc) ==> s'.pool != s.pool
    ensures s'.threads[t].fifo == s.threads[t].fifo && s'.threads[t].fifo in s'.pool.fifos
    ensures s.threads[t].pc.Idle? || Distance(s', t) < Distance(s, t)
  {
    var th := s.threads[t];
    assert InPool(s.pool, t, th) && RestInv(s.threads, th.pc);
    if th.pc.ScanRead? || th.pc.ScanSweep? {
      var heap', th' := ScanGoesOn(s.threads, s.records, s.pool.heap, th);
      s' := State(s.pool.(heap := heap'), s.threads[t := th'], s.records);
      assert Scan(s, s', t);
    } else {
      s' := QueueGoesOn(s, t, th, View(s.pool, th.fifo));
    }
  }

  /** The model's guards never hold a thread back: in every reachable state every thread has a step to take, and a
      compare-and-swap that finds what it read can win. */
  lemma NeverStuck(run: seq<State>, i: nat, t: Tid)
    requires IsRun(Init, Next, run) && i < |run| && t in run[i].threads
    ensures run[i].threads[t].fifo in run[i].pool.fifos
    ensures var s, th := run[i], run[i].threads[t];
      exists s' :: Step(s, s', t) && (CanWin(View(s.pool, th.fifo), th.pc) ==> s'.pool != s.pool)
  {
    RunInv(run, i);
    var s' := ThreadGoesOn(run[i], t);
  }

  ghost predicate CanFinish(s: State, t: Tid, k: nat)
    decreases k
  {
    t in s.threads && (s.threads[t].pc.Idle? || (k > 0 && exists s' :: Step(s, s', t) && CanFinish(s', t, k - 1)))
  }

  lemma {:induction false} Finishes(s: State, t: Tid, k: nat)
    requires Inv(s) && t in s.threads && s.threads[t].fifo in s.pool.fifos && Distance(s, t) <= k
    ensures CanFinish(s, t, k)
    decreases k
  {
    if !s.threads[t].pc.Idle? {
      var s' := ThreadGoesOn(s, t);
      StepKeeps(s, s', t);
      Finishes(s', t, k - 1);
    }
  }

  /** From every reachable state every thread can finish its push, pop or scan alone: a push within nine steps, a pop
      within fourteen, a scan within two for each record and one for each retired node, and two or three more. */
  lemma CompletesAlone(run: seq<State>, i: nat, t: Tid)
    requires IsRun(Init, Next, run) && i < |run| && t in run[i].threads
    ensures var th := run[i].threads[t];
      CanFinish(run[i], t, if th.pc.ScanRead? || th.pc.ScanSweep? then ScanDistance(th) else 14)
  {
    RunInv(run, i);
    assert InPool(run[i].pool, t, run[i].threads[t]);
    var th := run[i].threads[t];
    Finishes(run[i], t, if th.pc.ScanRead? || th.pc.ScanSweep? then ScanDistance(th) else 14);
  }

  /** u has won the tail CAS for the oldest unpopped value of the FIFO and has yet to link it. */
  ghost predicate NextPushUnlinked(s: State, q: Fid, u: Tid) {
    q in s.pool.fifos && Owes(s.threads, u, q, |s.pool.fifos[q].popped| + 1)
  }

  /** Exactly when a pop finds nothing: the queue is drained, or the next push has not linked its node yet. */
  lemma EmptyExactly(run: seq<State>, i: nat, t: Tid)
    requires IsRun(Init, Next, run) && i < |run| && t in run[i].threads && run[i].threads[t].pc.PopPrev?
    ensures var s, h, q := run[i], run[i].threads[t].pc.h, run[i].threads[t].fifo;
      h in s.pool.heap && q in s.pool.fifos && (s.pool.heap[h].prev == None <==>
        h == s.pool.fifos[q].head
        && (s.pool.fifos[q].popped == s.pool.fifos[q].pushed || exists u :: NextPushUnlinked(s, q, u)))
  {
    RunInv(run, i);
    assert InPool(run[i].pool, t, run[i].threads[t]);
    FirstLinkExactly(run[i], run[i].threads[t].fifo);
  }

  lemma FirstLinkExactly(s: State, q: Fid)
    requires Inv(s) && q in s.pool.fifos
    ensures var m := View(s.pool, q);
      && m.head in m.heap
      && (m.heap[m.head].prev == None <==> m.popped == m.pushed || exists u :: NextPushUnlinked(s, q, u))
  {
    var m := View(s.pool, q);
    assert QueueInv(m) && LinkersInv(m, s.threads);
    assert QueuedAt(m, |m.popped|);
    if |m.popped| + 1 < |m.order| {
      assert LinkedOrOwed(m, s.threads, |m.popped| + 1);
      var u := m.heap[m.order[|m.popped| + 1]].place.pusher;
      assert m.heap[m.head].prev == None ==> NextPushUnlinked(s, q, u);
    }
    forall u | NextPushUnlinked(s, q, u) ensures m.heap[m.head].prev == None {
      assert InPool(s.pool, u, s.threads[u]);
    }
  }

  /** What a thread does after reading a link, or after checking that the node it has published is current. */
  lemma LinkReadDecides(t: Tid, m: Mem, th: Thread, m': Mem, th': Thread)
    requires QueueInv(m) && PopInv(m, th.pc) && th.pc.PopPrev?
    requires PushStep(t, m, th, m', th') || PopStep(t, m, th, m', th')
    ensures var h, pc' := th.pc.h, th'.pc;
      && h in m.heap && (pc'.PopEmpty? <==> m.heap[h].prev == None)
      && (!pc'.PopEmpty? ==> pc'.PopHazard1? && pc'.h == h)
      && (!pc'.PopEmpty? && h == m.head ==> |m.popped| + 1 < |m.order| && pc'.p == m.order[|m.popped| + 1])
  {
    assert QueuedAt(m, |m.popped|);
  }

  /** Going on with a published node if it is the last, or first, in order; starting over if it is not. */
  ghost predicate Validates(last: Node, first: Node, pc: Pc, pc': Pc) {
    && (pc.PushCheck? ==> pc' == if pc.tl == last then PushNext(pc.n, pc.tl) else PushLoad(pc.n))
    && (pc.PopCheck? ==> pc' == if pc.h == first then PopPrev(pc.h) else PopLoad)
    && (pc.PopCheck1? ==> pc' == if pc.h == first then PopValue(pc.h, pc.p) else PopLoad)
  }

  lemma CheckDecides(t: Tid, m: Mem, th: Thread, m': Mem, th': Thread)
    requires QueueInv(m) && (PushStep(t, m, th, m', th') || PopStep(t, m, th, m', th'))
    ensures Validates(m.order[|m.order| - 1], m.order[|m.popped|], th.pc, th'.pc)
  {
  }

  /** A pop gives up exactly when the queue is drained or the next push has not linked its node yet; otherwise it goes
      on to the node the link leads to, which is the next in order as long as its head is current. */
  lemma PopGivesUpExactly(run: seq<State>, i: nat, t: Tid)
    requires IsRun(Init, Next, run) && i + 1 < |run|
    requires QueueStep(run[i], run[i + 1], t) && run[i].threads[t].pc.PopPrev?
    ensures var s, h, q, pc' := run[i], run[i].threads[t].pc.h, run[i].threads[t].fifo, run[i + 1].threads[t].pc;
      && var f := s.pool.fifos[q];
      && (pc'.PopEmpty? <==> h == f.head && (f.popped == f.pushed || exists u :: NextPushUnlinked(s, q, u)))
      && (!pc'.PopEmpty? ==> pc'.PopHazard1? && pc'.h == h)
      && (!pc'.PopEmpty? && h == f.head ==> |f.popped| + 1 < |f.order| && pc'.p == f.order[|f.popped| + 1])
  {
    EmptyExactly(run, i, t);
    RunInv(run, i);
    var th, q := run[i].threads[t], run[i].threads[t].fifo;
    assert InPool(run[i].pool, t, th);
    LinkReadDecides(t, View(run[i].pool, q), th, View(run[i + 1].pool, q), run[i + 1].threads[t]);
  }

  /** A thread goes on with the node it has published exactly when that node still is the last, or first, in order;
      otherwise it starts over. */
  lemma ValidatesExactly(run: seq<State>, i: nat, t: Tid)
    requires IsRun(Init, Next, run) && i + 1 < |run| && QueueStep(run[i], run[i + 1], t)
    ensures var f := run[i].pool.fifos[run[i].threads[t].fifo];
      && |f.popped| < |f.order|
      && Validates(f.order[|f.order| - 1], f.order[|f.popped|], run[i].threads[t].pc, run[i + 1].threads[t].pc)
  {
    RunQueue(run, i, run[i].threads[t].fifo);
    StepValidates(run[i], run[i + 1], t, run[i].threads[t].fifo);
  }

  lemma RunQueue(run: seq<State>, i: nat, q: Fid)
    requires IsRun(Init, Next, run) && i < |run| && q in run[i].pool.fifos
    ensures QueueInv(View(run[i].pool, q))
  {
    RunInv(run, i);
  }

  lemma StepValidates(s: State, s': State, t: Tid, q: Fid)
    requires QueueStep(s, s', t) && q == s.threads[t].fifo && QueueInv(View(s.pool, q))
    ensures var f := s.pool.fifos[q];
      Validates(f.order[|f.order| - 1], f.order[|f.popped|], s.threads[t].pc, s'.threads[t].pc)
  {
    CheckDecides(t, View(s.pool, q), s.threads[t], View(s'.pool, q), s'.threads[t]);
  }

  lemma SwapDecides(t: Tid, m: Mem, th: Thread, m': Mem, th': Thread)
    requires QueueInv(m) && PopInv(m, th.pc) && OwnsInv(m, t, th.pc)
    requires PushStep(t, m, th, m', th') || PopStep(t, m, th, m', th')
    ensures var pc, pc' := th.pc, th'.pc;
      && (pc.PushCas? ==> if pc'.PushLink? then m'.order == m.order + [pc.n] else m' == m && pc' == PushLoad(pc.n))
      && (pc.PopCas? ==>
            if pc'.PopClear0? then |m.popped| < |m.pushed| && m'.popped == m.popped + [m.pushed[|m.popped|]]
            else m' == m && pc' == PopLoad)
  {
    assert QueuedAt(m, |m.popped|);
    if |m.popped| + 1 < |m.order| {
      assert QueuedAt(m, |m.popped| + 1);
    }
  }

  /** A push ends only by appending its node, and a pop that wins returns the oldest value; losing a compare-and-swap
      changes nothing and starts over. */
  lemma SwapsExactly(run: seq<State>, i: nat, t: Tid)
    requires IsRun(Init, Next, run) && i + 1 < |run| && QueueStep(run[i], run[i + 1], t)
    ensures var q, pc, pc' := run[i].threads[t].fifo, run[i].threads[t].pc, run[i + 1].threads[t].pc;
      var f, f' := run[i].pool.fifos[q], run[i + 1].pool.fifos[q];
      && (pc.PushCas? ==> if pc'.PushLink? then f'.order == f.order + [pc.n] else f' == f && pc' == PushLoad(pc.n))
      && (pc.PopCas? ==>
            if pc'.PopClear0? then |f.popped| < |f.pushed| && f'.popped == f.popped + [f.pushed[|f.popped|]]
            else f' == f && pc' == PopLoad)
  {
    RunInv(run, i);
    var th, q := run[i].threads[t], run[i].threads[t].fifo;
    assert InPool(run[i].pool, t, th);
    SwapDecides(t, View(run[i].pool, q), th, View(run[i + 1].pool, q), run[i + 1].threads[t]);
  }

  // ---------------------------------------------------------------- what a scan sees, and what it leaves

  ghost predicate Publishes(s: State, u: Tid, n: Node) {
    u in s.threads && (s.threads[u].slot0 == Some(n) || s.threads[u].slot1 == Some(n))
  }

  ghost predicate Scanning(s: State, t: Tid) {
    t in s.threads && (s.threads[t].pc.ScanRead? || s.threads[t].pc.ScanSweep?)
  }

  /** Some thread published n at a moment j of the scan that t is still in at i. */
  ghost predicate PublishedDuringScan(run: seq<State>, t: Tid, i: nat, n: Node) {
    exists j, u :: 0 <= j <= i < |run| && Publishes(run[j], u, n) && ScannedThroughout(run, t, j, i)
  }

  ghost predicate ScannedThroughout(run: seq<State>, t: Tid, j: nat, i: nat) {
    j <= i < |run| && forall k :: j <= k <= i ==> Scanning(run[k], t)
  }

  /** A thread that is not taking the step keeps its program counter. */
  lemma OthersStay(s: State, s': State, t: Tid)
    requires Next(s, s') && t in s.threads && t in s'.threads && !Scan(s, s', t)
    ensures s'.threads[t].pc == s.threads[t].pc || QueueStep(s, s', t)
  {
  }

  lemma ScanSees(s: State, s': State, t: Tid, n: Node)
    requires Scan(s, s', t) && Seen(s'.threads[t].pc, n)
    ensures Scanning(s, t) && (Seen(s.threads[t].pc, n) || exists u :: Publishes(s, u, n))
  {
    if !Seen(s.threads[t].pc, n) {
      var rest := s.threads[t].pc.rest;
      assert Publishes(s, rest[0], n);
    }
  }

  lemma QueueStepSees(t: Tid, m: Mem, th: Thread, m': Mem, th': Thread, n: Node)
    requires PushStep(t, m, th, m', th') || PopStep(t, m, th, m', th')
    ensures !Seen(th'.pc, n)
  {
  }

  /** Where a scanner's seen set comes from in one step. */
  lemma SeenGrows(s: State, s': State, t: Tid, n: Node)
    requires Next(s, s') && t in s.threads && t in s'.threads && Seen(s'.threads[t].pc, n)
    ensures Scanning(s, t) && (Seen(s.threads[t].pc, n) || exists u :: Publishes(s, u, n))
  {
    if Scan(s, s', t) {
      ScanSees(s, s', t, n);
    } else {
      OthersStay(s, s', t);
      if QueueStep(s, s', t) {
        var q := s.threads[t].fifo;
        QueueStepSees(t, View(s.pool, q), s.threads[t], View(s'.pool, q), s'.threads[t], n);
      }
    }
  }

  lemma ThreadsRemain(s: State, s': State, t: Tid)
    requires Next(s, s') && t in s'.threads && Scanning(s', t)
    ensures t in s.threads
  {
  }

  lemma SeenEarlier(run: seq<State>, i: nat, s: State, t: Tid, n: Node)
    requires IsRun(Init, Next, run) && 0 < i < |run| && s == run[i - 1]
    requires t in run[i].threads && Seen(run[i].threads[t].pc, n)
    ensures Scanning(s, t) && Scanning(run[i], t) && (Seen(s.threads[t].pc, n) || exists u :: Publishes(s, u, n))
  {
    assert StepAt(Next, run, i);
    ThreadsRemain(s, run[i], t);
    SeenGrows(s, run[i], t, n);
  }

  lemma Prolonged(run: seq<State>, t: Tid, i: nat, n: Node)
    requires 0 < i < |run| && Scanning(run[i], t) && PublishedDuringScan(run, t, i - 1, n)
    ensures PublishedDuringScan(run, t, i, n)
  {
    var j, u :| 0 <= j <= i - 1 && Publishes(run[j], u, n) && ScannedThroughout(run, t, j, i - 1);
    assert ScannedThroughout(run, t, j, i);
  }

  /** What a scan has seen was published by some thread while that scan was under way. */
  lemma {:induction false} SeenWasPublished(run: seq<State>, i: nat, t: Tid, n: Node)
    requires IsRun(Init, Next, run) && i < |run| && t in run[i].threads && Seen(run[i].threads[t].pc, n)
    ensures PublishedDuringScan(run, t, i, n)
  {
    if i > 0 {
      SeenEarlier(run, i, run[i - 1], t, n);
      if Seen(run[i - 1].threads[t].pc, n) {
        SeenWasPublished(run, i - 1, t, n);
      } else {
        assert ScannedThroughout(run, t, i - 1, i - 1);
      }
      Prolonged(run, t, i, n);
    }
  }

  lemma SweepDecides(s: State, s': State, t: Tid)
    requires Scan(s, s', t) && s.threads[t].pc.ScanSweep? && s.threads[t].pc.pending != []
    requires s.threads[t].pc.pending[0] in s.pool.heap
    ensures var n := s.threads[t].pc.pending[0];
      && (n !in s'.pool.heap <==> n !in s.threads[t].pc.seen)
      && (n in s'.pool.heap ==> n in s'.threads[t].retired)
  {
  }

  /** A sweep keeps a node only if some thread published it during the scan, puts what it keeps back on the list, and
      reclaims everything else. */
  lemma SweepKeepsOnlyPublished(run: seq<State>, i: nat, t: Tid)
    requires IsRun(Init, Next, run) && i + 1 < |run| && Scan(run[i], run[i + 1], t)
    requires run[i].threads[t].pc.ScanSweep? && run[i].threads[t].pc.pending != []
    ensures var n, s' := run[i].threads[t].pc.pending[0], run[i + 1];
      && (n !in s'.pool.heap <==> n !in run[i].threads[t].pc.seen)
      && (n in s'.pool.heap ==> n in s'.threads[t].retired && PublishedDuringScan(run, t, i, n))
  {
    RunInv(run, i);
    assert InPool(run[i].pool, t, run[i].threads[t]);
    var n := run[i].threads[t].pc.pending[0];
    assert n in run[i].threads[t].pc.pending;
    SweepDecides(run[i], run[i + 1], t);
    if n in run[i].threads[t].pc.seen {
      SeenWasPublished(run, i, t, n);
    }
  }

  // ---------------------------------------------------------------- no node is lost

  /** The thread has the node in hand, on its retired list, or in the part of it that a sweep has yet to decide. */
  ghost predicate Responsible(th: Thread, place: Place, n: Node) {
    match place
    case Private(_) =>
      && (|| th.pc.PushInit? || th.pc.PushLoad? || th.pc.PushHazard? || th.pc.PushCheck? || th.pc.PushNext?
          || th.pc.PushCas?)
      && th.pc.n == n
    case Removed(_) => (th.pc.PopClear0? || th.pc.PopClear1? || th.pc.PopRetire?) && th.pc.h == n
    case Retired(_) => n in th.retired || (th.pc.ScanSweep? && n in th.pc.pending)
    case Queued(_, _, _) => true
  }

  ghost predicate InFifo(f: Fifo, i: nat, n: Node) {
    |f.popped| <= i < |f.order| && f.order[i] == n
  }

  ghost predicate Accounted(p: Pool, threads: map<Tid, Thread>, n: Node)
    requires n in p.heap
  {
    var place := p.heap[n].place;
    if place.Queued? then place.fifo in p.fifos && InFifo(p.fifos[place.fifo], place.index, n)
    else place.owner in threads && Responsible(threads[place.owner], place, n)
  }

  ghost predicate AllAccounted(s: State) {
    forall n :: n in s.pool.heap ==> Accounted(s.pool, s.threads, n)
  }

  /** How a step of t on one FIFO moves a node: not at all, or between t's hands, that FIFO and t's retired list. */
  ghost predicate Moves(t: Tid, m: Mem, th: Thread, m': Mem, th': Thread, n: Node) {
    && n in m'.heap && var place' := m'.heap[n].place;
    if n in m.heap && m.heap[n].place == place' then
      && (place'.Queued? && place'.fifo == m.id ==>
            (|m.popped| <= place'.index < |m.order| && m.order[place'.index] == n ==>
               |m'.popped| <= place'.index < |m'.order| && m'.order[place'.index] == n))
      && (!place'.Queued? && place'.owner == t && Responsible(th, place', n) ==> Responsible(th', place', n))
    else if place'.Queued? then
      place'.fifo == m.id && |m'.popped| <= place'.index < |m'.order| && m'.order[place'.index] == n
    else place'.owner == t && Responsible(th', place', n)
  }

  lemma PushMoves(t: Tid, m: Mem, th: Thread, m': Mem, th': Thread, n: Node)
    requires QueueInv(m) && OwnsInv(m, t, th.pc) && PushStep(t, m, th, m', th') && n in m'.heap
    ensures Moves(t, m, th, m', th', n)
  {
  }

  lemma PopMoves(t: Tid, m: Mem, th: Thread, m': Mem, th': Thread, n: Node)
    requires QueueInv(m) && OwnsInv(m, t, th.pc) && PopStep(t, m, th, m', th') && n in m'.heap
    ensures Moves(t, m, th, m', th', n)
  {
    assert QueuedAt(m, |m.popped|);
  }

  lemma QueueStepAccounts(s: State, s': State, t: Tid, n: Node)
    requires FifosInv(s.pool) && QueueStep(s, s', t) && InPool(s.pool, t, s.threads[t]) && n in s'.pool.heap
    requires n in s.pool.heap ==> Accounted(s.pool, s.threads, n)
    ensures Accounted(s'.pool, s'.threads, n)
  {
    var th, th', q := s.threads[t], s'.threads[t], s.threads[t].fifo;
    var m, m' := View(s.pool, q), View(s'.pool, q);
    if PushStep(t, m, th, m', th') {
      PushMoves(t, m, th, m', th', n);
    } else {
      PopMoves(t, m, th, m', th', n);
    }
    MovedAccounts(s, s', t, m, m', n);
  }

  lemma MovedAccounts(s: State, s': State, t: Tid, m: Mem, m': Mem, n: Node)
    requires t in s.threads && t in s'.threads && s'.threads == s.threads[t := s'.threads[t]]
    requires m.id in s.pool.fifos && m == View(s.pool, m.id) && m'.id == m.id && s'.pool == Updated(s.pool, m')
    requires Moves(t, m, s.threads[t], m', s'.threads[t], n)
    requires n in s.pool.heap ==> Accounted(s.pool, s.threads, n)
    ensures n in s'.pool.heap && Accounted(s'.pool, s'.threads, n)
  {
  }

  lemma ScanAccounts(s: State, s': State, t: Tid, n: Node)
    requires Scan(s, s', t) && n in s'.pool.heap && n in s.pool.heap && Accounted(s.pool, s.threads, n)
    ensures Accounted(s'.pool, s'.threads, n)
  {
    var pc := s.threads[t].pc;
    if pc.ScanSweep? && pc.pending != [] {
      assert pc.pending == [pc.pending[0]] + pc.pending[1..];
    }
  }

  lemma AccountsKept(s: State, s': State)
    requires Inv(s) && AllAccounted(s) && Next(s, s')
    ensures AllAccounted(s')
  {
    forall n | n in s'.pool.heap ensures Accounted(s'.pool, s'.threads, n) {
      if t :| QueueStep(s, s', t) {
        assert InPool(s.pool, t, s.threads[t]);
        QueueStepAccounts(s, s', t, n);
      } else if t :| Scan(s, s', t) {
        assert n in s.pool.heap;
        ScanAccounts(s, s', t, n);
      } else {
        StillAccounts(s, s', n);
      }
    }
  }

  /** Steps that involve no node but a new FIFO's first. */
  lemma StillAccounts(s: State, s': State, n: Node)
    requires n in s'.pool.heap && (n in s.pool.heap ==> Accounted(s.pool, s.threads, n))
    requires (exists t :: Join(s, s', t)) || (exists q, k :: Create(s, s', q, k)) || (exists t, q :: Turn(s, s', t, q))
    ensures Accounted(s'.pool, s'.threads, n)
  {
  }

  ghost predicate SafeAndAccounted(s: State) {
    Inv(s) && AllAccounted(s)
  }

  lemma Starts(s: State)
    requires Init(s)
    ensures SafeAndAccounted(s)
  {
    InitInv(s);
  }

  lemma GoesOn(s: State, s': State)
    requires SafeAndAccounted(s) && Next(s, s')
    ensures SafeAndAccounted(s')
  {
    NextKeeps(s, s');
    AccountsKept(s, s');
  }

  /** No node is lost: every node that has been allocated and not reclaimed is in the hands of a push or pop in
      progress, in a FIFO between head and tail, or on the retired list of the thread that popped it. */
  lemma NoNodeLost(run: seq<State>, i: nat, n: Node)
    requires IsRun(Init, Next, run) && i < |run| && n in run[i].pool.heap
    ensures var s, place := run[i], run[i].pool.heap[n].place;
      if place.Queued? then place.fifo in s.pool.fifos && InFifo(s.pool.fifos[place.fifo], place.index, n)
      else place.owner in s.threads && Responsible(s.threads[place.owner], place, n)
  {
    forall s | Init(s) ensures SafeAndAccounted(s) { Starts(s); }
    forall s, s' | SafeAndAccounted(s) && Next(s, s') ensures SafeAndAccounted(s') { GoesOn(s, s'); }
    Invariance(Init, Next, SafeAndAccounted, run, i);
    assert Accounted(run[i].pool, run[i].threads, n);
  }
}
