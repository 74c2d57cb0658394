/**
 Multi-producer multi-consumer FIFOs together with the hazard pointers that decide when a popped node may be
 recycled.  Any number of FIFOs share one list of hazard records and one supply of nodes, so a node popped from one
 FIFO may be pushed onto another.  One step is one atomic load, store or compare-and-swap of one thread; any number
 of threads interleave, and threads may join (push a hazard record) and FIFOs appear at any time.

 `heap` holds the nodes that have not been passed to their gc function.  Reclaiming a node removes it,
 and allocation may hand the same address out again, so every ABA scenario is a run of this system.
 A step that dereferences a node is enabled only while that node is in `heap`; `MpmcSafety` shows that this never holds
 a thread back, and draws the other conclusions from the invariant proved here.
 */
module MpmcFifo {
  import opened Common
  import opened Runs

  /** Identities of FIFOs. */
  type Fid = nat

  /** Auxiliary: who is responsible for a node.  No step branches on it. */
  datatype Place =
    | Private(owner: Tid)             // allocated, not yet pushed
    | Queued(fifo: Fid, index: nat, pusher: Tid)  // order[index] of that FIFO, not yet passed by its head
    | Removed(owner: Tid)             // unlinked by owner's head CAS, not yet retired
    | Retired(owner: Tid)             // on owner's retired list

  datatype Cell = Cell(value: Value, prev: Option<Node>, next: Option<Node>, place: Place)

  datatype Pc =
    | Idle
    // mpmc_fifo_push
    | PushInit(n: Node)
    | PushLoad(n: Node)
    | PushHazard(n: Node, tl: Node)
    | PushCheck(n: Node, tl: Node)
    | PushNext(n: Node, tl: Node)
    | PushCas(n: Node, tl: Node)
    | PushLink(n: Node, tl: Node, at: nat)       // at: auxiliary, n == order[at]
    | PushClear(tl: Node)
    // mpmc_fifo_trypop
    | PopLoad
    | PopHazard(h: Node)
    | PopCheck(h: Node)
    | PopPrev(h: Node)
    | PopEmpty(h: Node)
    | PopHazard1(h: Node, p: Node)
    | PopCheck1(h: Node, p: Node)
    | PopValue(h: Node, p: Node)
    | PopCas(h: Node, p: Node, v: Value)
    | PopClear0(h: Node, p: Node)
    | PopClear1(h: Node, p: Node)
    | PopRetire(h: Node)
    // hazard_pointer_scan: `rest` is the suffix of the record list still to visit
    | ScanRead(rest: seq<Tid>, k: nat, seen: set<Node>)
    | ScanSweep(pending: seq<Node>, seen: set<Node>)

  /** A thread: program counter, the FIFO it works on, its record's two hazard slots and its retired list. */
  datatype Thread = Thread(pc: Pc, fifo: Fid, slot0: Option<Node>, slot1: Option<Node>, retired: seq<Node>)

  datatype Fifo = Fifo(
    head: Node,
    tail: Node,
    order: seq<Node>,        // history: the initial node, then nodes in tail-CAS order
    pushed: seq<Value>,      // history: values in tail-CAS order
    popped: seq<Value>)      // history: values in head-CAS order

  /** The memory that an operation on one FIFO works with: all nodes, and that FIFO. */
  datatype Mem = Mem(
    heap: map<Node, Cell>,
    id: Fid,
    head: Node, tail: Node, order: seq<Node>, pushed: seq<Value>, popped: seq<Value>)

  datatype Pool = Pool(heap: map<Node, Cell>, fifos: map<Fid, Fifo>)

  datatype State = State(pool: Pool, threads: map<Tid, Thread>, records: seq<Tid>)  // records: newest first

  ghost function View(p: Pool, q: Fid): Mem
    requires q in p.fifos
  {
    var f := p.fifos[q]; Mem(p.heap, q, f.head, f.tail, f.order, f.pushed, f.popped)
  }

  /** The pool after an operation on one FIFO has changed its view. */
  ghost function Updated(p: Pool, m: Mem): Pool {
    Pool(m.heap, p.fifos[m.id := Fifo(m.head, m.tail, m.order, m.pushed, m.popped)])
  }

  // ---------------------------------------------------------------- transitions

  ghost predicate Init(s: State) {
    exists q, n, v, t :: s == InitState(q, n, v, t)
  }

  ghost function InitState(q: Fid, n: Node, v: Value, t: Tid): State {
    State(Pool(map[n := Cell(v, None, None, Queued(q, 0, t))], map[q := Fifo(n, n, [n], [], [])]), map[], [])
  }

  ghost function Write(m: Mem, n: Node, c: Cell): Mem {
    m.(heap := m.heap[n := c])
  }

  ghost predicate PushStep(t: Tid, m: Mem, th: Thread, m': Mem, th': Thread) {
    match th.pc
    case Idle =>
      th'.pc.PushInit? && Alloc(t, m, th, m', th')
    case PushInit(n) =>
      n in m.heap && m' == Write(m, n, m.heap[n].(prev := None)) && th' == th.(pc := PushLoad(n))
    case PushLoad(n) =>
      m' == m && th' == th.(pc := PushHazard(n, m.tail))
    case PushHazard(n, tl) =>
      m' == m && th' == th.(pc := PushCheck(n, tl), slot0 := Some(tl))
    case PushCheck(n, tl) =>
      m' == m && th' == th.(pc := if m.tail == tl then PushNext(n, tl) else PushLoad(n))
    case PushNext(n, tl) =>
      n in m.heap && m' == Write(m, n, m.heap[n].(next := Some(tl))) && th' == th.(pc := PushCas(n, tl))
    case PushCas(n, tl) =>
      || (m' == m && th' == th.(pc := PushLoad(n)))     // the weak CAS may also fail spuriously
      || (m.tail == tl && n in m.heap && m' == Enqueue(t, m, n) && th' == th.(pc := PushLink(n, tl, |m.order|)))
    case PushLink(n, tl, _) =>
      tl in m.heap && m' == Write(m, tl, m.heap[tl].(prev := Some(n))) && th' == th.(pc := PushClear(tl))
    case PushClear(_) =>
      m' == m && th' == th.(pc := Idle, slot0 := None)
    case _ => false
  }

  /** The caller obtains a node at an address not in use, with arbitrary contents. */
  ghost predicate Alloc(t: Tid, m: Mem, th: Thread, m': Mem, th': Thread)
    requires th'.pc.PushInit?
  {
    var n := th'.pc.n;
    && n !in m.heap && n in m'.heap && m'.heap[n].place == Private(t)
    && m' == Write(m, n, m'.heap[n]) && th' == th.(pc := PushInit(n))
  }

  /** A successful tail CAS, with its effect on the histories. */
  ghost function Enqueue(t: Tid, m: Mem, n: Node): Mem
    requires n in m.heap
  {
    Write(m, n, m.heap[n].(place := Queued(m.id, |m.order|, t)))
    .(tail := n, order := m.order + [n], pushed := m.pushed + [m.heap[n].value])
  }

  /** A successful head CAS. */
  ghost function Dequeue(t: Tid, m: Mem, p: Node, v: Value): Mem
    requires m.head in m.heap
  {
    Write(m, m.head, m.heap[m.head].(place := Removed(t))).(head := p, popped := m.popped + [v])
  }

  ghost predicate PopStep(t: Tid, m: Mem, th: Thread, m': Mem, th': Thread) {
    match th.pc
    case Idle => m' == m && th' == th.(pc := PopLoad)
    case PopLoad => m' == m && th' == th.(pc := PopHazard(m.head))
    case PopHazard(h) => m' == m && th' == th.(pc := PopCheck(h), slot0 := Some(h))
    case PopCheck(h) => m' == m && th' == th.(pc := if m.head == h then PopPrev(h) else PopLoad)
    case PopPrev(h) =>
      && h in m.heap && m' == m
      && th' == th.(pc := match m.heap[h].prev case None => PopEmpty(h) case Some(p) => PopHazard1(h, p))
    case PopEmpty(_) => m' == m && th' == th.(pc := Idle, slot0 := None)
    case PopHazard1(h, p) => m' == m && th' == th.(pc := PopCheck1(h, p), slot1 := Some(p))
    case PopCheck1(h, p) => m' == m && th' == th.(pc := if m.head == h then PopValue(h, p) else PopLoad)
    case PopValue(h, p) => p in m.heap && m' == m && th' == th.(pc := PopCas(h, p, m.heap[p].value))
    case PopCas(h, p, v) =>
      || (m' == m && th' == th.(pc := PopLoad))
      || (m.head == h && h in m.heap && m' == Dequeue(t, m, p, v) && th' == th.(pc := PopClear0(h, p)))
    case PopClear0(h, p) => m' == m && th' == th.(pc := PopClear1(h, p), slot0 := None)
    case PopClear1(h, _) => m' == m && th' == th.(pc := PopRetire(h), slot1 := None)
    case PopRetire(h) =>
      && h in m.heap && m' == Write(m, h, m.heap[h].(place := Retired(t)))
      && th' == th.(pc := Idle, retired := [h] + th.retired)
    case _ => false
  }

  ghost function Slot(th: Thread, k: nat): Option<Node> {
    if k == 0 then th.slot0 else th.slot1
  }

  ghost function Found(slot: Option<Node>): set<Node> {
    match slot case None => {} case Some(n) => {n}
  }

  /**
   A scan reads the two slots of each record one by one, then decides retired nodes one by one.  It may
   start whenever the thread is between operations, which covers every retire threshold.
   */
  ghost predicate ScanStep(threads: map<Tid, Thread>, records: seq<Tid>,
                           heap: map<Node, Cell>, th: Thread, heap': map<Node, Cell>, th': Thread) {
    match th.pc
    case Idle => heap' == heap && th' == th.(pc := ScanRead(records, 0, {}))
    case ScanRead(rest, k, seen) =>
      && heap' == heap
      && if rest == [] then th' == th.(pc := ScanSweep(th.retired, seen), retired := [])
         else
           && rest[0] in threads
           && var found := Found(Slot(threads[rest[0]], k));
              th' == th.(pc := if k == 0 then ScanRead(rest, 1, seen + found) else ScanRead(rest[1..], 0, seen + found))
    case ScanSweep(pending, seen) =>
      if pending == [] then heap' == heap && th' == th.(pc := Idle)
      else if pending[0] in seen then
        heap' == heap && th' == th.(pc := ScanSweep(pending[1..], seen), retired := [pending[0]] + th.retired)
      else
        // the gc function takes the node: its address may be handed out again
        heap' == heap - {pending[0]} && th' == th.(pc := ScanSweep(pending[1..], seen))
    case _ => false
  }

  ghost predicate Join(s: State, s': State, t: Tid) {
    && t !in s.threads && t in s'.threads && s'.threads[t].fifo in s.pool.fifos
    && s' == State(s.pool, s.threads[t := Thread(Idle, s'.threads[t].fifo, None, None, [])], [t] + s.records)
  }

  /** mpmc_fifo_init, with a node at an address not in use. */
  ghost predicate Create(s: State, s': State, q: Fid, n: Node) {
    && q !in s.pool.fifos && n !in s.pool.heap && n in s'.pool.heap
    && s'.pool.heap[n].prev == None && s'.pool.heap[n].place.Queued?
    && s'.pool.heap[n].place.fifo == q && s'.pool.heap[n].place.index == 0
    && s' == s.(pool := Pool(s.pool.heap[n := s'.pool.heap[n]], s.pool.fifos[q := Fifo(n, n, [n], [], [])]))
  }

  /** The caller turns to a FIFO. */
  ghost predicate Turn(s: State, s': State, t: Tid, q: Fid) {
    && t in s.threads && s.threads[t].pc.Idle? && q in s.pool.fifos
    && s' == s.(threads := s.threads[t := s.threads[t].(fifo := q)])
  }

  /** A step of push or trypop on the thread's FIFO. */
  ghost predicate QueueStep(s: State, s': State, t: Tid) {
    && t in s.threads && t in s'.threads && s.threads[t].fifo in s.pool.fifos && s.threads[t].fifo in s'.pool.fifos
    && var th, th', q := s.threads[t], s'.threads[t], s.threads[t].fifo;
       var m, m' := View(s.pool, q), View(s'.pool, q);
       && s' == State(Updated(s.pool, m'), s.threads[t := th'], s.records)
       && (PushStep(t, m, th, m', th') || PopStep(t, m, th, m', th'))
  }

  ghost predicate Scan(s: State, s': State, t: Tid) {
    && t in s.threads && t in s'.threads
    && s' == State(s.pool.(heap := s'.pool.heap), s.threads[t := s'.threads[t]], s.records)
    && ScanStep(s.threads, s.records, s.pool.heap, s.threads[t], s'.pool.heap, s'.threads[t])
  }

  ghost predicate Step(s: State, s': State, t: Tid) {
    QueueStep(s, s', t) || Scan(s, s', t)
  }

  ghost predicate Next(s: State, s': State) {
    || (exists t :: Join(s, s', t) || Step(s, s', t))
    || (exists q, n :: Create(s, s', q, n))
    || (exists t, q :: Turn(s, s', t, q))
  }

  // ---------------------------------------------------------------- invariant

  /** The node a thread has published in slot k and then validated against head or tail. */
  ghost function Guard(pc: Pc, k: nat): Option<Node> {
    if k == 0 then
      match pc
      case PushNext(_, tl) => Some(tl)
      case PushCas(_, tl) => Some(tl)
      case PushLink(_, tl, _) => Some(tl)
      case PushClear(tl) => Some(tl)
      case PopPrev(h) => Some(h)
      case PopEmpty(h) => Some(h)
      case PopHazard1(h, _) => Some(h)
      case PopCheck1(h, _) => Some(h)
      case PopValue(h, _) => Some(h)
      case PopCas(h, _, _) => Some(h)
      case PopClear0(h, _) => Some(h)
      case _ => None
    else
      match pc
      case PopValue(_, p) => Some(p)
      case PopCas(_, p, _) => Some(p)
      case PopClear0(_, p) => Some(p)
      case PopClear1(_, p) => Some(p)
      case _ => None
  }

  /** Order, payloads and links of the nodes from head to tail. */
  ghost predicate QueueInv(m: Mem) {
    && |m.popped| < |m.order| == |m.pushed| + 1
    && m.head == m.order[|m.popped|]
    && m.tail == m.order[|m.order| - 1]
    && m.popped <= m.pushed
    && forall i :: |m.popped| <= i < |m.order| ==> QueuedAt(m, i)
  }

  ghost predicate QueuedAt(m: Mem, i: nat)
    requires i < |m.order| == |m.pushed| + 1
  {
    && m.order[i] in m.heap
    && var c := m.heap[m.order[i]];
       && c.place.Queued? && c.place.fifo == m.id && c.place.index == i
       && (i > |m.popped| ==> c.value == m.pushed[i - 1] && c.next == Some(m.order[i - 1]))
       && (c.prev.Some? ==> i + 1 < |m.order| && c.prev.value == m.order[i + 1])
  }

  /** The node a thread owns outright. */
  ghost predicate OwnsInv(m: Mem, t: Tid, pc: Pc) {
    && (pc.PushInit? ==> pc.n in m.heap && m.heap[pc.n].place == Private(t))
    && (pc.PushLoad? || pc.PushHazard? || pc.PushCheck? || pc.PushNext? || pc.PushCas? ==>
          pc.n in m.heap && m.heap[pc.n].place == Private(t) && m.heap[pc.n].prev == None)
    && (pc.PushCas? ==> m.heap[pc.n].next == Some(pc.tl))
    && (pc.PopClear0? || pc.PopClear1? || pc.PopRetire? ==>
          pc.h in m.heap && m.heap[pc.h].place == Removed(t))
  }

  /** An in-flight push still owes the link from order[at - 1] to order[at]. */
  ghost predicate LinkInv(m: Mem, t: Tid, pc: Pc) {
    pc.PushLink? ==>
      && |m.popped| < pc.at < |m.order|
      && m.order[pc.at - 1] == pc.tl && m.order[pc.at] == pc.n
      && pc.tl in m.heap && m.heap[pc.tl].prev == None
      && pc.n in m.heap && m.heap[pc.n].place == Queued(m.id, pc.at, t)
  }

  /** What a popper knows: its validated head is still head, or has left the queue for good. */
  ghost predicate PopInv(m: Mem, pc: Pc) {
    pc.PopPrev? || pc.PopHazard1? || pc.PopCheck1? || pc.PopValue? || pc.PopCas? ==>
      && pc.h in m.heap && !m.heap[pc.h].place.Private?
      && (if m.heap[pc.h].place.Queued? then pc.h == m.head else m.heap[pc.h].prev.Some?)
      && (m.heap[pc.h].place.Queued? && !pc.PopPrev? ==> m.heap[pc.h].prev == Some(pc.p))
      && (m.heap[pc.h].place.Queued? && pc.PopCas? ==> pc.p in m.heap && pc.v == m.heap[pc.p].value)
  }

  /** Where slot 0 has been given back. */
  ghost predicate Unhazarded(pc: Pc) {
    pc.Idle? || pc.PushInit? || pc.PopClear1? || pc.PopRetire? || pc.ScanRead? || pc.ScanSweep?
  }

  /** A published hazard stays in its slot; once validated, its node is neither reclaimed nor reused. */
  ghost predicate GuardInv(m: Mem, th: Thread, k: nat) {
    && (k == 0 && th.pc.PushCheck? ==> th.slot0 == Some(th.pc.tl))
    && (k == 0 && th.pc.PopCheck? ==> th.slot0 == Some(th.pc.h))
    && (k == 1 && th.pc.PopCheck1? ==> th.slot1 == Some(th.pc.p))
    && (k == 0 && Unhazarded(th.pc) ==> th.slot0 == None)
    && (k == 1 && th.pc.PopRetire? ==> th.slot1 == None)
    && (Guard(th.pc, k).Some? ==>
          && Slot(th, k) == Guard(th.pc, k)
          && Guard(th.pc, k).value in m.heap
          && !m.heap[Guard(th.pc, k).value].place.Private?)
  }

  /** Retired nodes still to be decided: the list itself, and what a sweep has left. */
  ghost predicate RetiredInv(m: Mem, t: Tid, th: Thread) {
    && OwnedList(m, t, th.retired)
    && (th.pc.ScanSweep? ==>
          OwnedList(m, t, th.pc.pending) && forall n :: n in th.pc.pending ==> n !in th.retired)
  }

  ghost predicate OwnedList(m: Mem, t: Tid, ns: seq<Node>) {
    && (forall n :: n in ns ==> n in m.heap && m.heap[n].place == Retired(t))
    && NoDuplicates(ns)
  }

  ghost predicate ThreadInv(m: Mem, t: Tid, th: Thread) {
    && OwnsInv(m, t, th.pc) && LinkInv(m, t, th.pc) && PopInv(m, th.pc)
    && GuardInv(m, th, 0) && GuardInv(m, th, 1) && RetiredInv(m, t, th)
  }

  /** Retired nodes that a scan in progress has not decided yet. */
  ghost function Undecided(th: Thread): seq<Node> {
    match th.pc
    case ScanRead(_, _, _) => th.retired
    case ScanSweep(pending, _) => pending
    case _ => []
  }

  ghost predicate Unread(pc: Pc, t: Tid, k: nat) {
    pc.ScanRead? && pc.rest != [] && ((t == pc.rest[0] && pc.k <= k) || t in pc.rest[1..])
  }

  ghost predicate Seen(pc: Pc, n: Node) {
    (pc.ScanRead? && n in pc.seen) || (pc.ScanSweep? && n in pc.seen)
  }

  /** The heart of publish-then-validate: a scan that has not decided a guarded node has seen it, or
      will still read the slot that guards it. */
  ghost predicate Covered(scanner: Thread, t: Tid, th: Thread, k: nat) {
    Guard(th.pc, k).Some? && Guard(th.pc, k).value in Undecided(scanner) ==>
      Seen(scanner.pc, Guard(th.pc, k).value) || Unread(scanner.pc, t, k)
  }

  ghost predicate ScanInv(threads: map<Tid, Thread>) {
    forall u, t :: u in threads && t in threads ==>
      Covered(threads[u], t, threads[t], 0) && Covered(threads[u], t, threads[t], 1)
  }

  /** A missing link is owed by the push that enqueued the node it should lead to. */
  ghost predicate LinkersInv(m: Mem, threads: map<Tid, Thread>)
    requires QueueInv(m)
  {
    forall i :: |m.popped| < i < |m.order| ==> LinkedOrOwed(m, threads, i)
  }

  ghost predicate LinkedOrOwed(m: Mem, threads: map<Tid, Thread>, i: nat)
    requires 0 < i < |m.order| == |m.pushed| + 1
  {
    && QueuedAt(m, i - 1) && QueuedAt(m, i)
    && (m.heap[m.order[i - 1]].prev == None ==> Owes(threads, m.heap[m.order[i]].place.pusher, m.id, i))
  }

  ghost predicate Owes(threads: map<Tid, Thread>, t: Tid, q: Fid, i: nat) {
    t in threads && threads[t].fifo == q && threads[t].pc.PushLink? && threads[t].pc.at == i
  }

  ghost predicate RecordsInv(threads: map<Tid, Thread>, records: seq<Tid>) {
    && (forall t :: t in threads ==> t in records && RestInv(threads, threads[t].pc))
    && (forall t :: t in records ==> t in threads)
  }

  ghost predicate RestInv(threads: map<Tid, Thread>, pc: Pc) {
    pc.ScanRead? ==> pc.k < 2 && forall u :: u in pc.rest ==> u in threads
  }

  ghost predicate FifosInv(p: Pool) {
    forall q :: q in p.fifos ==> QueueInv(View(p, q))
  }

  ghost predicate ThreadsInv(p: Pool, threads: map<Tid, Thread>) {
    forall t :: t in threads ==> InPool(p, t, threads[t])
  }

  ghost predicate InPool(p: Pool, t: Tid, th: Thread) {
    th.fifo in p.fifos && ThreadInv(View(p, th.fifo), t, th)
  }

  ghost predicate LinksInv(p: Pool, threads: map<Tid, Thread>)
    requires FifosInv(p)
  {
    forall q :: q in p.fifos ==> LinkersInv(View(p, q), threads)
  }

  ghost predicate Inv(s: State) {
    && FifosInv(s.pool)
    && ThreadsInv(s.pool, s.threads)
    && RecordsInv(s.threads, s.records)
    && ScanInv(s.threads)
    && LinksInv(s.pool, s.threads)
  }

  // ---------------------------------------------------------------- memory effects on the queue and on other threads

  lemma AllocKeeps(m: Mem, n: Node, c: Cell)
    requires QueueInv(m) && n !in m.heap
    ensures QueueInv(Write(m, n, c))
    ensures forall u, th {:trigger ThreadInv(m, u, th)} :: ThreadInv(m, u, th) ==> ThreadInv(Write(m, n, c), u, th)
  {
    var m' := Write(m, n, c);
    forall i | |m'.popped| <= i < |m'.order| ensures QueuedAt(m', i) {
      assert m'.order[i] == m.order[i] && QueuedAt(m, i);
    }
  }

  /** t rewrites a link field of its private node. */
  lemma PrivateWriteKeeps(m: Mem, t: Tid, n: Node, c: Cell)
    requires QueueInv(m) && n in m.heap && m.heap[n].place == c.place == Private(t)
    ensures QueueInv(Write(m, n, c))
    ensures forall u, th {:trigger ThreadInv(m, u, th)} ::
      u != t && ThreadInv(m, u, th) ==> ThreadInv(Write(m, n, c), u, th)
  {
    var m' := Write(m, n, c);
    forall i | |m'.popped| <= i < |m'.order| ensures QueuedAt(m', i) {
      assert m'.order[i] == m.order[i] && QueuedAt(m, i);
    }
  }

  lemma EnqueueKeeps(m: Mem, t: Tid, n: Node)
    requires QueueInv(m) && n in m.heap && m.heap[n].place == Private(t)
    requires m.heap[n].prev == None && m.heap[n].next == Some(m.tail)
    ensures QueueInv(Enqueue(t, m, n))
    ensures forall u, th {:trigger ThreadInv(m, u, th)} ::
      u != t && ThreadInv(m, u, th) ==> ThreadInv(Enqueue(t, m, n), u, th)
  {
    var m' := Enqueue(t, m, n);
    forall i | |m'.popped| <= i < |m'.order| ensures QueuedAt(m', i) {
      if i < |m.order| {
        assert m'.order[i] == m.order[i] && QueuedAt(m, i);
      }
    }
  }

  lemma LinkKeeps(m: Mem, t: Tid, pc: Pc)
    requires QueueInv(m) && pc.PushLink? && LinkInv(m, t, pc)
    ensures var m' := Write(m, pc.tl, m.heap[pc.tl].(prev := Some(pc.n)));
      && QueueInv(m')
      && forall u, th {:trigger ThreadInv(m, u, th)} :: u != t && ThreadInv(m, u, th) ==> ThreadInv(m', u, th)
  {
    var m' := Write(m, pc.tl, m.heap[pc.tl].(prev := Some(pc.n)));
    assert QueuedAt(m, pc.at - 1) && QueuedAt(m, pc.at);
    forall u, th | u != t && ThreadInv(m, u, th) ensures ThreadInv(m', u, th) {
      if th.pc.PushLink? {
        assert QueuedAt(m, th.pc.at - 1);
      }
    }
    forall i | |m'.popped| <= i < |m'.order| ensures QueuedAt(m', i) {
      assert m'.order[i] == m.order[i] && QueuedAt(m, i);
    }
  }

  lemma DequeueKeeps(m: Mem, t: Tid, p: Node, v: Value)
    requires QueueInv(m) && m.head in m.heap && m.heap[m.head].prev == Some(p)
    requires p in m.heap && v == m.heap[p].value
    ensures QueueInv(Dequeue(t, m, p, v))
    ensures forall u, th {:trigger ThreadInv(m, u, th)} ::
      u != t && ThreadInv(m, u, th) ==> ThreadInv(Dequeue(t, m, p, v), u, th)
  {
    var m' := Dequeue(t, m, p, v);
    assert QueuedAt(m, |m.popped|) && QueuedAt(m, |m.popped| + 1);
    forall i | |m'.popped| <= i < |m'.order| ensures QueuedAt(m', i) {
      assert m'.order[i] == m.order[i] && QueuedAt(m, i);
    }
  }

  lemma RetireKeeps(m: Mem, t: Tid, n: Node)
    requires QueueInv(m) && n in m.heap && m.heap[n].place == Removed(t)
    ensures var m' := Write(m, n, m.heap[n].(place := Retired(t)));
      && QueueInv(m')
      && forall u, th {:trigger ThreadInv(m, u, th)} :: u != t && ThreadInv(m, u, th) ==> ThreadInv(m', u, th)
  {
    var m' := Write(m, n, m.heap[n].(place := Retired(t)));
    forall i | |m'.popped| <= i < |m'.order| ensures QueuedAt(m', i) {
      assert m'.order[i] == m.order[i] && QueuedAt(m, i);
    }
  }

  /** The memory once the gc function has taken a node. */
  ghost function Reclaim(m: Mem, n: Node): Mem {
    m.(heap := m.heap - {n})
  }

  lemma ReclaimKeeps(m: Mem, t: Tid, n: Node)
    requires QueueInv(m) && n in m.heap && m.heap[n].place == Retired(t)
    ensures QueueInv(Reclaim(m, n))
    ensures forall u, th {:trigger ThreadInv(m, u, th)} ::
              (u != t && ThreadInv(m, u, th) && Guard(th.pc, 0) != Some(n) && Guard(th.pc, 1) != Some(n)) ==>
                ThreadInv(Reclaim(m, n), u, th)
  {
    var m' := Reclaim(m, n);
    forall i | |m'.popped| <= i < |m'.order| ensures QueuedAt(m', i) {
      assert m'.order[i] == m.order[i] && QueuedAt(m, i);
    }
  }

  /** t changes a node of another FIFO, or hands its own new node to another FIFO. */
  ghost predicate Foreign(m: Mem, t: Tid, n: Node, c: Cell) {
    && n in m.heap && var place := m.heap[n].place;
    && (place == Private(t) || (place.Queued? && place.fifo != m.id))
    && (c.place == Removed(t) || (c.place.Queued? && c.place.fifo != m.id))
  }

  lemma ForeignQueue(m: Mem, t: Tid, n: Node, c: Cell)
    requires QueueInv(m) && Foreign(m, t, n, c)
    ensures QueueInv(Write(m, n, c))
  {
    var m' := Write(m, n, c);
    forall i | |m'.popped| <= i < |m'.order| ensures QueuedAt(m', i) {
      assert m'.order[i] == m.order[i] && QueuedAt(m, i);
    }
  }

  lemma ForeignThread(m: Mem, t: Tid, n: Node, c: Cell, u: Tid, th: Thread)
    requires QueueInv(m) && Foreign(m, t, n, c) && u != t && ThreadInv(m, u, th)
    ensures ThreadInv(Write(m, n, c), u, th)
  {
    assert QueuedAt(m, |m.popped|);
    if |m.popped| + 1 < |m.order| {
      assert QueuedAt(m, |m.popped| + 1);
    }
    if th.pc.PushLink? {
      assert QueuedAt(m, th.pc.at - 1);
    }
  }

  // ---------------------------------------------------------------- a step of t, seen by t

  lemma PushStepRetired(t: Tid, m: Mem, th: Thread, m': Mem, th': Thread)
    requires QueueInv(m) && ThreadInv(m, t, th) && PushStep(t, m, th, m', th')
    ensures RetiredInv(m', t, th')
  {
    assert QueuedAt(m, |m.order| - 1);
  }

  lemma PushStepGuarded(t: Tid, m: Mem, th: Thread, m': Mem, th': Thread)
    requires QueueInv(m) && ThreadInv(m, t, th) && PushStep(t, m, th, m', th')
    ensures GuardInv(m', th', 0) && GuardInv(m', th', 1)
  {
    assert QueuedAt(m, |m.order| - 1);
  }

  lemma PushStepLinks(t: Tid, m: Mem, th: Thread, m': Mem, th': Thread)
    requires QueueInv(m) && OwnsInv(m, t, th.pc) && GuardInv(m, th, 0) && PushStep(t, m, th, m', th')
    ensures LinkInv(m', t, th'.pc)
  {
    assert QueuedAt(m, |m.order| - 1);
  }

  lemma PushStepOwns(t: Tid, m: Mem, th: Thread, m': Mem, th': Thread)
    requires OwnsInv(m, t, th.pc) && PushStep(t, m, th, m', th')
    ensures OwnsInv(m', t, th'.pc) && PopInv(m', th'.pc)
  {
  }

  lemma PushStepOwn(t: Tid, m: Mem, th: Thread, m': Mem, th': Thread)
    requires QueueInv(m) && ThreadInv(m, t, th) && PushStep(t, m, th, m', th')
    ensures ThreadInv(m', t, th')
  {
    PushStepRetired(t, m, th, m', th');
    PushStepGuarded(t, m, th, m', th');
    PushStepLinks(t, m, th, m', th');
    PushStepOwns(t, m, th, m', th');
  }

  lemma PopStepRetired(t: Tid, m: Mem, th: Thread, m': Mem, th': Thread)
    requires QueueInv(m) && ThreadInv(m, t, th) && PopStep(t, m, th, m', th')
    ensures RetiredInv(m', t, th')
  {
    assert QueuedAt(m, |m.popped|);
  }

  /** Steps of a pop that only read, and validate at most one node. */
  lemma PopReadGuarded(t: Tid, m: Mem, th: Thread, th': Thread, k: nat)
    requires QueueInv(m) && GuardInv(m, th, k) && PopInv(m, th.pc) && PopStep(t, m, th, m, th') && k < 2
    ensures GuardInv(m, th', k)
  {
    if th.pc.PopCheck? {
      assert QueuedAt(m, |m.popped|);
    } else if th.pc.PopCheck1? {
      HeadLeadsToQueued(m, th.pc);
    } else {
      PopMoveGuarded(t, m, th, th', k);
    }
  }

  lemma PopMoveGuarded(t: Tid, m: Mem, th: Thread, th': Thread, k: nat)
    requires GuardInv(m, th, k) && PopStep(t, m, th, m, th') && k < 2 && !th.pc.PopCheck? && !th.pc.PopCheck1?
    ensures GuardInv(m, th', k)
  {
  }

  /** While a popper's head is current, the node it leads to is queued. */
  lemma HeadLeadsToQueued(m: Mem, pc: Pc)
    requires QueueInv(m) && pc.PopCheck1? && PopInv(m, pc)
    ensures pc.h == m.head ==> pc.p in m.heap && m.heap[pc.p].place.Queued?
  {
    assert QueuedAt(m, |m.popped|);
    if |m.popped| + 1 < |m.order| {
      assert QueuedAt(m, |m.popped| + 1);
    }
  }

  lemma PopWriteGuarded(t: Tid, m: Mem, th: Thread, m': Mem, th': Thread, k: nat)
    requires GuardInv(m, th, k) && PopStep(t, m, th, m', th') && m' != m && k < 2
    ensures GuardInv(m', th', k)
  {
  }

  lemma PopStepGuarded(t: Tid, m: Mem, th: Thread, m': Mem, th': Thread, k: nat)
    requires QueueInv(m) && GuardInv(m, th, k) && PopInv(m, th.pc) && PopStep(t, m, th, m', th') && k < 2
    ensures GuardInv(m', th', k)
  {
    if m' == m {
      PopReadGuarded(t, m, th, th', k);
    } else {
      PopWriteGuarded(t, m, th, m', th', k);
    }
  }

  lemma PopStepPops(t: Tid, m: Mem, th: Thread, m': Mem, th': Thread)
    requires QueueInv(m) && OwnsInv(m, t, th.pc) && PopInv(m, th.pc) && PopStep(t, m, th, m', th')
    ensures OwnsInv(m', t, th'.pc) && PopInv(m', th'.pc) && LinkInv(m', t, th'.pc)
  {
    assert QueuedAt(m, |m.popped|);
    if |m.popped| + 1 < |m.order| {
      assert QueuedAt(m, |m.popped| + 1);
    }
  }

  lemma PopStepOwn(t: Tid, m: Mem, th: Thread, m': Mem, th': Thread)
    requires QueueInv(m) && ThreadInv(m, t, th) && PopStep(t, m, th, m', th')
    ensures ThreadInv(m', t, th')
  {
    PopStepRetired(t, m, th, m', th');
    PopStepGuarded(t, m, th, m', th', 0);
    PopStepGuarded(t, m, th, m', th', 1);
    PopStepPops(t, m, th, m', th');
  }

  lemma ScanStepOwn(t: Tid, threads: map<Tid, Thread>, records: seq<Tid>, m: Mem, th: Thread, m': Mem, th': Thread)
    requires ThreadInv(m, t, th) && ScanStep(threads, records, m.heap, th, m'.heap, th')
    ensures ThreadInv(m', t, th')
  {
    ScanStepRetired(t, threads, records, m, th, m', th');
  }

  lemma ScanStepRetired(t: Tid, threads: map<Tid, Thread>, records: seq<Tid>, m: Mem, th: Thread, m': Mem, th': Thread)
    requires RetiredInv(m, t, th) && ScanStep(threads, records, m.heap, th, m'.heap, th')
    ensures RetiredInv(m', t, th')
  {
    if th.pc.ScanSweep? && th.pc.pending != [] {
      var n, rest := th.pc.pending[0], th.pc.pending[1..];
      assert n !in rest && n !in th.retired;
      assert OwnedList(m', t, th'.retired);
      assert OwnedList(m', t, rest);
    }
  }

  // ---------------------------------------------------------------- a step of t, seen by the others

  lemma PushStepOthers(t: Tid, m: Mem, th: Thread, m': Mem, th': Thread)
    requires QueueInv(m) && ThreadInv(m, t, th) && PushStep(t, m, th, m', th')
    ensures QueueInv(m')
    ensures forall u, ot {:trigger ThreadInv(m, u, ot)} :: u != t && ThreadInv(m, u, ot) ==> ThreadInv(m', u, ot)
  {
    match th.pc
    case Idle => AllocKeeps(m, th'.pc.n, m'.heap[th'.pc.n]);
    case PushInit(n) => PrivateWriteKeeps(m, t, n, m'.heap[n]);
    case PushNext(n, _) => PrivateWriteKeeps(m, t, n, m'.heap[n]);
    case PushCas(n, _) => if m' != m { EnqueueKeeps(m, t, n); }
    case PushLink(_, _, _) => LinkKeeps(m, t, th.pc);
    case _ =>
  }

  lemma PopStepOthers(t: Tid, m: Mem, th: Thread, m': Mem, th': Thread)
    requires QueueInv(m) && ThreadInv(m, t, th) && PopStep(t, m, th, m', th')
    ensures QueueInv(m')
    ensures forall u, ot {:trigger ThreadInv(m, u, ot)} :: u != t && ThreadInv(m, u, ot) ==> ThreadInv(m', u, ot)
  {
    match th.pc
    case PopCas(_, p, v) => if m' != m { assert QueuedAt(m, |m.popped|); DequeueKeeps(m, t, p, v); }
    case PopRetire(h) => RetireKeeps(m, t, h);
    case _ =>
  }

  /** The same memory seen from another FIFO. */
  ghost predicate Beside(m: Mem, mo: Mem) {
    mo.heap == m.heap && mo.id != m.id
  }

  lemma PushStepElsewhere(t: Tid, m: Mem, th: Thread, m': Mem, th': Thread, mo: Mem)
    requires QueueInv(m) && ThreadInv(m, t, th) && PushStep(t, m, th, m', th') && Beside(m, mo) && QueueInv(mo)
    ensures QueueInv(mo.(heap := m'.heap))
    ensures forall u, ot {:trigger ThreadInv(mo, u, ot)} ::
      u != t && ThreadInv(mo, u, ot) ==> ThreadInv(mo.(heap := m'.heap), u, ot)
  {
    match th.pc
    case Idle => AllocKeeps(mo, th'.pc.n, m'.heap[th'.pc.n]);
    case PushInit(n) => PrivateWriteKeeps(mo, t, n, m'.heap[n]);
    case PushNext(n, _) => PrivateWriteKeeps(mo, t, n, m'.heap[n]);
    case PushCas(n, _) => if m' != m { ForeignKeeps(mo, t, n, m'.heap[n]); }
    case PushLink(_, tl, at) =>
      assert QueuedAt(m, at - 1);
      ForeignKeeps(mo, t, tl, m'.heap[tl]);
    case _ =>
  }

  lemma ForeignKeeps(m: Mem, t: Tid, n: Node, c: Cell)
    requires QueueInv(m) && Foreign(m, t, n, c)
    ensures QueueInv(Write(m, n, c))
    ensures forall u, th {:trigger ThreadInv(m, u, th)} ::
      u != t && ThreadInv(m, u, th) ==> ThreadInv(Write(m, n, c), u, th)
  {
    ForeignQueue(m, t, n, c);
    forall u, th | u != t && ThreadInv(m, u, th) ensures ThreadInv(Write(m, n, c), u, th) {
      ForeignThread(m, t, n, c, u, th);
    }
  }

  lemma PopStepElsewhere(t: Tid, m: Mem, th: Thread, m': Mem, th': Thread, mo: Mem)
    requires QueueInv(m) && ThreadInv(m, t, th) && PopStep(t, m, th, m', th') && Beside(m, mo) && QueueInv(mo)
    ensures QueueInv(mo.(heap := m'.heap))
    ensures forall u, ot {:trigger ThreadInv(mo, u, ot)} ::
      u != t && ThreadInv(mo, u, ot) ==> ThreadInv(mo.(heap := m'.heap), u, ot)
  {
    match th.pc
    case PopCas(h, _, _) =>
      if m' != m {
        assert QueuedAt(m, |m.popped|);
        ForeignKeeps(mo, t, h, m'.heap[h]);
      }
    case PopRetire(h) => RetireKeeps(mo, t, h);
    case _ =>
  }

  // ---------------------------------------------------------------- scans against guards

  /** A step that acquires a guard acquires it on a node still in a queue. */
  ghost predicate NewGuard(heap: map<Node, Cell>, pc: Pc, pc': Pc, k: nat) {
    || Guard(pc', k) in {None, Guard(pc, k)}
    || (Guard(pc', k).value in heap && heap[Guard(pc', k).value].place.Queued?)
  }

  lemma PushStepGuards(t: Tid, m: Mem, th: Thread, m': Mem, th': Thread, k: nat)
    requires QueueInv(m) && PushStep(t, m, th, m', th') && k < 2
    ensures NewGuard(m.heap, th.pc, th'.pc, k) && Undecided(th') == []
  {
    assert QueuedAt(m, |m.order| - 1);
  }

  lemma PopStepGuards(t: Tid, m: Mem, th: Thread, m': Mem, th': Thread, k: nat)
    requires QueueInv(m) && PopInv(m, th.pc) && PopStep(t, m, th, m', th') && k < 2
    ensures NewGuard(m.heap, th.pc, th'.pc, k) && Undecided(th') == []
  {
    assert QueuedAt(m, |m.popped|);
    if |m.popped| + 1 < |m.order| {
      assert QueuedAt(m, |m.popped| + 1);
    }
  }

  ghost predicate UndecidedRetired(heap: map<Node, Cell>, th: Thread) {
    forall n :: n in Undecided(th) ==> n in heap && heap[n].place.Retired?
  }

  /** Validation cannot succeed on a node some scan is about to decide. */
  lemma GuardMoves(heap: map<Node, Cell>, threads: map<Tid, Thread>, t: Tid, th': Thread)
    requires ScanInv(threads) && t in threads && Undecided(th') == []
    requires NewGuard(heap, threads[t].pc, th'.pc, 0) && NewGuard(heap, threads[t].pc, th'.pc, 1)
    requires forall u :: u in threads ==> UndecidedRetired(heap, threads[u])
    ensures ScanInv(threads[t := th'])
  {
    var threads' := threads[t := th'];
    forall u, v | u in threads' && v in threads'
      ensures Covered(threads'[u], v, threads'[v], 0) && Covered(threads'[u], v, threads'[v], 1)
    {
      assert Covered(threads[u], v, threads[v], 0) && Covered(threads[u], v, threads[v], 1);
      assert UndecidedRetired(heap, threads[u]);
    }
  }

  lemma QueueStepScans(s: State, s': State, t: Tid)
    requires Inv(s) && QueueStep(s, s', t)
    ensures ScanInv(s'.threads)
  {
    var th, th', q := s.threads[t], s'.threads[t], s.threads[t].fifo;
    var m, m' := View(s.pool, q), View(s'.pool, q);
    assert InPool(s.pool, t, th);
    forall u | u in s.threads ensures UndecidedRetired(s.pool.heap, s.threads[u]) {
      assert InPool(s.pool, u, s.threads[u]);
    }
    if PushStep(t, m, th, m', th') {
      PushStepGuards(t, m, th, m', th', 0);
      PushStepGuards(t, m, th, m', th', 1);
    } else {
      PopStepGuards(t, m, th, m', th', 0);
      PopStepGuards(t, m, th, m', th', 1);
    }
    GuardMoves(s.pool.heap, s.threads, t, th');
  }

  lemma ScanStepCovers(threads: map<Tid, Thread>, records: seq<Tid>, heap: map<Node, Cell>, th: Thread,
                       heap': map<Node, Cell>, th': Thread, v: Tid, k: nat)
    requires ScanStep(threads, records, heap, th, heap', th') && v in threads && v in records && k < 2
    requires Published(threads[v], k)
    requires Covered(th, v, threads[v], k) && RestInv(threads, th.pc)
    ensures Covered(th', v, threads[v], k)
  {
  }

  /** A scanner guards nothing, so only its own view of the others matters. */
  lemma ScannerMoves(threads: map<Tid, Thread>, t: Tid, th': Thread)
    requires ScanInv(threads) && t in threads && Guard(th'.pc, 0) == None && Guard(th'.pc, 1) == None
    requires forall v :: v in threads && v != t ==> Covered(th', v, threads[v], 0) && Covered(th', v, threads[v], 1)
    ensures ScanInv(threads[t := th'])
  {
    var threads' := threads[t := th'];
    forall u, v | u in threads' && v in threads'
      ensures Covered(threads'[u], v, threads'[v], 0) && Covered(threads'[u], v, threads'[v], 1)
    {
      if u != t && v != t {
        assert Covered(threads[u], v, threads[v], 0) && Covered(threads[u], v, threads[v], 1);
      }
    }
  }

  ghost predicate Published(th: Thread, k: nat) {
    Guard(th.pc, k).Some? ==> Slot(th, k) == Guard(th.pc, k)
  }

  lemma ScanStepScans(s: State, s': State, t: Tid)
    requires ThreadsInv(s.pool, s.threads) && RecordsInv(s.threads, s.records) && ScanInv(s.threads) && Scan(s, s', t)
    ensures ScanInv(s'.threads)
  {
    var th, th' := s.threads[t], s'.threads[t];
    forall v | v in s.threads && v != t
      ensures Covered(th', v, s.threads[v], 0) && Covered(th', v, s.threads[v], 1)
    {
      assert InPool(s.pool, v, s.threads[v]);
      assert Published(s.threads[v], 0) && Published(s.threads[v], 1);
      ScanStepCoversBoth(s, s', t, v);
    }
    ScannerMoves(s.threads, t, th');
  }

  lemma ScanStepCoversBoth(s: State, s': State, t: Tid, v: Tid)
    requires RecordsInv(s.threads, s.records) && ScanInv(s.threads) && Scan(s, s', t) && v in s.threads
    requires Published(s.threads[v], 0) && Published(s.threads[v], 1)
    ensures Covered(s'.threads[t], v, s.threads[v], 0) && Covered(s'.threads[t], v, s.threads[v], 1)
  {
    var th, th' := s.threads[t], s'.threads[t];
    assert RestInv(s.threads, th.pc) && v in s.records;
    assert Covered(th, v, s.threads[v], 0) && Covered(th, v, s.threads[v], 1);
    ScanStepCovers(s.threads, s.records, s.pool.heap, th, s'.pool.heap, th', v, 0);
    ScanStepCovers(s.threads, s.records, s.pool.heap, th, s'.pool.heap, th', v, 1);
  }

  /** Reclaiming is safe: a node no scan entry covers is guarded by nobody. */
  lemma UnseenIsUnguarded(s: State, t: Tid, u: Tid, k: nat)
    requires Inv(s) && t in s.threads && u in s.threads && k < 2
    requires s.threads[t].pc.ScanSweep?
    ensures forall n :: n in s.threads[t].pc.pending && n !in s.threads[t].pc.seen ==>
      Guard(s.threads[u].pc, k) != Some(n)
  {
    assert Covered(s.threads[t], u, s.threads[u], 0) && Covered(s.threads[t], u, s.threads[u], 1);
  }

  // ---------------------------------------------------------------- owed links

  /** A step by a thread that owes this FIFO nothing and rewrites no link in it. */
  lemma LinkersFrame(m: Mem, m': Mem, threads: map<Tid, Thread>, t: Tid, th': Thread)
    requires QueueInv(m) && QueueInv(m') && LinkersInv(m, threads)
    requires t in threads && !(threads[t].fifo == m.id && threads[t].pc.PushLink?)
    requires SameLinks(m, m')
    ensures LinkersInv(m', threads[t := th'])
  {
    var threads' := threads[t := th'];
    forall i | |m'.popped| < i < |m'.order| ensures LinkedOrOwed(m', threads', i) {
      assert LinkedOrOwed(m, threads, i);
      assert QueuedAt(m', i - 1) && QueuedAt(m', i);
    }
  }

  /** The queue's nodes are unchanged, except that some may have been popped. */
  ghost predicate SameLinks(m: Mem, m': Mem) {
    && m'.id == m.id && m'.order == m.order && m'.pushed == m.pushed && |m.popped| <= |m'.popped|
    && forall i :: |m'.popped| <= i < |m.order| && m.order[i] in m.heap && m.order[i] in m'.heap ==>
         m'.heap[m.order[i]] == m.heap[m.order[i]]
  }

  lemma EnqueueLinkers(m: Mem, threads: map<Tid, Thread>, t: Tid, n: Node, th': Thread)
    requires QueueInv(m) && LinkersInv(m, threads) && n in m.heap && m.heap[n].place == Private(t)
    requires t in threads && !threads[t].pc.PushLink?
    requires th'.fifo == m.id && th'.pc.PushLink? && th'.pc.at == |m.order|
    requires QueueInv(Enqueue(t, m, n))
    ensures LinkersInv(Enqueue(t, m, n), threads[t := th'])
  {
    var m' := Enqueue(t, m, n);
    var threads' := threads[t := th'];
    forall i | |m'.popped| < i < |m'.order| ensures LinkedOrOwed(m', threads', i) {
      assert QueuedAt(m', i - 1) && QueuedAt(m', i);
      if i < |m.order| {
        assert LinkedOrOwed(m, threads, i);
      }
    }
  }

  lemma LinkLinkers(m: Mem, threads: map<Tid, Thread>, t: Tid, th': Thread)
    requires QueueInv(m) && LinkersInv(m, threads)
    requires t in threads && threads[t].pc.PushLink? && LinkInv(m, t, threads[t].pc)
    requires var pc := threads[t].pc; QueueInv(Write(m, pc.tl, m.heap[pc.tl].(prev := Some(pc.n))))
    ensures var pc := threads[t].pc;
      LinkersInv(Write(m, pc.tl, m.heap[pc.tl].(prev := Some(pc.n))), threads[t := th'])
  {
    var pc := threads[t].pc;
    var m' := Write(m, pc.tl, m.heap[pc.tl].(prev := Some(pc.n)));
    var threads' := threads[t := th'];
    forall i | |m'.popped| < i < |m'.order| ensures LinkedOrOwed(m', threads', i) {
      assert LinkedOrOwed(m, threads, i);
      assert QueuedAt(m', i - 1) && QueuedAt(m', i);
    }
  }

  /** Only the push steps that start and settle a debt touch it. */
  lemma StepFramesLinks(t: Tid, m: Mem, th: Thread, m': Mem, th': Thread)
    requires QueueInv(m) && QueueInv(m') && OwnsInv(m, t, th.pc)
    requires PushStep(t, m, th, m', th') || PopStep(t, m, th, m', th')
    requires !th.pc.PushLink? && !th'.pc.PushLink?
    ensures SameLinks(m, m')
  {
    assert |m.popped| <= |m'.popped|;
    forall i | |m'.popped| <= i < |m.order| && m.order[i] in m.heap && m.order[i] in m'.heap
      ensures m'.heap[m.order[i]] == m.heap[m.order[i]]
    {
      assert QueuedAt(m, i) && QueuedAt(m', i);
    }
  }

  lemma StepLinkers(t: Tid, m: Mem, threads: map<Tid, Thread>, m': Mem, th': Thread)
    requires t in threads && QueueInv(m) && QueueInv(m') && LinkersInv(m, threads)
    requires threads[t].fifo == m.id && OwnsInv(m, t, threads[t].pc) && LinkInv(m, t, threads[t].pc)
    requires PushStep(t, m, threads[t], m', th') || PopStep(t, m, threads[t], m', th')
    ensures LinkersInv(m', threads[t := th'])
  {
    var th := threads[t];
    if th.pc.PushLink? {
      LinkLinkers(m, threads, t, th');
    } else if th'.pc.PushLink? {
      EnqueueLinkers(m, threads, t, th.pc.n, th');
    } else {
      StepFramesLinks(t, m, th, m', th');
      LinkersFrame(m, m', threads, t, th');
    }
  }

  /** Another FIFO's nodes are not touched. */
  lemma StepLinkersElsewhere(m: Mem, heap': map<Node, Cell>, threads: map<Tid, Thread>, t: Tid, th': Thread)
    requires t in threads && threads[t].fifo != m.id && QueueInv(m) && LinkersInv(m, threads)
    requires QueueInv(m.(heap := heap'))
    requires forall n :: n in m.heap && n in heap' && m.heap[n].place.Queued? && m.heap[n].place.fifo == m.id ==>
      heap'[n] == m.heap[n]
    ensures LinkersInv(m.(heap := heap'), threads[t := th'])
  {
    forall i | |m.popped| <= i < |m.order| && m.order[i] in m.heap && m.order[i] in heap'
      ensures heap'[m.order[i]] == m.heap[m.order[i]]
    {
      assert QueuedAt(m, i);
    }
    LinkersFrame(m, m.(heap := heap'), threads, t, th');
  }

  // ---------------------------------------------------------------- the invariant is inductive

  /** What a step on one FIFO does to the views of the others. */
  lemma ViewElsewhere(s: State, s': State, t: Tid, q: Fid)
    requires QueueStep(s, s', t) && q in s.pool.fifos && q != s.threads[t].fifo
    ensures q in s'.pool.fifos && View(s'.pool, q) == View(s.pool, q).(heap := s'.pool.heap)
    ensures Beside(View(s.pool, s.threads[t].fifo), View(s.pool, q))
  {
  }

  lemma QueueStepFifos(s: State, s': State, t: Tid)
    requires FifosInv(s.pool) && QueueStep(s, s', t) && InPool(s.pool, t, s.threads[t])
    ensures s'.pool.fifos.Keys == s.pool.fifos.Keys && FifosInv(s'.pool) && InPool(s'.pool, t, s'.threads[t])
  {
    var th, th', q := s.threads[t], s'.threads[t], s.threads[t].fifo;
    var m, m' := View(s.pool, q), View(s'.pool, q);
    QueueStepHere(t, m, th, m', th');
    forall q2 | q2 in s.pool.fifos && q2 != q ensures QueueInv(View(s'.pool, q2)) {
      ViewElsewhere(s, s', t, q2);
      QueueStepElsewhere(t, m, th, m', th', View(s.pool, q2));
    }
  }

  lemma QueueStepThread(s: State, s': State, t: Tid, u: Tid, ot: Thread)
    requires FifosInv(s.pool) && QueueStep(s, s', t) && InPool(s.pool, t, s.threads[t])
    requires u != t && InPool(s.pool, u, ot)
    ensures InPool(s'.pool, u, ot)
  {
    var th, th', q := s.threads[t], s'.threads[t], s.threads[t].fifo;
    var m, m' := View(s.pool, q), View(s'.pool, q);
    if ot.fifo == q {
      QueueStepHere(t, m, th, m', th');
    } else {
      ViewElsewhere(s, s', t, ot.fifo);
      QueueStepElsewhere(t, m, th, m', th', View(s.pool, ot.fifo));
    }
  }

  lemma QueueStepHere(t: Tid, m: Mem, th: Thread, m': Mem, th': Thread)
    requires QueueInv(m) && ThreadInv(m, t, th) && (PushStep(t, m, th, m', th') || PopStep(t, m, th, m', th'))
    ensures QueueInv(m') && ThreadInv(m', t, th')
    ensures forall u, ot {:trigger ThreadInv(m, u, ot)} :: u != t && ThreadInv(m, u, ot) ==> ThreadInv(m', u, ot)
  {
    if PushStep(t, m, th, m', th') {
      PushStepOthers(t, m, th, m', th');
      PushStepOwn(t, m, th, m', th');
    } else {
      PopStepOthers(t, m, th, m', th');
      PopStepOwn(t, m, th, m', th');
    }
  }

  lemma QueueStepElsewhere(t: Tid, m: Mem, th: Thread, m': Mem, th': Thread, mo: Mem)
    requires QueueInv(m) && ThreadInv(m, t, th) && (PushStep(t, m, th, m', th') || PopStep(t, m, th, m', th'))
    requires Beside(m, mo) && QueueInv(mo)
    ensures QueueInv(mo.(heap := m'.heap))
    ensures forall u, ot {:trigger ThreadInv(mo, u, ot)} ::
      u != t && ThreadInv(mo, u, ot) ==> ThreadInv(mo.(heap := m'.heap), u, ot)
  {
    if PushStep(t, m, th, m', th') {
      PushStepElsewhere(t, m, th, m', th', mo);
    } else {
      PopStepElsewhere(t, m, th, m', th', mo);
    }
  }

  /** A step changes queued nodes of its own FIFO only. */
  lemma QueueStepLeaves(t: Tid, m: Mem, th: Thread, m': Mem, th': Thread, n: Node)
    requires QueueInv(m) && OwnsInv(m, t, th.pc) && LinkInv(m, t, th.pc)
    requires PushStep(t, m, th, m', th') || PopStep(t, m, th, m', th')
    requires n in m.heap && n in m'.heap && m.heap[n].place.Queued? && m.heap[n].place.fifo != m.id
    ensures m'.heap[n] == m.heap[n]
  {
    assert QueuedAt(m, |m.popped|);
    if th.pc.PushLink? {
      assert QueuedAt(m, th.pc.at - 1);
    }
  }

  lemma QueueStepLinks(s: State, s': State, t: Tid)
    requires Inv(s) && QueueStep(s, s', t) && FifosInv(s'.pool) && s'.pool.fifos.Keys == s.pool.fifos.Keys
    ensures LinksInv(s'.pool, s'.threads)
  {
    var th, th', q := s.threads[t], s'.threads[t], s.threads[t].fifo;
    var m, m' := View(s.pool, q), View(s'.pool, q);
    assert InPool(s.pool, t, th) && LinkersInv(m, s.threads);
    StepLinkers(t, m, s.threads, m', th');
    forall q2 | q2 in s'.pool.fifos && q2 != q ensures LinkersInv(View(s'.pool, q2), s'.threads) {
      ViewElsewhere(s, s', t, q2);
      var mo := View(s.pool, q2);
      assert LinkersInv(mo, s.threads);
      QueueStepLinksElsewhere(t, m, s.threads, m', th', mo);
    }
  }

  lemma QueueStepLinksElsewhere(t: Tid, m: Mem, threads: map<Tid, Thread>, m': Mem, th': Thread, mo: Mem)
    requires t in threads && threads[t].fifo == m.id && Beside(m, mo)
    requires QueueInv(m) && OwnsInv(m, t, threads[t].pc) && LinkInv(m, t, threads[t].pc)
    requires PushStep(t, m, threads[t], m', th') || PopStep(t, m, threads[t], m', th')
    requires QueueInv(mo) && LinkersInv(mo, threads) && QueueInv(mo.(heap := m'.heap))
    ensures LinkersInv(mo.(heap := m'.heap), threads[t := th'])
  {
    forall n | n in mo.heap && n in m'.heap && mo.heap[n].place.Queued? && mo.heap[n].place.fifo == mo.id
      ensures m'.heap[n] == mo.heap[n]
    {
      QueueStepLeaves(t, m, threads[t], m', th', n);
    }
    StepLinkersElsewhere(mo, m'.heap, threads, t, th');
  }

  /** What a scan step does to every view of the pool. */
  lemma ScanViews(s: State, s': State, t: Tid)
    requires Inv(s) && Scan(s, s', t)
    ensures FifosInv(s'.pool) && ThreadsInv(s'.pool, s'.threads)
  {
    var th, th' := s.threads[t], s'.threads[t];
    assert InPool(s.pool, t, th);
    ScanStepOwn(t, s.threads, s.records, View(s.pool, th.fifo), th, View(s'.pool, th.fifo), th');
    if s'.pool.heap != s.pool.heap {
      var n := th.pc.pending[0];
      forall q | q in s.pool.fifos ensures QueueInv(View(s'.pool, q)) {
        ReclaimKeeps(View(s.pool, q), t, n);
      }
      forall u | u in s.threads && u != t ensures InPool(s'.pool, u, s.threads[u]) {
        assert InPool(s.pool, u, s.threads[u]);
        UnseenIsUnguarded(s, t, u, 0);
        UnseenIsUnguarded(s, t, u, 1);
        ReclaimKeeps(View(s.pool, s.threads[u].fifo), t, n);
      }
    }
  }

  lemma ScanLinks(s: State, s': State, t: Tid)
    requires Inv(s) && Scan(s, s', t) && FifosInv(s'.pool)
    ensures LinksInv(s'.pool, s'.threads)
  {
    forall q | q in s'.pool.fifos ensures LinkersInv(View(s'.pool, q), s'.threads) {
      LinkersFrame(View(s.pool, q), View(s'.pool, q), s.threads, t, s'.threads[t]);
    }
  }

  lemma QueueStepThreads(s: State, s': State, t: Tid)
    requires FifosInv(s.pool) && ThreadsInv(s.pool, s.threads) && QueueStep(s, s', t)
    ensures s'.pool.fifos.Keys == s.pool.fifos.Keys && FifosInv(s'.pool) && ThreadsInv(s'.pool, s'.threads)
  {
    assert InPool(s.pool, t, s.threads[t]);
    QueueStepFifos(s, s', t);
    forall u | u in s'.threads ensures InPool(s'.pool, u, s'.threads[u]) {
      if u != t {
        assert InPool(s.pool, u, s.threads[u]);
        QueueStepThread(s, s', t, u, s.threads[u]);
      }
    }
  }

  lemma StepThreads(s: State, s': State, t: Tid)
    requires Inv(s) && Step(s, s', t)
    ensures FifosInv(s'.pool) && ThreadsInv(s'.pool, s'.threads) && LinksInv(s'.pool, s'.threads)
  {
    if QueueStep(s, s', t) {
      QueueStepThreads(s, s', t);
      QueueStepLinks(s, s', t);
    } else {
      ScanViews(s, s', t);
      ScanLinks(s, s', t);
    }
  }

  /** A thread's step starts a scan with all records, or goes on with one. */
  lemma StepRest(s: State, s': State, t: Tid)
    requires Step(s, s', t) && RestInv(s.threads, s.threads[t].pc) && forall u :: u in s.records ==> u in s.threads
    ensures RestInv(s.threads, s'.threads[t].pc)
  {
  }

  lemma StepRecords(s: State, s': State, t: Tid)
    requires RecordsInv(s.threads, s.records) && Step(s, s', t)
    ensures RecordsInv(s'.threads, s'.records)
  {
    assert RestInv(s.threads, s.threads[t].pc);
    StepRest(s, s', t);
    assert s'.threads.Keys == s.threads.Keys;
  }

  lemma StepKeeps(s: State, s': State, t: Tid)
    requires Inv(s) && Step(s, s', t)
    ensures Inv(s')
  {
    StepThreads(s, s', t);
    StepRecords(s, s', t);
    if QueueStep(s, s', t) {
      QueueStepScans(s, s', t);
    } else {
      ScanStepScans(s, s', t);
    }
  }

  /** Threads may come, and their callers turn to another FIFO, without disturbing anyone. */
  lemma LinksStay(p: Pool, threads: map<Tid, Thread>, t: Tid, th': Thread)
    requires FifosInv(p) && LinksInv(p, threads) && (t in threads ==> !threads[t].pc.PushLink?)
    ensures LinksInv(p, threads[t := th'])
  {
    var threads' := threads[t := th'];
    forall q | q in p.fifos ensures LinkersInv(View(p, q), threads') {
      var m := View(p, q);
      forall i | |m.popped| < i < |m.order| ensures LinkedOrOwed(m, threads', i) {
        assert LinkedOrOwed(m, threads, i);
      }
    }
  }

  lemma ScansStay(threads: map<Tid, Thread>, t: Tid, th': Thread)
    requires ScanInv(threads) && th'.pc.Idle?
    ensures ScanInv(threads[t := th'])
  {
    var threads' := threads[t := th'];
    forall u, v | u in threads' && v in threads'
      ensures Covered(threads'[u], v, threads'[v], 0) && Covered(threads'[u], v, threads'[v], 1)
    {
      if u != t && v != t {
        assert Covered(threads[u], v, threads[v], 0) && Covered(threads[u], v, threads[v], 1);
      }
    }
  }

  lemma JoinKeeps(s: State, s': State, t: Tid)
    requires Inv(s) && Join(s, s', t)
    ensures Inv(s')
  {
    forall u | u in s'.threads ensures InPool(s'.pool, u, s'.threads[u]) {
      assert u != t ==> InPool(s.pool, u, s.threads[u]);
    }
    ScansStay(s.threads, t, s'.threads[t]);
    LinksStay(s.pool, s.threads, t, s'.threads[t]);
  }

  lemma TurnKeeps(s: State, s': State, t: Tid, q: Fid)
    requires Inv(s) && Turn(s, s', t, q)
    ensures Inv(s')
  {
    forall u | u in s'.threads ensures InPool(s'.pool, u, s'.threads[u]) {
      assert InPool(s.pool, u, s.threads[u]);
    }
    assert s'.threads.Keys == s.threads.Keys;
    ScansStay(s.threads, t, s'.threads[t]);
    LinksStay(s.pool, s.threads, t, s'.threads[t]);
  }

  lemma CreateKeeps(s: State, s': State, q: Fid, n: Node)
    requires Inv(s) && Create(s, s', q, n)
    ensures Inv(s')
  {
    forall q2 | q2 in s.pool.fifos
      ensures View(s'.pool, q2) == Write(View(s.pool, q2), n, s'.pool.heap[n]) && QueueInv(View(s'.pool, q2))
      ensures LinkersInv(View(s'.pool, q2), s.threads)
    {
      var m, m' := View(s.pool, q2), View(s'.pool, q2);
      AllocKeeps(m, n, s'.pool.heap[n]);
      forall i | |m.popped| < i < |m.order| ensures LinkedOrOwed(m', s.threads, i) {
        assert LinkedOrOwed(m, s.threads, i) && QueuedAt(m', i - 1) && QueuedAt(m', i);
      }
    }
    assert QueueInv(View(s'.pool, q));
    forall t | t in s.threads ensures InPool(s'.pool, t, s.threads[t]) {
      assert InPool(s.pool, t, s.threads[t]);
      AllocKeeps(View(s.pool, s.threads[t].fifo), n, s'.pool.heap[n]);
    }
  }

  lemma NextKeeps(s: State, s': State)
    requires Inv(s) && Next(s, s')
    ensures Inv(s')
  {
    if t :| Join(s, s', t) {
      JoinKeeps(s, s', t);
    } else if t :| Step(s, s', t) {
      StepKeeps(s, s', t);
    } else if q, n :| Create(s, s', q, n) {
      CreateKeeps(s, s', q, n);
    } else {
      var t, q :| Turn(s, s', t, q);
      TurnKeeps(s, s', t, q);
    }
  }

  lemma InitInv(s: State)
    requires Init(s)
    ensures Inv(s)
  {
  }

  lemma RunInv(run: seq<State>, i: nat)
    requires IsRun(Init, Next, run) && i < |run|
    ensures Inv(run[i])
  {
    forall s | Init(s) ensures Inv(s) { InitInv(s); }
    forall s, s' | Inv(s) && Next(s, s') ensures Inv(s') { NextKeeps(s, s'); }
    Invariance(Init, Next, Inv, run, i);
  }
}
