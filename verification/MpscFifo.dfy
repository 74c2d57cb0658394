/**
 The multi-producer single-consumer FIFO.  A push exchanges the tail and links the previous tail to its
 node in a later step, so any number of pushes may be waiting to link.  The consumer takes the old dummy
 node away and may hand it to anyone, so nodes are recycled at once.
 */
module MpscFifo {
  import opened Common
  import opened Runs
  import Q = MpscQueue

  /** Auxiliary: who may write a node.  No step branches on it. */
  datatype Place =
    | Free                            // nobody's: handed back by the consumer
    | Private(owner: Tid)             // being prepared by a producer
    | Queued(index: nat, pusher: Tid) // order[index]
    | Taken                           // unlinked, in the consumer's hands

  datatype Cell = Cell(data: Value, next: Option<Node>, place: Place)

  datatype Producer =
    | Outside
    | PushInit(n: Node)
    | PushExchange(n: Node)
    | PushLink(n: Node, prev: Node, at: nat)   // at: auxiliary, n == order[at]

  datatype Consumer =
    | Resting
    // mpsc_fifo_peek
    | PeekNext(h: Node)
    | PeekRead(h: Node, nx: Node)
    | Peeked(d: Value)
    // mpsc_fifo_trypop
    | PopNext(h: Node)
    | PopAdvance(h: Node, nx: Node)
    | PopRead(h: Node, nx: Node)
    | PopWrite(h: Node, d: Value)

  datatype Mem = Mem(
    heap: map<Node, Cell>,
    head: Node,
    tail: Node,
    order: seq<Node>,       // history: the initial dummy, then nodes in exchange order
    pushed: seq<Value>,     // history: values in exchange order
    pushers: seq<Tid>,      // history: who pushed each
    passed: nat,            // history: how often head has advanced
    popped: seq<Value>)     // history: values handed to the consumer's caller

  datatype State = State(mem: Mem, consumer: Consumer, producers: map<Tid, Producer>)

  ghost predicate Init(s: State) {
    exists n, v, t :: s == State(Mem(map[n := Cell(v, None, Queued(0, t))], n, n, [n], [], [], 0, []), Resting, map[])
  }

  // ---------------------------------------------------------------- transitions

  ghost function Write(m: Mem, n: Node, c: Cell): Mem {
    m.(heap := m.heap[n := c])
  }

  ghost predicate ProducerStep(t: Tid, m: Mem, pc: Producer, m': Mem, pc': Producer) {
    match pc
    case Outside =>
      // a fresh or recycled node, with the caller's data in it
      && pc'.PushInit? && pc'.n in m'.heap && m'.heap[pc'.n].place == Private(t)
      && (pc'.n in m.heap ==> m.heap[pc'.n].place == Free)
      && m' == Write(m, pc'.n, m'.heap[pc'.n])
    case PushInit(n) =>
      n in m.heap && m' == Write(m, n, m.heap[n].(next := None)) && pc' == PushExchange(n)
    case PushExchange(n) =>
      n in m.heap && m' == Exchange(t, m, n) && pc' == PushLink(n, m.tail, |m.order|)
    case PushLink(n, prev, _) =>
      prev in m.heap && m' == Write(m, prev, m.heap[prev].(next := Some(n))) && pc' == Outside
  }

  ghost function Exchange(t: Tid, m: Mem, n: Node): Mem
    requires n in m.heap
  {
    Write(m, n, m.heap[n].(place := Queued(|m.order|, t)))
    .(tail := n, order := m.order + [n], pushed := m.pushed + [m.heap[n].data], pushers := m.pushers + [t])
  }

  ghost predicate ConsumerStep(m: Mem, pc: Consumer, m': Mem, pc': Consumer) {
    match pc
    case Resting => m' == m && (pc' == PopNext(m.head) || pc' == PeekNext(m.head))
    case PeekNext(h) =>
      && h in m.heap && m' == m
      && pc' == if m.heap[h].next.Some? then PeekRead(h, m.heap[h].next.value) else Resting
    case PeekRead(_, nx) => nx in m.heap && m' == m && pc' == Peeked(m.heap[nx].data)
    case Peeked(_) => m' == m && pc' == Resting
    case PopNext(h) =>
      && h in m.heap && m' == m
      && pc' == if m.heap[h].next.Some? then PopAdvance(h, m.heap[h].next.value) else Resting
    case PopAdvance(h, nx) =>
      h in m.heap && m' == Advance(m, h, nx) && pc' == PopRead(h, nx)
    case PopRead(h, nx) =>
      nx in m.heap && m' == m && pc' == PopWrite(h, m.heap[nx].data)
    case PopWrite(h, d) =>
      && h in m.heap && pc' == Resting
      && m' == Write(m, h, m.heap[h].(data := d, place := Free)).(popped := m.popped + [d])
  }

  ghost function Advance(m: Mem, h: Node, nx: Node): Mem
    requires h in m.heap
  {
    Write(m, h, m.heap[h].(place := Taken)).(head := nx, passed := m.passed + 1)
  }

  ghost predicate Produce(s: State, s': State, t: Tid) {
    && t in s.producers && t in s'.producers
    && s' == State(s'.mem, s.consumer, s.producers[t := s'.producers[t]])
    && ProducerStep(t, s.mem, s.producers[t], s'.mem, s'.producers[t])
  }

  ghost predicate Join(s: State, s': State, t: Tid) {
    t !in s.producers && s' == s.(producers := s.producers[t := Outside])
  }

  ghost predicate Next(s: State, s': State) {
    || (s' == State(s'.mem, s'.consumer, s.producers) && ConsumerStep(s.mem, s.consumer, s'.mem, s'.consumer))
    || (exists t :: Produce(s, s', t) || Join(s, s', t))
  }

  // ---------------------------------------------------------------- invariant

  ghost predicate QueueInv(m: Mem) {
    && m.passed < |m.order| == |m.pushed| + 1 && |m.pushers| == |m.pushed|
    && m.head == m.order[m.passed] && m.tail == m.order[|m.order| - 1]
    && forall i :: m.passed <= i < |m.order| ==> QueuedAt(m, i)
  }

  ghost predicate QueuedAt(m: Mem, i: nat)
    requires i < |m.order| == |m.pushed| + 1 && |m.pushers| == |m.pushed|
  {
    && m.order[i] in m.heap
    && var c := m.heap[m.order[i]];
       && c.place.Queued? && c.place.index == i
       && (i > 0 ==> c.data == m.pushed[i - 1] && c.place.pusher == m.pushers[i - 1])
       && (c.next.Some? ==> i + 1 < |m.order| && c.next.value == m.order[i + 1])
  }

  ghost predicate ProducerInv(m: Mem, t: Tid, pc: Producer) {
    && (pc.PushInit? ==> pc.n in m.heap && m.heap[pc.n].place == Private(t))
    && (pc.PushExchange? ==> pc.n in m.heap && m.heap[pc.n].place == Private(t) && m.heap[pc.n].next == None)
    && (pc.PushLink? ==>
          && m.passed < pc.at < |m.order| && m.order[pc.at - 1] == pc.prev && m.order[pc.at] == pc.n
          && pc.prev in m.heap && m.heap[pc.prev].next == None
          && pc.n in m.heap && m.heap[pc.n].place == Queued(pc.at, t))
  }

  /** The consumer between two reads: what it holds is the head, and afterwards the old dummy is its own. */
  ghost predicate ConsumerInv(m: Mem, pc: Consumer) {
    && |m.popped| == (if pc.PopRead? || pc.PopWrite? then m.passed - 1 else m.passed)
    && (pc.PopNext? || pc.PopAdvance? || pc.PeekNext? || pc.PeekRead? ==> pc.h == m.head && pc.h in m.heap)
    && (pc.PopAdvance? || pc.PeekRead? ==> m.heap[pc.h].next == Some(pc.nx))
    && (pc.Peeked? ==> m.passed < |m.pushed| && pc.d == m.pushed[m.passed])
    && (pc.PopRead? ==> pc.nx == m.head)
    && (pc.PopRead? || pc.PopWrite? ==> m.passed > 0 && pc.h in m.heap && m.heap[pc.h].place == Taken)
    && (pc.PopWrite? ==> m.passed <= |m.pushed| && pc.d == m.pushed[m.passed - 1])
  }

  ghost predicate ProducersInv(m: Mem, producers: map<Tid, Producer>) {
    forall t :: t in producers ==> ProducerInv(m, t, producers[t])
  }

  /** A missing link is owed by the push that exchanged the tail there. */
  ghost predicate LinkedOrOwed(m: Mem, producers: map<Tid, Producer>, i: nat)
    requires 0 < i < |m.order| == |m.pushed| + 1 && |m.pushers| == |m.pushed|
  {
    && QueuedAt(m, i - 1) && QueuedAt(m, i)
    && (m.heap[m.order[i - 1]].next == None ==> Owes(producers, m.heap[m.order[i]].place.pusher, i))
  }

  ghost predicate Owes(producers: map<Tid, Producer>, t: Tid, i: nat) {
    t in producers && producers[t].PushLink? && producers[t].at == i
  }

  ghost predicate LinkersInv(m: Mem, producers: map<Tid, Producer>)
    requires QueueInv(m)
  {
    forall i :: m.passed < i < |m.order| ==> LinkedOrOwed(m, producers, i)
  }

  ghost predicate Inv(s: State) {
    && QueueInv(s.mem) && s.mem.popped <= s.mem.pushed
    && ConsumerInv(s.mem, s.consumer) && ProducersInv(s.mem, s.producers)
    && LinkersInv(s.mem, s.producers)
  }

  // ---------------------------------------------------------------- steps keep the invariant

  lemma ConsumerQueue(m: Mem, pc: Consumer, m': Mem, pc': Consumer)
    requires QueueInv(m) && ConsumerInv(m, pc) && ConsumerStep(m, pc, m', pc')
    ensures QueueInv(m')
  {
    assert QueuedAt(m, m.passed);
    if m.passed + 1 < |m.order| {
      assert QueuedAt(m, m.passed + 1);
    }
    forall i | m'.passed <= i < |m'.order| ensures QueuedAt(m', i) {
      assert QueuedAt(m, i);
    }
  }

  lemma ConsumerOwn(m: Mem, pc: Consumer, m': Mem, pc': Consumer)
    requires QueueInv(m) && ConsumerInv(m, pc) && m.popped <= m.pushed && ConsumerStep(m, pc, m', pc')
    ensures ConsumerInv(m', pc') && m'.popped <= m'.pushed
  {
    assert QueuedAt(m, m.passed);
    if m.passed + 1 < |m.order| {
      assert QueuedAt(m, m.passed + 1);
    }
  }

  lemma ConsumerOthers(m: Mem, pc: Consumer, m': Mem, pc': Consumer, u: Tid, ot: Producer)
    requires QueueInv(m) && ConsumerInv(m, pc) && ConsumerStep(m, pc, m', pc') && ProducerInv(m, u, ot)
    ensures ProducerInv(m', u, ot)
  {
    assert QueuedAt(m, m.passed);
    if ot.PushLink? {
      assert QueuedAt(m, ot.at - 1) && QueuedAt(m, ot.at);
    }
  }

  lemma ProducerQueue(t: Tid, m: Mem, pc: Producer, m': Mem, pc': Producer)
    requires QueueInv(m) && ProducerInv(m, t, pc) && ProducerStep(t, m, pc, m', pc')
    ensures QueueInv(m') && m'.popped == m.popped && m.pushed <= m'.pushed
  {
    assert QueuedAt(m, |m.order| - 1);
    if pc.PushLink? {
      assert QueuedAt(m, pc.at - 1) && QueuedAt(m, pc.at);
    }
    forall i | m'.passed <= i < |m'.order| ensures QueuedAt(m', i) {
      if i < |m.order| {
        assert QueuedAt(m, i);
      }
    }
  }

  lemma ProducerOwn(t: Tid, m: Mem, pc: Producer, m': Mem, pc': Producer, consumer: Consumer)
    requires QueueInv(m) && ProducerInv(m, t, pc) && ConsumerInv(m, consumer) && ProducerStep(t, m, pc, m', pc')
    ensures ProducerInv(m', t, pc') && ConsumerInv(m', consumer)
  {
    assert QueuedAt(m, m.passed) && QueuedAt(m, |m.order| - 1);
    if pc.PushLink? {
      assert QueuedAt(m, pc.at - 1);
    }
  }

  lemma ProducerOthers(t: Tid, m: Mem, pc: Producer, m': Mem, pc': Producer, u: Tid, ot: Producer)
    requires QueueInv(m) && ProducerInv(m, t, pc) && ProducerStep(t, m, pc, m', pc')
    requires u != t && ProducerInv(m, u, ot)
    ensures ProducerInv(m', u, ot)
  {
    if pc.PushLink? {
      assert QueuedAt(m, pc.at - 1);
    }
    if ot.PushLink? {
      assert QueuedAt(m, ot.at - 1);
    }
  }

  lemma ConsumerLinkers(m: Mem, pc: Consumer, m': Mem, pc': Consumer, producers: map<Tid, Producer>)
    requires QueueInv(m) && ConsumerInv(m, pc) && ConsumerStep(m, pc, m', pc') && QueueInv(m')
    requires LinkersInv(m, producers)
    ensures LinkersInv(m', producers)
  {
    forall i | m'.passed < i < |m'.order| ensures LinkedOrOwed(m', producers, i) {
      assert LinkedOrOwed(m, producers, i);
      assert QueuedAt(m', i - 1) && QueuedAt(m', i);
    }
  }

  lemma ProducerLinkers(t: Tid, m: Mem, m': Mem, producers: map<Tid, Producer>, pc': Producer)
    requires t in producers && QueueInv(m) && ProducerInv(m, t, producers[t])
    requires ProducerStep(t, m, producers[t], m', pc') && QueueInv(m') && LinkersInv(m, producers)
    ensures LinkersInv(m', producers[t := pc'])
  {
    var producers' := producers[t := pc'];
    forall i | m'.passed < i < |m'.order| ensures LinkedOrOwed(m', producers', i) {
      assert QueuedAt(m', i - 1) && QueuedAt(m', i);
      if i < |m.order| {
        assert LinkedOrOwed(m, producers, i);
      } else {
        assert QueuedAt(m, i - 1);
      }
    }
  }

  lemma ProduceKeeps(s: State, s': State, t: Tid)
    requires Inv(s) && Produce(s, s', t)
    ensures Inv(s')
  {
    assert ProducerInv(s.mem, t, s.producers[t]);
    ProducerQueue(t, s.mem, s.producers[t], s'.mem, s'.producers[t]);
    ProducerOwn(t, s.mem, s.producers[t], s'.mem, s'.producers[t], s.consumer);
    forall u | u in s.producers && u != t ensures ProducerInv(s'.mem, u, s.producers[u]) {
      ProducerOthers(t, s.mem, s.producers[t], s'.mem, s'.producers[t], u, s.producers[u]);
    }
    ProducerLinkers(t, s.mem, s'.mem, s.producers, s'.producers[t]);
  }

  lemma ConsumeKeeps(s: State, s': State)
    requires Inv(s) && s' == State(s'.mem, s'.consumer, s.producers)
    requires ConsumerStep(s.mem, s.consumer, s'.mem, s'.consumer)
    ensures Inv(s')
  {
    ConsumerQueue(s.mem, s.consumer, s'.mem, s'.consumer);
    ConsumerOwn(s.mem, s.consumer, s'.mem, s'.consumer);
    forall u | u in s.producers ensures ProducerInv(s'.mem, u, s.producers[u]) {
      ConsumerOthers(s.mem, s.consumer, s'.mem, s'.consumer, u, s.producers[u]);
    }
    ConsumerLinkers(s.mem, s.consumer, s'.mem, s'.consumer, s.producers);
  }

  lemma JoinKeeps(s: State, s': State, t: Tid)
    requires Inv(s) && Join(s, s', t)
    ensures Inv(s')
  {
    forall i | s.mem.passed < i < |s.mem.order| ensures LinkedOrOwed(s.mem, s'.producers, i) {
      assert LinkedOrOwed(s.mem, s.producers, i);
    }
  }

  lemma NextKeeps(s: State, s': State)
    requires Inv(s) && Next(s, s')
    ensures Inv(s')
  {
    if s' == State(s'.mem, s'.consumer, s.producers) && ConsumerStep(s.mem, s.consumer, s'.mem, s'.consumer) {
      ConsumeKeeps(s, s');
    } else {
      var t :| Produce(s, s', t) || Join(s, s', t);
      if Produce(s, s', t) {
        ProduceKeeps(s, s', t);
      } else {
        JoinKeeps(s, s', t);
      }
    }
  }

  lemma InitInv(s: State)
    requires Init(s)
    ensures Inv(s)
  {
  }

  lemma RunInv(run: seq<State>, i: nat)
    requires IsRun(Init, Next, run) && i < |run|
    ensures Inv(run[i])
  {
    forall s | Init(s) ensures Inv(s) { InitInv(s); }
    forall s, s' | Inv(s) && Next(s, s') ensures Inv(s') { NextKeeps(s, s'); }
    Invariance(Init, Next, Inv, run, i);
  }

  // ---------------------------------------------------------------- theorems

  /** The queue refines a FIFO in exchange order: what the consumer has been handed is a prefix of what was pushed. */
  lemma PoppedIsPrefixOfPushed(run: seq<State>, i: nat)
    requires IsRun(Init, Next, run) && i < |run|
    ensures run[i].mem.popped <= run[i].mem.pushed
  {
    RunInv(run, i);
  }

  /** n can be reached from the head by following links. */
  least predicate Reachable(m: Mem, n: Node) {
    || n == m.head
    || (exists p :: p in m.heap && m.heap[p].next == Some(n) && Reachable(m, p))
  }

  least lemma ReachableIsQueued(m: Mem, n: Node)
    requires QueueInv(m) && Reachable(m, n)
    ensures n in m.heap && m.heap[n].place.Queued?
    ensures var i := m.heap[n].place.index; m.passed <= i < |m.order| && m.order[i] == n
  {
    if n == m.head {
      assert QueuedAt(m, m.passed);
    } else {
      var p :| p in m.heap && m.heap[p].next == Some(n) && Reachable(m, p);
      var i := m.heap[p].place.index;
      assert QueuedAt(m, i) && QueuedAt(m, i + 1);
    }
  }

  lemma UnqueuedIsUnreachable(m: Mem, h: Node)
    requires QueueInv(m) && h in m.heap && !m.heap[h].place.Queued?
    ensures !Reachable(m, h)
  {
    if Reachable(m, h) {
      ReachableIsQueued(m, h);
    }
  }

  /** What the last step of a pop leaves in the caller's hands. */
  lemma PopResult(s: State, s': State)
    requires Inv(s) && Next(s, s') && s.consumer.PopWrite? && s'.consumer == Resting
    ensures var h, m := s.consumer.h, s'.mem;
      && h in m.heap && m.heap[h].place == Free && |m.popped| == |s.mem.popped| + 1
      && m.heap[h].data == m.popped[|s.mem.popped|]
  {
    assert ConsumerStep(s.mem, s.consumer, s'.mem, s'.consumer);
  }

  /** The node handed out carries the popped value, cannot be reached from the queue, and no push in progress has
      it or will write it. */
  lemma HandedNodeIsExclusive(run: seq<State>, i: nat, t: Tid)
    requires IsRun(Init, Next, run) && i + 1 < |run|
    requires run[i].consumer.PopWrite? && run[i + 1].consumer == Resting
    requires t in run[i + 1].producers
    ensures var h, m, pc := run[i].consumer.h, run[i + 1].mem, run[i + 1].producers[t];
      && h in m.heap && |m.popped| > 0 && m.heap[h].data == m.popped[|m.popped| - 1]
      && !Reachable(m, h)
      && (!pc.Outside? ==> pc.n != h) && (pc.PushLink? ==> pc.prev != h)
  {
    RunInv(run, i);
    RunInv(run, i + 1);
    assert StepAt(Next, run, i + 1);
    PopResult(run[i], run[i + 1]);
    NoPushHolds(run[i + 1], run[i].consumer.h, t);
    UnqueuedIsUnreachable(run[i + 1].mem, run[i].consumer.h);
  }

  lemma NoPushHolds(s: State, h: Node, t: Tid)
    requires Inv(s) && h in s.mem.heap && s.mem.heap[h].place == Free && t in s.producers
    ensures var pc := s.producers[t]; (!pc.Outside? ==> pc.n != h) && (pc.PushLink? ==> pc.prev != h)
  {
    assert ProducerInv(s.mem, t, s.producers[t]);
    if s.producers[t].PushLink? {
      assert QueuedAt(s.mem, s.producers[t].at - 1);
    }
  }

  /** A peek that returns a value returns the oldest one, and its read of the first link finds nothing exactly when
      the queue is drained or its first push has not linked yet. */
  lemma PeekShowsOldest(run: seq<State>, i: nat)
    requires IsRun(Init, Next, run) && i < |run|
    ensures var m, pc := run[i].mem, run[i].consumer;
      && (pc.Peeked? ==> m.passed < |m.pushed| && pc.d == m.pushed[m.passed])
      && (pc.PeekNext? ==>
            pc.h in m.heap
            && (m.heap[pc.h].next == None <==> m.passed == |m.pushed| || exists t :: FirstPushUnlinked(run[i], t)))
  {
    RunInv(run, i);
    FirstLinkExactly(run[i]);
  }

  lemma FirstLinkExactly(s: State)
    requires Inv(s)
    ensures var m := s.mem;
      && m.head in m.heap
      && (m.heap[m.head].next == None <==> m.passed == |m.pushed| || exists t :: FirstPushUnlinked(s, t))
  {
    var m := s.mem;
    assert QueuedAt(m, m.passed);
    if m.passed + 1 < |m.order| {
      assert LinkedOrOwed(m, s.producers, m.passed + 1);
      assert m.heap[m.head].next == None ==> FirstPushUnlinked(s, m.heap[m.order[m.passed + 1]].place.pusher);
    }
    forall t | FirstPushUnlinked(s, t) ensures m.heap[m.head].next == None {
      assert ProducerInv(m, t, s.producers[t]);
    }
  }

  ghost predicate FirstPushUnlinked(s: State, t: Tid) {
    Owes(s.producers, t, s.mem.passed + 1)
  }

  /** The model's guards never hold anyone back: the consumer always has a step to take, and so has every producer in
      the middle of a push. */
  lemma ConsumerNeverStuck(run: seq<State>, i: nat)
    requires IsRun(Init, Next, run) && i < |run|
    ensures exists m', pc' :: ConsumerStep(run[i].mem, run[i].consumer, m', pc')
  {
    RunInv(run, i);
    var s' := ConsumerGoesOn(run[i]);
  }

  lemma ProducerNeverStuck(run: seq<State>, i: nat, t: Tid)
    requires IsRun(Init, Next, run) && i < |run| && t in run[i].producers && !run[i].producers[t].Outside?
    ensures exists m', pc' :: ProducerStep(t, run[i].mem, run[i].producers[t], m', pc')
  {
    RunInv(run, i);
    var s' := ProducerGoesOn(run[i], t);
  }

  /** How many of its own steps the consumer, or a producer, is from the end of its operation at most. */
  ghost function ConsumerDistance(pc: Consumer): nat {
    match pc
    case Resting => 0
    case PeekNext(_) => 3
    case PeekRead(_, _) => 2
    case Peeked(_) => 1
    case PopNext(_) => 4
    case PopAdvance(_, _) => 3
    case PopRead(_, _) => 2
    case PopWrite(_, _) => 1
  }

  ghost function ProducerDistance(pc: Producer): nat {
    match pc
    case Outside => 0
    case PushInit(_) => 3
    case PushExchange(_) => 2
    case PushLink(_, _, _) => 1
  }

  ghost predicate Consume(s: State, s': State) {
    s' == State(s'.mem, s'.consumer, s.producers) && ConsumerStep(s.mem, s.consumer, s'.mem, s'.consumer)
  }

  lemma ConsumerGoesOn(s: State) returns (s': State)
    requires Inv(s)
    ensures Consume(s, s') && (s.consumer == Resting || ConsumerDistance(s'.consumer) < ConsumerDistance(s.consumer))
  {
    var m := s.mem;
    assert QueuedAt(m, m.passed);
    s' := s;
    match s.consumer
    case Resting => s' := s.(consumer := PopNext(m.head));
    case PeekNext(h) =>
      var nx := m.heap[h].next;
      s' := s.(consumer := if nx.Some? then PeekRead(h, nx.value) else Resting);
    case PeekRead(_, nx) =>
      assert QueuedAt(m, m.passed + 1);
      s' := s.(consumer := Peeked(m.heap[nx].data));
    case Peeked(_) => s' := s.(consumer := Resting);
    case PopNext(h) =>
      var nx := m.heap[h].next;
      s' := s.(consumer := if nx.Some? then PopAdvance(h, nx.value) else Resting);
    case PopAdvance(h, nx) => s' := s.(mem := Advance(m, h, nx), consumer := PopRead(h, nx));
    case PopRead(h, nx) => s' := s.(consumer := PopWrite(h, m.heap[nx].data));
    case PopWrite(h, d) =>
      var m' := Write(m, h, m.heap[h].(data := d, place := Free)).(popped := m.popped + [d]);
      s' := s.(mem := m', consumer := Resting);
  }

  lemma ProducerGoesOn(s: State, t: Tid) returns (s': State)
    requires Inv(s) && t in s.producers && !s.producers[t].Outside?
    ensures Produce(s, s', t) && ProducerDistance(s'.producers[t]) < ProducerDistance(s.producers[t])
  {
    var m, pc := s.mem, s.producers[t];
    assert ProducerInv(m, t, pc);
    var m', pc' := m, pc;
    match pc {
      case PushInit(n) => m', pc' := Write(m, n, m.heap[n].(next := None)), PushExchange(n);
      case PushExchange(n) => m', pc' := Exchange(t, m, n), PushLink(n, m.tail, |m.order|);
      case PushLink(n, prev, _) => m', pc' := Write(m, prev, m.heap[prev].(next := Some(n))), Outside;
    }
    s' := s.(mem := m', producers := s.producers[t := pc']);
  }

  ghost predicate ConsumerCanFinish(s: State, k: nat)
    decreases k
  {
    s.consumer == Resting || (k > 0 && exists s' :: Consume(s, s') && ConsumerCanFinish(s', k - 1))
  }

  ghost predicate ProducerCanFinish(s: State, t: Tid, k: nat)
    decreases k
  {
    && t in s.producers
    && (s.producers[t].Outside? || (k > 0 && exists s' :: Produce(s, s', t) && ProducerCanFinish(s', t, k - 1)))
  }

  lemma {:induction false} ConsumerFinishes(s: State, k: nat)
    requires Inv(s) && ConsumerDistance(s.consumer) <= k
    ensures ConsumerCanFinish(s, k)
    decreases k
  {
    if s.consumer != Resting {
      var s' := ConsumerGoesOn(s);
      ConsumeKeeps(s, s');
      ConsumerFinishes(s', k - 1);
    }
  }

  lemma {:induction false} ProducerFinishes(s: State, t: Tid, k: nat)
    requires Inv(s) && t in s.producers && ProducerDistance(s.producers[t]) <= k
    ensures ProducerCanFinish(s, t, k)
    decreases k
  {
    if !s.producers[t].Outside? {
      var s' := ProducerGoesOn(s, t);
      ProduceKeeps(s, s', t);
      ProducerFinishes(s', t, k - 1);
    }
  }

  /** From every reachable state the consumer, and every producer, can finish its operation alone. */
  lemma CompletesAlone(run: seq<State>, i: nat, t: Tid)
    requires IsRun(Init, Next, run) && i < |run|
    ensures ConsumerCanFinish(run[i], 4)
    ensures t in run[i].producers ==> ProducerCanFinish(run[i], t, 3)
  {
    RunInv(run, i);
    ConsumerFinishes(run[i], 4);
    if t in run[i].producers {
      ProducerFinishes(run[i], t, 3);
    }
  }

  // ---------------------------------------------------------------- refinement

  /** The link to message i has been made, or the message has been taken. */
  ghost predicate Linked(m: Mem, i: nat) {
    i < m.passed || (i < |m.order| && m.order[i] in m.heap && m.heap[m.order[i]].next.Some?)
  }

  /** The queue as its clients see it. */
  ghost function Abstract(m: Mem): Q.Queue {
    Q.Queue(m.pushed, m.pushers, seq(|m.pushed|, i requires 0 <= i => Linked(m, i)), m.passed)
  }

  /** A producer's exchange and link are the queue's; its other steps are invisible. */
  lemma ProducerRefines(t: Tid, m: Mem, pc: Producer, m': Mem, pc': Producer)
    requires QueueInv(m) && ProducerInv(m, t, pc) && ProducerStep(t, m, pc, m', pc')
    ensures var q, q' := Abstract(m), Abstract(m');
      match pc
      case PushExchange(n) =>
        n in m.heap && Q.Exchange(q, q', t, m.heap[n].data) && pc'.PushLink? && pc'.at == |q.messages| + 1
      case PushLink(_, _, at) => 0 < at <= |q.linked| && !q.linked[at - 1] && Q.Link(q, q', t, at - 1)
      case _ => q' == q
  {
    var q, q' := Abstract(m), Abstract(m');
    if pc.PushLink? {
      assert QueuedAt(m, pc.at - 1) && QueuedAt(m, pc.at);
    }
    assert QueuedAt(m, |m.order| - 1);
    forall i | 0 <= i < |m.pushed| ensures Linked(m', i) == (Linked(m, i) || (pc.PushLink? && i == pc.at - 1)) {
      if m.passed <= i {
        assert QueuedAt(m, i);
      }
    }
    if pc.PushExchange? {
      assert q'.linked == q.linked + [false];
    } else if pc.PushLink? {
      assert q'.linked == q.linked[pc.at - 1 := true];
    } else {
      assert q'.linked == q.linked;
    }
  }

  /** Advancing the head takes the first message, whose value the pop then returns; a pop or peek gives up exactly
      when the first message is not linked. */
  lemma ConsumerRefines(m: Mem, pc: Consumer, m': Mem, pc': Consumer)
    requires QueueInv(m) && ConsumerInv(m, pc) && ConsumerStep(m, pc, m', pc')
    ensures var q, q' := Abstract(m), Abstract(m');
      match pc
      case PopAdvance(_, _) => q.taken < |q.messages| && Q.Take(q, q', q.messages[q.taken])
      case PopNext(_) => q' == q && (pc' == Resting <==> !Q.FirstLinked(q))
      case PeekNext(_) => q' == q && (pc' == Resting <==> !Q.FirstLinked(q))
      case PopWrite(_, d) => q' == q && 0 < q.taken <= |q.messages| && d == q.messages[q.taken - 1]
      case Peeked(d) => q' == q && q.taken < |q.messages| && d == q.messages[q.taken]
      case _ => q' == q
  {
    assert QueuedAt(m, m.passed);
    forall i | 0 <= i < |m.pushed| ensures Linked(m', i) == (Linked(m, i)) {
      if m.passed <= i {
        assert QueuedAt(m, i);
      }
    }
    assert Abstract(m').linked == Abstract(m).linked;
  }

  /** Every run of the FIFO is a run of the queue: each step is an exchange, a link, a taking, or invisible. */
  lemma RefinesQueue(run: seq<State>, i: nat)
    requires IsRun(Init, Next, run) && i + 1 < |run|
    ensures Abstract(run[0].mem) == Q.EMPTY && Q.Next(Abstract(run[i].mem), Abstract(run[i + 1].mem))
  {
    RunInv(run, i);
    assert StepAt(Next, run, i + 1);
    StepRefines(run[i], run[i + 1]);
  }

  lemma StepRefines(s: State, s': State)
    requires Inv(s) && Next(s, s')
    ensures Q.Next(Abstract(s.mem), Abstract(s'.mem))
  {
    if s' == State(s'.mem, s'.consumer, s.producers) && ConsumerStep(s.mem, s.consumer, s'.mem, s'.consumer) {
      ConsumerRefines(s.mem, s.consumer, s'.mem, s'.consumer);
    } else {
      var t :| Produce(s, s', t) || Join(s, s', t);
      if Produce(s, s', t) {
        assert ProducerInv(s.mem, t, s.producers[t]);
        ProducerRefines(t, s.mem, s.producers[t], s'.mem, s'.producers[t]);
      }
    }
  }
}
