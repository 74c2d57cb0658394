/**
 The distinguished FIFO: one thread pushes, any number pop.  The head is a node together with a counter, swapped
 by a double-word compare-and-swap; popped nodes go back into circulation at once and anything may happen to
 them, yet stay readable, as the FIFO assumes.  The counter does not wrap.
 */
module DistFifo {
  import opened Common
  import opened Runs

  /** Auxiliary: who may write a node. */
  datatype Place = Free | Private | Queued(index: nat) | Taken(owner: Tid)

  datatype Cell = Cell(data: Value, next: Option<Node>, place: Place)

  datatype Pusher =
    | Resting
    | PushInit(n: Node)
    | PushLink(n: Node)
    | PushTail(n: Node)

  datatype Popper =
    | Idle
    | GotCounter(c: nat)
    | GotNode(c: nat, h: Node)
    | GotNext(c: nat, h: Node, nx: Node)
    | GotData(c: nat, h: Node, nx: Node, d: Value)
    | GiveData(h: Node, d: Value)

  datatype Mem = Mem(
    heap: map<Node, Cell>,
    counter: nat,            // head.counter
    head: Node,              // head.node
    tail: Node,
    order: seq<Node>,        // history: the initial dummy, then nodes in link order
    pushed: seq<Value>,      // history: values in link order
    popped: seq<Value>)      // history: values claimed by successful CASes

  datatype State = State(mem: Mem, pusher: Pusher, poppers: map<Tid, Popper>)

  ghost predicate Init(s: State) {
    exists n, v :: s == State(Mem(map[n := Cell(v, None, Queued(0))], 0, n, n, [n], [], []), Resting, map[])
  }

  // ---------------------------------------------------------------- transitions

  ghost function Write(m: Mem, n: Node, c: Cell): Mem {
    m.(heap := m.heap[n := c])
  }

  ghost predicate PusherStep(m: Mem, pc: Pusher, m': Mem, pc': Pusher) {
    match pc
    case Resting =>
      && pc'.PushInit? && pc'.n in m'.heap && m'.heap[pc'.n].place == Private
      && (pc'.n in m.heap ==> m.heap[pc'.n].place == Free)
      && m' == Write(m, pc'.n, m'.heap[pc'.n])
    case PushInit(n) =>
      n in m.heap && m' == Write(m, n, m.heap[n].(next := None)) && pc' == PushLink(n)
    case PushLink(n) =>
      && n in m.heap && m.tail in m.heap && pc' == PushTail(n)
      && var linked := m.heap[m.tail := m.heap[m.tail].(next := Some(n))];
         m' == m.(heap := linked[n := m.heap[n].(place := Queued(|m.order|))],
                  order := m.order + [n], pushed := m.pushed + [m.heap[n].data])
    case PushTail(n) =>
      m' == m.(tail := n) && pc' == Resting
  }

  ghost predicate PopperStep(t: Tid, m: Mem, pc: Popper, m': Mem, pc': Popper) {
    match pc
    case Idle => m' == m && pc' == GotCounter(m.counter)
    case GotCounter(c) => m' == m && pc' == GotNode(c, m.head)
    case GotNode(c, h) =>
      && h in m.heap && m' == m
      && pc' == if m.heap[h].next.Some? then GotNext(c, h, m.heap[h].next.value) else Idle
    case GotNext(c, h, nx) =>
      // through a stale head the next pointer may be anything, and so may what it points to
      && m' == m && pc'.GotData? && pc' == GotData(c, h, nx, pc'.d) && (nx in m.heap ==> pc'.d == m.heap[nx].data)
    case GotData(c, h, nx, d) =>
      if m.counter == c && m.head == h then
        && h in m.heap && pc' == GiveData(h, d)
        && m' == Write(m, h, m.heap[h].(place := Taken(t))).(counter := c + 1, head := nx, popped := m.popped + [d])
      else m' == m && pc' == Idle                              // DIST_FIFO_RETRY
    case GiveData(h, d) =>
      h in m.heap && m' == Write(m, h, m.heap[h].(data := d, place := Free)) && pc' == Idle
  }

  /** Whoever has a popped node may do anything to it. */
  ghost predicate Scribble(m: Mem, m': Mem, n: Node) {
    && n in m.heap && m.heap[n].place == Free
    && n in m'.heap && m'.heap[n].place == Free && m' == Write(m, n, m'.heap[n])
  }

  ghost predicate Pop(s: State, s': State, t: Tid) {
    && t in s.poppers && t in s'.poppers
    && s' == State(s'.mem, s.pusher, s.poppers[t := s'.poppers[t]])
    && PopperStep(t, s.mem, s.poppers[t], s'.mem, s'.poppers[t])
  }

  ghost predicate Join(s: State, s': State, t: Tid) {
    t !in s.poppers && s' == s.(poppers := s.poppers[t := Idle])
  }

  ghost predicate Reuse(s: State, s': State, n: Node) {
    s' == s.(mem := s'.mem) && Scribble(s.mem, s'.mem, n)
  }

  ghost predicate Next(s: State, s': State) {
    || (s' == State(s'.mem, s'.pusher, s.poppers) && PusherStep(s.mem, s.pusher, s'.mem, s'.pusher))
    || (exists t :: Pop(s, s', t) || Join(s, s', t))
    || (exists n :: Reuse(s, s', n))
  }

  // ---------------------------------------------------------------- invariant

  ghost predicate QueueInv(m: Mem) {
    && m.counter < |m.order| == |m.pushed| + 1
    && m.head == m.order[m.counter]
    && m.popped == m.pushed[..m.counter]
    && forall i :: m.counter <= i < |m.order| ==> QueuedAt(m, i)
  }

  ghost predicate QueuedAt(m: Mem, i: nat)
    requires i < |m.order| == |m.pushed| + 1
  {
    && m.order[i] in m.heap
    && var c := m.heap[m.order[i]];
       && c.place == Queued(i)
       && (i > 0 ==> c.data == m.pushed[i - 1])
       && c.next == if i + 1 < |m.order| then Some(m.order[i + 1]) else None
  }

  ghost predicate PusherInv(m: Mem, pc: Pusher)
    requires |m.order| > 0
  {
    && (pc.PushInit? ==> pc.n in m.heap && m.heap[pc.n].place == Private)
    && (pc.PushLink? ==> pc.n in m.heap && m.heap[pc.n].place == Private && m.heap[pc.n].next == None)
    && (if pc.PushTail? then pc.n else m.tail) == m.order[|m.order| - 1]
  }

  /** An unchanged counter means an unchanged head, so everything read since is still true. */
  ghost predicate PopperInv(t: Tid, m: Mem, pc: Popper)
    requires QueueInv(m)
  {
    match pc
    case Idle => true
    case GotCounter(c) => c <= m.counter
    case GotNode(c, h) => c <= m.counter && h in m.heap && (c == m.counter ==> h == m.head)
    case GotNext(c, h, nx) =>
      && c <= m.counter && h in m.heap
      && (c == m.counter ==> h == m.head && c + 1 < |m.order| && nx == m.order[c + 1])
    case GotData(c, h, nx, d) =>
      && c <= m.counter && h in m.heap
      && (c == m.counter ==> h == m.head && c + 1 < |m.order| && nx == m.order[c + 1] && d == m.pushed[c])
    case GiveData(h, _) => h in m.heap && m.heap[h].place == Taken(t)
  }

  ghost predicate Inv(s: State) {
    && QueueInv(s.mem) && PusherInv(s.mem, s.pusher)
    && forall t :: t in s.poppers ==> PopperInv(t, s.mem, s.poppers[t])
  }

  // ---------------------------------------------------------------- steps keep the invariant

  lemma PusherKeeps(m: Mem, pc: Pusher, m': Mem, pc': Pusher)
    requires QueueInv(m) && PusherInv(m, pc) && PusherStep(m, pc, m', pc')
    ensures QueueInv(m') && PusherInv(m', pc')
    ensures forall u, ot {:trigger PopperInv(u, m, ot)} :: PopperInv(u, m, ot) ==> PopperInv(u, m', ot)
  {
    assert QueuedAt(m, |m.order| - 1);
    forall i | m'.counter <= i < |m'.order| ensures QueuedAt(m', i) {
      if i < |m.order| {
        assert QueuedAt(m, i);
      }
    }
  }

  lemma PopperQueue(t: Tid, m: Mem, pc: Popper, m': Mem, pc': Popper, pusher: Pusher)
    requires QueueInv(m) && PopperInv(t, m, pc) && PopperStep(t, m, pc, m', pc') && PusherInv(m, pusher)
    ensures QueueInv(m') && PusherInv(m', pusher)
  {
    assert QueuedAt(m, m.counter);
    forall i | m'.counter <= i < |m'.order| ensures QueuedAt(m', i) {
      assert QueuedAt(m, i);
    }
  }

  lemma PopperOwn(t: Tid, m: Mem, pc: Popper, m': Mem, pc': Popper)
    requires QueueInv(m) && PopperInv(t, m, pc) && PopperStep(t, m, pc, m', pc') && QueueInv(m')
    ensures PopperInv(t, m', pc')
  {
    assert QueuedAt(m, m.counter);
    if m.counter + 1 < |m.order| {
      assert QueuedAt(m, m.counter + 1);
    }
  }

  lemma PopperOthers(t: Tid, m: Mem, pc: Popper, m': Mem, pc': Popper, u: Tid, ot: Popper)
    requires QueueInv(m) && PopperInv(t, m, pc) && PopperStep(t, m, pc, m', pc') && QueueInv(m')
    requires u != t && PopperInv(u, m, ot)
    ensures PopperInv(u, m', ot)
  {
    assert QueuedAt(m, m.counter);
  }

  lemma ScribbleKeeps(m: Mem, m': Mem, n: Node, pusher: Pusher)
    requires QueueInv(m) && PusherInv(m, pusher) && Scribble(m, m', n)
    ensures QueueInv(m') && PusherInv(m', pusher)
    ensures forall u, ot {:trigger PopperInv(u, m, ot)} :: PopperInv(u, m, ot) ==> PopperInv(u, m', ot)
  {
    forall i | m'.counter <= i < |m'.order| ensures QueuedAt(m', i) {
      assert QueuedAt(m, i);
    }
  }

  lemma NextKeeps(s: State, s': State)
    requires Inv(s) && Next(s, s')
    ensures Inv(s')
  {
    if s' == State(s'.mem, s'.pusher, s.poppers) && PusherStep(s.mem, s.pusher, s'.mem, s'.pusher) {
      PusherKeeps(s.mem, s.pusher, s'.mem, s'.pusher);
    } else if t :| Pop(s, s', t) {
      PopperQueue(t, s.mem, s.poppers[t], s'.mem, s'.poppers[t], s.pusher);
      PopperOwn(t, s.mem, s.poppers[t], s'.mem, s'.poppers[t]);
      forall u | u in s.poppers && u != t ensures PopperInv(u, s'.mem, s.poppers[u]) {
        PopperOthers(t, s.mem, s.poppers[t], s'.mem, s'.poppers[t], u, s.poppers[u]);
      }
    } else if n :| Reuse(s, s', n) {
      ScribbleKeeps(s.mem, s'.mem, n, s.pusher);
    }
  }

  lemma InitInv(s: State)
    requires Init(s)
    ensures Inv(s)
  {
  }

  lemma RunInv(run: seq<State>, i: nat)
    requires IsRun(Init, Next, run) && i < |run|
    ensures Inv(run[i])
  {
    forall s | Init(s) ensures Inv(s) { InitInv(s); }
    forall s, s' | Inv(s) && Next(s, s') ensures Inv(s') { NextKeeps(s, s'); }
    Invariance(Init, Next, Inv, run, i);
  }

  // ---------------------------------------------------------------- theorems

  /** Each successful pop has claimed the oldest value, exactly once: the values popped are the first
      `counter` values pushed. */
  lemma PoppedIsPrefixOfPushed(run: seq<State>, i: nat)
    requires IsRun(Init, Next, run) && i < |run|
    ensures run[i].mem.counter <= |run[i].mem.pushed| && run[i].mem.popped == run[i].mem.pushed[..run[i].mem.counter]
  {
    RunInv(run, i);
  }

  /** ABA is impossible: a snapshot whose counter still matches holds the true head, its true successor and the
      oldest value, however often nodes were reused in between. */
  lemma MatchingCounterIsTrueSnapshot(run: seq<State>, i: nat, t: Tid)
    requires IsRun(Init, Next, run) && i < |run| && t in run[i].poppers && run[i].poppers[t].GotData?
    requires run[i].poppers[t].c == run[i].mem.counter
    ensures var m, pc := run[i].mem, run[i].poppers[t];
      && pc.h == m.head && pc.h in m.heap && m.heap[pc.h].next == Some(pc.nx)
      && pc.nx in m.heap && pc.d == m.heap[pc.nx].data
      && m.counter < |m.pushed| && pc.d == m.pushed[m.counter]
  {
    RunInv(run, i);
    var m := run[i].mem;
    assert PopperInv(t, m, run[i].poppers[t]);
    assert QueuedAt(m, m.counter) && QueuedAt(m, m.counter + 1);
  }

  /** The node about to be handed out is no longer in the queue and belongs to its popper alone. */
  lemma HandedNodeIsExclusive(run: seq<State>, i: nat, t: Tid, u: Tid, j: nat)
    requires IsRun(Init, Next, run) && i < |run| && t in run[i].poppers && u in run[i].poppers
    requires run[i].poppers[t].GiveData?
    ensures var m, h := run[i].mem, run[i].poppers[t].h;
      && (m.counter <= j < |m.order| ==> m.order[j] != h)
      && (run[i].poppers[u].GiveData? && run[i].poppers[u].h == h ==> t == u)
      && (run[i].pusher.PushInit? || run[i].pusher.PushLink? ==> run[i].pusher.n != h)
  {
    RunInv(run, i);
    var m := run[i].mem;
    assert PopperInv(t, m, run[i].poppers[t]) && PopperInv(u, m, run[i].poppers[u]);
    if m.counter <= j < |m.order| {
      assert QueuedAt(m, j);
    }
  }

  /** The model's guards never hold a popper back: it always has a step to take, and a matching head is swung. */
  lemma PopperNeverStuck(run: seq<State>, i: nat, t: Tid)
    requires IsRun(Init, Next, run) && i < |run| && t in run[i].poppers
    ensures exists m', pc' :: PopperStep(t, run[i].mem, run[i].poppers[t], m', pc')
  {
    RunInv(run, i);
    var s' := PopperGoesOn(run[i], t);
  }

  /** Nor the pusher in the middle of a push. */
  lemma PusherNeverStuck(run: seq<State>, i: nat)
    requires IsRun(Init, Next, run) && i < |run|
    ensures run[i].pusher == Resting || exists m', pc' :: PusherStep(run[i].mem, run[i].pusher, m', pc')
  {
    RunInv(run, i);
    if run[i].pusher != Resting {
      var s' := PusherGoesOn(run[i]);
    }
  }

  /** How many of its own steps a popper, or the pusher, is from the end of its operation at most. */
  ghost function PopperDistance(pc: Popper): nat {
    match pc
    case Idle => 0
    case GotCounter(_) => 5
    case GotNode(_, _) => 4
    case GotNext(_, _, _) => 3
    case GotData(_, _, _, _) => 2
    case GiveData(_, _) => 1
  }

  ghost function PusherDistance(pc: Pusher): nat {
    match pc
    case Resting => 0
    case PushInit(_) => 3
    case PushLink(_) => 2
    case PushTail(_) => 1
  }

  ghost predicate Push(s: State, s': State) {
    s' == State(s'.mem, s'.pusher, s.poppers) && PusherStep(s.mem, s.pusher, s'.mem, s'.pusher)
  }

  lemma PopperGoesOn(s: State, t: Tid) returns (s': State)
    requires Inv(s) && t in s.poppers
    ensures Pop(s, s', t) && (s.poppers[t] == Idle || PopperDistance(s'.poppers[t]) < PopperDistance(s.poppers[t]))
  {
    var m, pc := s.mem, s.poppers[t];
    assert PopperInv(t, m, pc);
    var m', pc' := m, Idle;
    match pc {
      case Idle => pc' := GotCounter(m.counter);
      case GotCounter(c) => pc' := GotNode(c, m.head);
      case GotNode(c, h) => pc' := if m.heap[h].next.Some? then GotNext(c, h, m.heap[h].next.value) else Idle;
      case GotNext(c, h, nx) => pc' := GotData(c, h, nx, if nx in m.heap then m.heap[nx].data else 0);
      case GotData(c, h, nx, d) =>
        if m.counter == c && m.head == h {
          m' := Write(m, h, m.heap[h].(place := Taken(t))).(counter := c + 1, head := nx, popped := m.popped + [d]);
          pc' := GiveData(h, d);
        }
      case GiveData(h, d) => m' := Write(m, h, m.heap[h].(data := d, place := Free));
    }
    s' := s.(mem := m', poppers := s.poppers[t := pc']);
  }

  lemma PusherGoesOn(s: State) returns (s': State)
    requires Inv(s) && s.pusher != Resting
    ensures Push(s, s') && PusherDistance(s'.pusher) < PusherDistance(s.pusher)
  {
    var m := s.mem;
    assert QueuedAt(m, |m.order| - 1);
    match s.pusher
    case PushInit(n) => s' := s.(mem := Write(m, n, m.heap[n].(next := None)), pusher := PushLink(n));
    case PushLink(n) =>
      var linked := m.heap[m.tail := m.heap[m.tail].(next := Some(n))];
      var m' := m.(heap := linked[n := m.heap[n].(place := Queued(|m.order|))],
                   order := m.order + [n], pushed := m.pushed + [m.heap[n].data]);
      s' := s.(mem := m', pusher := PushTail(n));
    case PushTail(n) => s' := s.(mem := m.(tail := n), pusher := Resting);
  }

  ghost predicate PopperCanFinish(s: State, t: Tid, k: nat)
    decreases k
  {
    t in s.poppers && (s.poppers[t] == Idle || (k > 0 && exists s' :: Pop(s, s', t) && PopperCanFinish(s', t, k - 1)))
  }

  ghost predicate PusherCanFinish(s: State, k: nat)
    decreases k
  {
    s.pusher == Resting || (k > 0 && exists s' :: Push(s, s') && PusherCanFinish(s', k - 1))
  }

  lemma {:induction false} PopperFinishes(s: State, t: Tid, k: nat)
    requires Inv(s) && t in s.poppers && PopperDistance(s.poppers[t]) <= k
    ensures PopperCanFinish(s, t, k)
    decreases k
  {
    if s.poppers[t] != Idle {
      var s' := PopperGoesOn(s, t);
      NextKeeps(s, s');
      PopperFinishes(s', t, k - 1);
    }
  }

  lemma {:induction false} PusherFinishes(s: State, k: nat)
    requires Inv(s) && PusherDistance(s.pusher) <= k
    ensures PusherCanFinish(s, k)
    decreases k
  {
    if s.pusher != Resting {
      var s' := PusherGoesOn(s);
      NextKeeps(s, s');
      PusherFinishes(s', k - 1);
    }
  }

  /** From every reachable state every popper, and the pusher, can finish its operation alone. */
  lemma CompletesAlone(run: seq<State>, i: nat, t: Tid)
    requires IsRun(Init, Next, run) && i < |run|
    ensures PusherCanFinish(run[i], 3)
    ensures t in run[i].poppers ==> PopperCanFinish(run[i], t, 5)
  {
    RunInv(run, i);
    PusherFinishes(run[i], 3);
    if t in run[i].poppers {
      PopperFinishes(run[i], t, 5);
    }
  }

  // ---------------------------------------------------------------- what the operations answer

  /** A popper whose counter is current answers EMPTY exactly when everything pushed has been popped. */
  lemma PopGivesUpExactly(run: seq<State>, i: nat, t: Tid)
    requires IsRun(Init, Next, run) && i + 1 < |run| && Pop(run[i], run[i + 1], t)
    requires run[i].poppers[t].GotNode? && run[i].poppers[t].c == run[i].mem.counter
    ensures var m, pc, pc' := run[i].mem, run[i].poppers[t], run[i + 1].poppers[t];
      && m.counter <= |m.pushed| == |m.order| - 1
      && (pc' == Idle <==> m.popped == m.pushed)
      && (pc' != Idle ==> m.counter < |m.pushed| && pc' == GotNext(pc.c, pc.h, m.order[m.counter + 1]))
  {
    RunInv(run, i);
    assert PopperInv(t, run[i].mem, run[i].poppers[t]);
    assert QueuedAt(run[i].mem, run[i].mem.counter);
  }

  /** It answers RETRY exactly when some pop has succeeded since it read the counter. */
  lemma PopRetriesExactly(run: seq<State>, i: nat, t: Tid)
    requires IsRun(Init, Next, run) && i + 1 < |run| && Pop(run[i], run[i + 1], t) && run[i].poppers[t].GotData?
    ensures var m, pc, pc' := run[i].mem, run[i].poppers[t], run[i + 1].poppers[t];
      && pc.c <= m.counter == |m.popped|
      && (pc' == Idle <==> pc.c < |m.popped|)
      && (pc' != Idle ==> pc' == GiveData(pc.h, pc.d) && run[i + 1].mem.popped == m.popped + [pc.d])
  {
    RunInv(run, i);
    assert PopperInv(t, run[i].mem, run[i].poppers[t]);
  }
}
