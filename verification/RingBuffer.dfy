/**
 The lock-free ring buffer: any number of pushers and poppers.  A pusher claims a sequence number with a
 compare-and-swap on `high` and stores its value afterwards; a popper reads the value, claims the number
 with a compare-and-swap on `low` and clears the slot afterwards.
 */
module RingBuffer {
  import opened Common
  import opened Runs
  import opened Masks

  /** Auxiliary: the life of a sequence number. */
  datatype Status = Claimed | Written | Cleared

  datatype Entry = Entry(value: Value, status: Status, pusher: Tid, popper: Tid)

  datatype Pc =
    | Idle
    // trypush
    | PushHigh(v: Value, low: nat)
    | PushSlot(v: Value, low: nat, high: nat)
    | PushCas(v: Value, high: nat)
    | PushStore(v: Value, high: nat)
    // trypop
    | PopLow(high: nat)
    | PopSlot(high: nat, low: nat)
    | PopCas(low: nat, ret: Value)
    | PopClear(low: nat)

  datatype Mem = Mem(
    high: nat,
    low: nat,
    buffer: seq<Option<Value>>,
    log: seq<Entry>,          // history: one entry per sequence number claimed
    popped: seq<Value>)       // history: values returned, in the order of the low CASes

  datatype State = State(mem: Mem, threads: map<Tid, Pc>)

  ghost predicate Init(s: State) {
    && s.mem.high == s.mem.low == 0 && s.mem.log == [] && s.mem.popped == []
    && |s.mem.buffer| > 0 && (forall k :: 0 <= k < |s.mem.buffer| ==> s.mem.buffer[k] == None)
    && s.threads == map[]
  }

  // ---------------------------------------------------------------- transitions

  ghost predicate ThreadStep(t: Tid, m: Mem, pc: Pc, m': Mem, pc': Pc)
    requires |m.buffer| > 0
  {
    var size := |m.buffer|;
    match pc
    case Idle =>
      m' == m && ((pc'.PushHigh? && pc'.low == m.low) || pc' == PopLow(m.high))
    case PushHigh(v, low) =>
      m' == m && pc' == PushSlot(v, low, m.high)
    case PushSlot(v, low, high) =>
      m' == m && pc' == if m.buffer[high % size] == None && high - low < size then PushCas(v, high) else Idle
    case PushCas(v, high) =>
      || (m' == m && pc' == Idle)                           // lost, or a spurious failure
      || (m.high == high && m' == Claim(t, m, v) && pc' == PushStore(v, high))
    case PushStore(v, high) =>
      && high < |m.log| && pc' == Idle
      && m' == m.(buffer := m.buffer[high % size := Some(v)], log := m.log[high := m.log[high].(status := Written)])
    case PopLow(high) =>
      m' == m && pc' == PopSlot(high, m.low)
    case PopSlot(high, low) =>
      && m' == m
      && pc' == if m.buffer[low % size].Some? && high > low then PopCas(low, m.buffer[low % size].value) else Idle
    case PopCas(low, ret) =>
      || (m' == m && pc' == Idle)
      || (m.low == low && low < |m.log| && m' == Release(t, m, ret) && pc' == PopClear(low))
    case PopClear(low) =>
      && low < |m.log| && pc' == Idle
      && m' == m.(buffer := m.buffer[low % size := None], log := m.log[low := m.log[low].(status := Cleared)])
  }

  /** A successful CAS on high. */
  ghost function Claim(t: Tid, m: Mem, v: Value): Mem {
    m.(high := m.high + 1, log := m.log + [Entry(v, Claimed, t, t)])
  }

  /** A successful CAS on low. */
  ghost function Release(t: Tid, m: Mem, ret: Value): Mem
    requires m.low < |m.log|
  {
    m.(low := m.low + 1, popped := m.popped + [ret], log := m.log[m.low := m.log[m.low].(popper := t)])
  }

  ghost predicate Step(s: State, s': State, t: Tid) {
    && |s.mem.buffer| > 0 && t in s.threads && t in s'.threads
    && s' == State(s'.mem, s.threads[t := s'.threads[t]])
    && ThreadStep(t, s.mem, s.threads[t], s'.mem, s'.threads[t])
  }

  ghost predicate Join(s: State, s': State, t: Tid) {
    t !in s.threads && s' == s.(threads := s.threads[t := Idle])
  }

  ghost predicate Next(s: State, s': State) {
    exists t :: Step(s, s', t) || Join(s, s', t)
  }

  // ---------------------------------------------------------------- invariant

  ghost predicate MemInv(m: Mem) {
    && |m.buffer| > 0
    && |m.log| == m.high && |m.popped| == m.low <= m.high <= m.low + |m.buffer|
    && (forall i :: 0 <= i < m.high ==> EntryInv(m, i))
    && (forall k :: m.high <= k < |m.buffer| ==> m.buffer[k] == None)
  }

  /** A number within one buffer length of high owns its slot; an older one has let go of it. */
  ghost predicate EntryInv(m: Mem, i: nat)
    requires i < |m.log| && |m.buffer| > 0
  {
    var e := m.log[i];
    && (i < m.low ==> e.status != Claimed && i < |m.popped| && m.popped[i] == e.value)
    && (i >= m.low ==> e.status != Cleared)
    && (i + |m.buffer| < m.high ==> e.status == Cleared)
    && (i + |m.buffer| >= m.high ==> m.buffer[i % |m.buffer|] == if e.status == Written then Some(e.value) else None)
  }

  ghost predicate ThreadInv(t: Tid, m: Mem, pc: Pc) {
    var size := |m.buffer|;
    match pc
    case Idle => true
    case PushHigh(_, low) => low <= m.low
    case PushSlot(_, low, high) => low <= m.low && low <= high <= m.high
    case PushCas(_, high) =>
      && high <= m.high && high < m.low + size
      && (high == m.high && high >= size ==> high - size < |m.log| && m.log[high - size].status == Cleared)
    case PushStore(v, high) =>
      high < |m.log| && m.log[high].value == v && m.log[high].status == Claimed && m.log[high].pusher == t
    case PopLow(high) => high <= m.high
    case PopSlot(high, low) => high <= m.high && low <= m.low
    case PopCas(low, ret) =>
      low <= m.low && low < |m.log| && (low == m.low ==> m.log[low].status == Written && ret == m.log[low].value)
    case PopClear(low) =>
      low < m.low && low < |m.log| && m.log[low].status == Written && m.log[low].popper == t
  }

  ghost predicate Inv(s: State) {
    MemInv(s.mem) && forall t :: t in s.threads ==> ThreadInv(t, s.mem, s.threads[t])
  }

  // ---------------------------------------------------------------- steps keep the invariant

  /** Claiming the next number: its slot was let go by the number one buffer length before. */
  lemma ClaimKeeps(t: Tid, m: Mem, v: Value)
    requires MemInv(m) && ThreadInv(t, m, PushCas(v, m.high))
    ensures MemInv(Claim(t, m, v))
  {
    var m', size := Claim(t, m, v), |m.buffer|;
    if m.high >= size {
      assert EntryInv(m, m.high - size);
      SlotWraps(m.high - size, size);
    } else {
      RemainderUnique(m.high, size, 0, m.high);
    }
    forall i | 0 <= i < m'.high ensures EntryInv(m', i) {
      if i < m.high {
        assert EntryInv(m, i);
      }
    }
  }

  /** Writing or clearing a slot, by the thread that owns the number. */
  lemma SlotUpdateKeeps(m: Mem, n: nat, e: Entry)
    requires MemInv(m) && n < m.high && n + |m.buffer| >= m.high
    requires e.value == m.log[n].value && e.status == if n < m.low then Cleared else Written
    ensures MemInv(m.(buffer := m.buffer[n % |m.buffer| := if e.status == Written then Some(e.value) else None],
                      log := m.log[n := e]))
  {
    var size := |m.buffer|;
    var slot := if e.status == Written then Some(e.value) else None;
    var m' := m.(buffer := m.buffer[n % size := slot], log := m.log[n := e]);
    forall i | 0 <= i < m'.high ensures EntryInv(m', i) {
      assert EntryInv(m, i);
      if i < n && i + size >= m.high {
        SlotsDiffer(i, n, size);
      } else if n < i {
        SlotsDiffer(n, i, size);
      }
    }
    forall k | m'.high <= k < size ensures m'.buffer[k] == None {
      RemainderUnique(n, size, 0, n);
    }
  }

  lemma StepMem(t: Tid, m: Mem, pc: Pc, m': Mem, pc': Pc)
    requires MemInv(m) && ThreadInv(t, m, pc) && ThreadStep(t, m, pc, m', pc')
    ensures MemInv(m')
  {
    match pc
    case PushCas(v, _) => if m' != m { ClaimKeeps(t, m, v); }
    case PushStore(_, n) =>
      assert EntryInv(m, n);
      SlotUpdateKeeps(m, n, m'.log[n]);
    case PopCas(low, _) =>
      if m' != m {
        assert EntryInv(m, low);
        forall i | 0 <= i < m'.high ensures EntryInv(m', i) {
          assert EntryInv(m, i);
        }
      }
    case PopClear(n) =>
      assert EntryInv(m, n);
      SlotUpdateKeeps(m, n, m'.log[n]);
    case _ =>
  }

  lemma StepOwn(t: Tid, m: Mem, pc: Pc, m': Mem, pc': Pc)
    requires MemInv(m) && ThreadInv(t, m, pc) && ThreadStep(t, m, pc, m', pc')
    ensures ThreadInv(t, m', pc')
  {
    var size := |m.buffer|;
    if pc.PushSlot? && pc.high >= size && pc.high == m.high {
      if pc.high - size < pc.low {
        assert EntryInv(m, pc.high - size);
        SlotWraps(pc.high - size, size);
      }
    }
    if pc.PopSlot? && pc.low < m.high {
      assert EntryInv(m, pc.low);
    }
  }

  lemma ClaimOthers(t: Tid, m: Mem, v: Value, u: Tid, ot: Pc)
    requires MemInv(m) && u != t && ThreadInv(u, m, ot)
    ensures ThreadInv(u, Claim(t, m, v), ot)
  {
  }

  lemma ReleaseOthers(t: Tid, m: Mem, ret: Value, u: Tid, ot: Pc)
    requires MemInv(m) && m.low < |m.log| && u != t && ThreadInv(u, m, ot)
    ensures ThreadInv(u, Release(t, m, ret), ot)
  {
    if ot.PushStore? {
      assert EntryInv(m, ot.high);
    }
  }

  /** A store or clear touches only the entry of its own number, which no other thread writes. */
  lemma SlotOthers(t: Tid, m: Mem, pc: Pc, m': Mem, pc': Pc, u: Tid, ot: Pc)
    requires MemInv(m) && ThreadInv(t, m, pc) && (pc.PushStore? || pc.PopClear?) && ThreadStep(t, m, pc, m', pc')
    requires u != t && ThreadInv(u, m, ot)
    ensures ThreadInv(u, m', ot)
  {
    var n := if pc.PushStore? then pc.high else pc.low;
    assert EntryInv(m, n) && m'.log == m.log[n := m'.log[n]];
  }

  lemma StepOthers(t: Tid, m: Mem, pc: Pc, m': Mem, pc': Pc, u: Tid, ot: Pc)
    requires MemInv(m) && ThreadInv(t, m, pc) && ThreadStep(t, m, pc, m', pc')
    requires u != t && ThreadInv(u, m, ot)
    ensures ThreadInv(u, m', ot)
  {
    match pc
    case PushCas(v, _) => if m' != m { ClaimOthers(t, m, v, u, ot); }
    case PushStore(_, _) => SlotOthers(t, m, pc, m', pc', u, ot);
    case PopCas(_, ret) => if m' != m { ReleaseOthers(t, m, ret, u, ot); }
    case PopClear(_) => SlotOthers(t, m, pc, m', pc', u, ot);
    case _ =>
  }

  lemma StepKeeps(s: State, s': State, t: Tid)
    requires Inv(s) && Step(s, s', t)
    ensures Inv(s')
  {
    assert ThreadInv(t, s.mem, s.threads[t]);
    StepMem(t, s.mem, s.threads[t], s'.mem, s'.threads[t]);
    StepOwn(t, s.mem, s.threads[t], s'.mem, s'.threads[t]);
    forall u | u in s.threads && u != t ensures ThreadInv(u, s'.mem, s.threads[u]) {
      StepOthers(t, s.mem, s.threads[t], s'.mem, s'.threads[t], u, s.threads[u]);
    }
  }

  lemma NextKeeps(s: State, s': State)
    requires Inv(s) && Next(s, s')
    ensures Inv(s')
  {
    var t :| Step(s, s', t) || Join(s, s', t);
    if Step(s, s', t) {
      StepKeeps(s, s', t);
    }
  }

  lemma InitInv(s: State)
    requires Init(s)
    ensures Inv(s)
  {
  }

  lemma RunInv(run: seq<State>, i: nat)
    requires IsRun(Init, Next, run) && i < |run|
    ensures Inv(run[i])
  {
    forall s | Init(s) ensures Inv(s) { InitInv(s); }
    forall s, s' | Inv(s) && Next(s, s') ensures Inv(s') { NextKeeps(s, s'); }
    Invariance(Init, Next, Inv, run, i);
  }

  // ---------------------------------------------------------------- theorems

  /** A bounded FIFO: what has been popped is, number by number, what was pushed, and at most `size` numbers
      are outstanding. */
  lemma BoundedFifo(run: seq<State>, i: nat)
    requires IsRun(Init, Next, run) && i < |run|
    ensures var m := run[i].mem;
      && m.low == |m.popped| <= |m.log| == m.high <= m.low + |m.buffer|
      && forall n :: 0 <= n < m.low ==> m.popped[n] == m.log[n].value
  {
    RunInv(run, i);
    forall n | 0 <= n < run[i].mem.low ensures run[i].mem.popped[n] == run[i].mem.log[n].value {
      assert EntryInv(run[i].mem, n);
    }
  }

  /** A successful pop returns the value of the number it claims, written and not yet popped: never a stale one. */
  lemma PopReturnsItsNumber(run: seq<State>, i: nat, t: Tid)
    requires IsRun(Init, Next, run) && i + 1 < |run| && Step(run[i], run[i + 1], t)
    requires run[i + 1].mem.low != run[i].mem.low
    ensures var m, m' := run[i].mem, run[i + 1].mem;
      && m.low < |m.log| && m.log[m.low].status == Written && m'.popped == m.popped + [m.log[m.low].value]
  {
    RunInv(run, i);
    assert ThreadInv(t, run[i].mem, run[i].threads[t]);
  }

  /** A late store or clear hits its own number's slot: the slot holds nothing of any other number, and each
      number is written by the one thread that claimed it and cleared by the one that popped it. */
  lemma LateAccessIsOwn(run: seq<State>, i: nat, t: Tid, u: Tid)
    requires IsRun(Init, Next, run) && i < |run| && t in run[i].threads && u in run[i].threads
    ensures var m, pc, ot := run[i].mem, run[i].threads[t], run[i].threads[u];
      && |m.buffer| > 0
      && (pc.PushStore? ==> m.buffer[pc.high % |m.buffer|] == None && m.high <= pc.high + |m.buffer|)
      && (pc.PopClear? ==>
            pc.low < |m.log| && m.buffer[pc.low % |m.buffer|] == Some(m.log[pc.low].value)
            && m.high <= pc.low + |m.buffer|)
      && (pc.PushStore? && ot.PushStore? && pc.high == ot.high ==> t == u)
      && (pc.PopClear? && ot.PopClear? && pc.low == ot.low ==> t == u)
  {
    RunInv(run, i);
    var m, pc := run[i].mem, run[i].threads[t];
    assert ThreadInv(t, m, pc) && ThreadInv(u, m, run[i].threads[u]);
    if pc.PushStore? {
      assert EntryInv(m, pc.high);
    } else if pc.PopClear? {
      assert EntryInv(m, pc.low);
    }
  }

  /** The thread's compare-and-swap finds what it read. */
  ghost predicate CanWin(m: Mem, pc: Pc) {
    (pc.PushCas? && m.high == pc.high) || (pc.PopCas? && m.low == pc.low)
  }

  /** The model's guards never hold a thread back: every thread always has a step to take, and a compare-and-swap that
      finds what it read can win. */
  lemma NeverStuck(run: seq<State>, i: nat, t: Tid)
    requires IsRun(Init, Next, run) && i < |run| && t in run[i].threads
    ensures exists s' :: Step(run[i], s', t) && (CanWin(run[i].mem, run[i].threads[t]) ==> s'.mem != run[i].mem)
  {
    RunInv(run, i);
    var m, pc := run[i].mem, run[i].threads[t];
    assert ThreadInv(t, m, pc);
    var m', pc' := GoesOn(t, m, pc);
    assert Step(run[i], State(m', run[i].threads[t := pc']), t);
  }

  /** How many of its own steps a thread is from the end of its operation at most. */
  ghost function Distance(pc: Pc): nat {
    match pc
    case Idle => 0
    case PushHigh(_, _) => 4
    case PushSlot(_, _, _) => 3
    case PushCas(_, _) => 2
    case PushStore(_, _) => 1
    case PopLow(_) => 4
    case PopSlot(_, _) => 3
    case PopCas(_, _) => 2
    case PopClear(_) => 1
  }

  lemma GoesOn(t: Tid, m: Mem, pc: Pc) returns (m': Mem, pc': Pc)
    requires MemInv(m) && ThreadInv(t, m, pc)
    ensures ThreadStep(t, m, pc, m', pc') && (CanWin(m, pc) ==> m' != m)
    ensures pc == Idle || Distance(pc') < Distance(pc)
  {
    var size := |m.buffer|;
    m', pc' := m, Idle;
    match pc
    case Idle => pc' := PopLow(m.high);
    case PushHigh(v, low) => pc' := PushSlot(v, low, m.high);
    case PushSlot(v, low, high) =>
      pc' := if m.buffer[high % size] == None && high - low < size then PushCas(v, high) else Idle;
    case PushCas(v, high) => if m.high == high { m', pc' := Claim(t, m, v), PushStore(v, high); }
    case PushStore(v, high) =>
      m' := m.(buffer := m.buffer[high % size := Some(v)], log := m.log[high := m.log[high].(status := Written)]);
    case PopLow(high) => pc' := PopSlot(high, m.low);
    case PopSlot(high, low) =>
      pc' := if m.buffer[low % size].Some? && high > low then PopCas(low, m.buffer[low % size].value) else Idle;
    case PopCas(low, ret) => if m.low == low { m', pc' := Release(t, m, ret), PopClear(low); }
    case PopClear(low) =>
      m' := m.(buffer := m.buffer[low % size := None], log := m.log[low := m.log[low].(status := Cleared)]);
  }

  // ---------------------------------------------------------------- what the operations answer

  /** A push that has the current high gives up exactly when the buffer was full as far as it knows, or the number one
      buffer length before still occupies the slot; in particular it uses every slot. */
  lemma PushGivesUpExactly(run: seq<State>, i: nat, t: Tid)
    requires IsRun(Init, Next, run) && i + 1 < |run| && Step(run[i], run[i + 1], t)
    requires run[i].threads[t].PushSlot? && run[i].threads[t].high == run[i].mem.high
    ensures var m, low, size := run[i].mem, run[i].threads[t].low, |run[i].mem.buffer|;
      && low <= m.low <= m.high == |m.log| <= m.low + size
      && (run[i + 1].threads[t] == Idle <==>
            m.high - low >= size || (m.high >= size && m.log[m.high - size].status != Cleared))
      && (run[i + 1].threads[t] != Idle ==> run[i + 1].threads[t] == PushCas(run[i].threads[t].v, m.high))
  {
    RunInv(run, i);
    var m, pc := run[i].mem, run[i].threads[t];
    assert ThreadInv(t, m, pc);
    PushSlotExactly(m, pc.low);
  }

  lemma PushSlotExactly(m: Mem, low: nat)
    requires MemInv(m) && low <= m.low
    ensures var size := |m.buffer|;
      m.buffer[m.high % size] == None && m.high - low < size <==>
        !(m.high - low >= size || (m.high >= size && m.log[m.high - size].status != Cleared))
  {
    var size := |m.buffer|;
    if m.high >= size {
      assert EntryInv(m, m.high - size);
      SlotWraps(m.high - size, size);
    } else {
      RemainderUnique(m.high, size, 0, m.high);
    }
  }

  /** A pop that has the current low gives up exactly when it saw nothing claimed beyond it, or that number's value has
      not been written yet. */
  lemma PopGivesUpExactly(run: seq<State>, i: nat, t: Tid)
    requires IsRun(Init, Next, run) && i + 1 < |run| && Step(run[i], run[i + 1], t)
    requires run[i].threads[t].PopSlot? && run[i].threads[t].low == run[i].mem.low
    ensures var m, high := run[i].mem, run[i].threads[t].high;
      && high <= m.high == |m.log|
      && (run[i + 1].threads[t] == Idle <==> high <= m.low || m.log[m.low].status != Written)
      && (run[i + 1].threads[t] != Idle ==>
            m.low < |m.log| && run[i + 1].threads[t] == PopCas(m.low, m.log[m.low].value))
  {
    RunInv(run, i);
    var m, pc := run[i].mem, run[i].threads[t];
    assert ThreadInv(t, m, pc);
    if m.low < m.high {
      assert EntryInv(m, m.low);
    }
  }

  // ---------------------------------------------------------------- progress

  ghost predicate CanFinish(s: State, t: Tid, k: nat)
    decreases k
  {
    t in s.threads && (s.threads[t] == Idle || (k > 0 && exists s' :: Step(s, s', t) && CanFinish(s', t, k - 1)))
  }

  lemma {:induction false} Finishes(s: State, t: Tid, k: nat)
    requires Inv(s) && t in s.threads && Distance(s.threads[t]) <= k
    ensures CanFinish(s, t, k)
    decreases k
  {
    if s.threads[t] != Idle {
      assert ThreadInv(t, s.mem, s.threads[t]);
      var m', pc' := GoesOn(t, s.mem, s.threads[t]);
      var s' := State(m', s.threads[t := pc']);
      assert Step(s, s', t);
      StepKeeps(s, s', t);
      Finishes(s', t, k - 1);
    }
  }

  /** From every reachable state every thread can finish its operation alone within four steps. */
  lemma CompletesAlone(run: seq<State>, i: nat, t: Tid)
    requires IsRun(Init, Next, run) && i < |run| && t in run[i].threads
    ensures CanFinish(run[i], t, 4)
  {
    RunInv(run, i);
    Finishes(run[i], t, 4);
  }
}
