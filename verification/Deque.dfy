/**
 The Chase-Lev work-stealing deque: one owner pushes and pops at the bottom, any number of thieves
 steal from the top, and the owner may replace the circular array while thieves still read the old one.
 One step is one atomic access of one thread.  Copying into a grown array is a single step: the old
 array is written by the owner alone and the new one is not yet shared.
 */
module Deque {
  import opened Common
  import opened Runs
  import opened Masks

  const INITIAL_LOG_SIZE: nat := 8

  // ---------------------------------------------------------------- circular arrays

  function Get(a: seq<Value>, i: nat): Value
    requires |a| > 0
  {
    a[i % |a|]
  }

  function Put(a: seq<Value>, i: nat, v: Value): (r: seq<Value>)
    requires |a| > 0
  {
    a[i % |a| := v]
  }

  /** A write disturbs no other index less than a buffer length away. */
  lemma GetPut(a: seq<Value>, i: nat, j: nat, v: Value)
    requires |a| > 0 && j < i + |a| && i < j + |a|
    ensures Get(Put(a, i, v), j) == if i == j then v else Get(a, j)
  {
    if i < j {
      SlotsDiffer(i, j, |a|);
    } else if j < i {
      SlotsDiffer(j, i, |a|);
    }
  }

  /** What growing promises: twice the size, agreeing on every index of [from, to). */
  ghost predicate IsGrown(a: seq<Value>, a': seq<Value>, from: nat, to: nat)
    requires |a| > 0
  {
    |a'| == 2 * |a| && forall i :: from <= i < to ==> Get(a', i) == Get(a, i)
  }

  /** wsd_circular_array_grow: the copying loop. */
  method Grow(a: array<Value>, from: nat, to: nat) returns (a': array<Value>)
    requires a.Length > 0 && from <= to <= from + a.Length
    ensures fresh(a') && IsGrown(a[..], a'[..], from, to)
  {
    a' := new Value[2 * a.Length];
    for i := from to to
      invariant a'.Length == 2 * a.Length
      invariant forall j :: from <= j < i ==> a'[j % a'.Length] == a[j % a.Length]
    {
      forall j | from <= j < i ensures j % a'.Length != i % a'.Length {
        SlotsDiffer(j, i, a'.Length);
      }
      a'[i % a'.Length] := a[i % a.Length];
    }
  }

  // ---------------------------------------------------------------- state

  datatype OwnerPc =
    | Resting
    // push_bottom
    | PushTop(p: Value, b: nat)
    | PushCheck(p: Value, b: nat, t: nat)
    | PushPublish(p: Value, b: nat, fresh_array: nat)
    | PushPut(p: Value, b: nat, a: nat)
    | PushBottom(p: Value, b: nat)
    // pop_bottom; b may be -1
    | PopArray(ob: int)
    | PopStore(ob: int, a: nat)
    | PopTop(ob: int, a: nat)
    | PopRestore(t: nat)
    | PopRead(ob: int, a: nat, t: nat, taken: Option<Value>)   // taken: auxiliary, the item claimed without a CAS
    | PopCas(t: nat, ret: Value)
    | PopFinish(tPlusOne: nat)

  datatype ThiefPc =
    | Prowling
    | StealBottom(t: nat)
    | StealArray(t: nat, b: int)
    | StealRead(t: nat, a: nat)
    | StealCas(t: nat, ret: Value)

  datatype Mem = Mem(
    top: nat,
    bottom: int,
    arrays: seq<seq<Value>>,     // every array ever created: old ones stay readable
    current: nat,                // underlying_array, as an index into arrays
    log: seq<Value>,             // history: log[i] is the item at index i; the live window is log[top..]
    pushed: multiset<Value>,     // history: items pushed
    returned: multiset<Value>)   // history: values actually returned by pop_bottom and steal

  datatype State = State(mem: Mem, owner: OwnerPc, thieves: map<Tid, ThiefPc>)

  ghost predicate Init(s: State) {
    && s.mem.top == 0 && s.mem.bottom == 0 && s.mem.current == 0
    && |s.mem.arrays| == 1 && |s.mem.arrays[0]| == Pow2(INITIAL_LOG_SIZE)
    && s.mem.log == [] && s.mem.pushed == multiset{} && s.mem.returned == multiset{}
    && s.owner == Resting && s.thieves == map[]
  }

  // ---------------------------------------------------------------- transitions

  ghost predicate OwnerStep(m: Mem, pc: OwnerPc, m': Mem, pc': OwnerPc) {
    match pc
    case Resting =>
      && m' == m
      && ((pc'.PushTop? && pc'.b == m.bottom) || pc' == PopArray(m.bottom - 1))
    case PushTop(p, b) =>
      m' == m && pc' == PushCheck(p, b, m.top)
    case PushCheck(p, b, t) =>
      && m.current < |m.arrays| && |m.arrays[m.current]| > 0
      && if b - t >= |m.arrays[m.current]| - 1 then
           && |m'.arrays| > 0 && m' == m.(arrays := m.arrays + [m'.arrays[|m'.arrays| - 1]])
           && IsGrown(m.arrays[m.current], m'.arrays[|m'.arrays| - 1], t, b)
           && pc' == PushPublish(p, b, |m.arrays|)
         else m' == m && pc' == PushPut(p, b, m.current)
    case PushPublish(p, b, a) =>
      m' == m.(current := a) && pc' == PushPut(p, b, a)
    case PushPut(p, b, a) =>
      && a < |m.arrays| && |m.arrays[a]| > 0
      && m' == m.(arrays := m.arrays[a := Put(m.arrays[a], b, p)]) && pc' == PushBottom(p, b)
    case PushBottom(p, b) =>
      && m' == m.(bottom := b + 1, log := m.log + [p], pushed := m.pushed + multiset{p}) && pc' == Resting
    case PopArray(b) =>
      m' == m && pc' == PopStore(b, m.current)
    case PopStore(b, a) =>
      m' == m.(bottom := b) && pc' == PopTop(b, a)
    case PopTop(b, a) =>
      if b < m.top then m' == m && pc' == PopRestore(m.top)
      else if b == m.top then m' == m && pc' == PopRead(b, a, m.top, None)
      else 0 <= b < |m.log| && m' == m.(log := m.log[..b]) && pc' == PopRead(b, a, m.top, Some(m.log[b]))
    case PopRestore(t) =>
      m' == m.(bottom := t) && pc' == Resting
    case PopRead(b, a, t, _) =>
      && b >= 0 && a < |m.arrays| && |m.arrays[a]| > 0
      && var ret := Get(m.arrays[a], b);
         if b > t then m' == m.(returned := m.returned + multiset{ret}) && pc' == Resting
         else m' == m && pc' == PopCas(t, ret)
    case PopCas(t, ret) =>
      && pc' == PopFinish(t + 1)
      && (|| m' == m                       // lost to a thief, or a spurious failure: WSD_ABORT
          || (m.top == t && m' == m.(top := t + 1, returned := m.returned + multiset{ret})))
    case PopFinish(t1) =>
      m' == m.(bottom := t1) && pc' == Resting
  }

  ghost predicate ThiefStep(m: Mem, pc: ThiefPc, m': Mem, pc': ThiefPc) {
    match pc
    case Prowling =>
      m' == m && pc' == StealBottom(m.top)
    case StealBottom(t) =>
      m' == m && pc' == StealArray(t, m.bottom)
    case StealArray(t, b) =>
      m' == m && pc' == if b - t <= 0 then Prowling else StealRead(t, m.current)
    case StealRead(t, a) =>
      a < |m.arrays| && |m.arrays[a]| > 0 && m' == m && pc' == StealCas(t, Get(m.arrays[a], t))
    case StealCas(t, ret) =>
      && pc' == Prowling
      && (|| m' == m                       // WSD_ABORT
          || (m.top == t && m' == m.(top := t + 1, returned := m.returned + multiset{ret})))
  }

  ghost predicate StealStep(s: State, s': State, t: Tid) {
    && t in s.thieves && t in s'.thieves
    && s' == State(s'.mem, s.owner, s.thieves[t := s'.thieves[t]])
    && ThiefStep(s.mem, s.thieves[t], s'.mem, s'.thieves[t])
  }

  ghost predicate Join(s: State, s': State, t: Tid) {
    t !in s.thieves && s' == s.(thieves := s.thieves[t := Prowling])
  }

  ghost predicate Next(s: State, s': State) {
    || (s' == State(s'.mem, s'.owner, s.thieves) && OwnerStep(s.mem, s.owner, s'.mem, s'.owner))
    || (exists t :: StealStep(s, s', t) || Join(s, s', t))
  }

  // ---------------------------------------------------------------- invariant

  /** Array a holds the items of the live window and has a spare slot. */
  ghost predicate Holds(m: Mem, a: nat, spare: nat) {
    && a < |m.arrays| && 0 < |m.arrays[a]|
    && |m.log| - m.top + spare <= |m.arrays[a]| - 1
    && forall i :: m.top <= i < |m.log| ==> Get(m.arrays[a], i) == m.log[i]
  }

  ghost predicate MemInv(m: Mem) {
    && m.top <= |m.log| && m.bottom <= |m.log|
    && (forall a :: 0 <= a < |m.arrays| ==> |m.arrays[a]| > 0)
    && Holds(m, m.current, 0)
  }

  ghost predicate OwnerInv(m: Mem, pc: OwnerPc)
    requires MemInv(m)
  {
    match pc
    case Resting => m.bottom == |m.log|
    case PushTop(_, b) => m.bottom == |m.log| == b
    case PushCheck(_, b, t) => m.bottom == |m.log| == b && t <= m.top && b - t <= |m.arrays[m.current]| - 1
    case PushPublish(_, b, a) => m.bottom == |m.log| == b && Holds(m, a, 1)
    case PushPut(_, b, a) => m.bottom == |m.log| == b && a == m.current && Holds(m, a, 1)
    case PushBottom(p, b) => m.bottom == |m.log| == b && Holds(m, m.current, 1) && Get(m.arrays[m.current], b) == p
    case PopArray(b) => m.bottom == |m.log| == b + 1
    case PopStore(b, a) => m.bottom == |m.log| == b + 1 && a == m.current
    case PopTop(b, a) => m.bottom == b == |m.log| - 1 && a == m.current
    case PopRestore(t) => m.bottom < |m.log| == t
    case PopRead(b, a, t, taken) =>
      && m.bottom == b && a == m.current && t <= m.top
      && if taken.Some? then b > t && |m.log| == b && Get(m.arrays[a], b) == taken.value else b == t && |m.log| == b + 1
    case PopCas(t, ret) =>
      m.bottom == t && |m.log| == t + 1 && t <= m.top && (m.top == t ==> ret == m.log[t])
    case PopFinish(t1) => m.bottom < |m.log| == t1
  }

  /** A thief whose CAS can still win has the item that is at the top. */
  ghost predicate ThiefInv(m: Mem, pc: ThiefPc)
    requires MemInv(m)
  {
    match pc
    case Prowling => true
    case StealBottom(t) => t <= m.top
    case StealArray(t, b) => t <= m.top && (m.top == t < b ==> t < |m.log|)
    case StealRead(t, a) =>
      t <= m.top && a < |m.arrays| && (m.top == t ==> t < |m.log| && Get(m.arrays[a], t) == m.log[t])
    case StealCas(t, ret) => t <= m.top && (m.top == t ==> t < |m.log| && ret == m.log[t])
  }

  /** The item an owner in mid-pop has taken out of the window but not yet returned. */
  ghost function InHand(pc: OwnerPc): multiset<Value> {
    if pc.PopRead? && pc.taken.Some? then multiset{pc.taken.value} else multiset{}
  }

  ghost predicate Balance(pushed: multiset<Value>, returned: multiset<Value>, log: seq<Value>, top: nat,
                          hand: multiset<Value>) {
    top <= |log| && pushed == returned + multiset(log[top..]) + hand
  }

  ghost predicate Conserved(m: Mem, pc: OwnerPc) {
    Balance(m.pushed, m.returned, m.log, m.top, InHand(pc))
  }

  ghost predicate Inv(s: State) {
    && MemInv(s.mem) && OwnerInv(s.mem, s.owner) && Conserved(s.mem, s.owner)
    && forall t :: t in s.thieves ==> ThiefInv(s.mem, s.thieves[t])
  }

  // ---------------------------------------------------------------- steps keep the invariant

  /** Writing the slot one past the window leaves the window alone. */
  lemma PutHolds(m: Mem, m': Mem, b: nat, p: Value)
    requires Holds(m, m.current, 1) && m.top <= |m.log| == b
    requires m' == m.(arrays := m.arrays[m.current := Put(m.arrays[m.current], b, p)])
    ensures Holds(m', m.current, 1) && Get(m'.arrays[m.current], b) == p
  {
    var a := m.arrays[m.current];
    forall i | m.top <= i <= b ensures Get(Put(a, b, p), i) == if i == b then p else m.log[i] {
      GetPut(a, b, i, p);
    }
  }

  ghost predicate Pushing(pc: OwnerPc) {
    pc.PushTop? || pc.PushCheck? || pc.PushPublish? || pc.PushPut? || pc.PushBottom?
  }

  lemma PushStepOwn(m: Mem, pc: OwnerPc, m': Mem, pc': OwnerPc)
    requires MemInv(m) && OwnerInv(m, pc) && OwnerStep(m, pc, m', pc') && Pushing(pc)
    ensures MemInv(m') && OwnerInv(m', pc')
  {
    if pc.PushPut? {
      PutHolds(m, m', pc.b, pc.p);
    }
  }

  lemma PopStepOwn(m: Mem, pc: OwnerPc, m': Mem, pc': OwnerPc)
    requires MemInv(m) && OwnerInv(m, pc) && OwnerStep(m, pc, m', pc') && !Pushing(pc)
    ensures MemInv(m') && OwnerInv(m', pc')
  {
  }

  lemma OwnerStepOwn(m: Mem, pc: OwnerPc, m': Mem, pc': OwnerPc)
    requires MemInv(m) && OwnerInv(m, pc) && OwnerStep(m, pc, m', pc')
    ensures MemInv(m') && OwnerInv(m', pc')
  {
    if Pushing(pc) {
      PushStepOwn(m, pc, m', pc');
    } else {
      PopStepOwn(m, pc, m', pc');
    }
  }

  lemma BalancePush(pushed: multiset<Value>, returned: multiset<Value>, log: seq<Value>, top: nat, p: Value)
    requires Balance(pushed, returned, log, top, multiset{})
    ensures Balance(pushed + multiset{p}, returned, log + [p], top, multiset{})
  {
    assert (log + [p])[top..] == log[top..] + [p];
  }

  /** The newest item leaves the window for the owner's hand. */
  lemma BalanceClaim(pushed: multiset<Value>, returned: multiset<Value>, log: seq<Value>, top: nat, b: nat)
    requires Balance(pushed, returned, log, top, multiset{}) && top <= b == |log| - 1
    ensures Balance(pushed, returned, log[..b], top, multiset{log[b]})
  {
    assert log[top..] == log[..b][top..] + [log[b]];
  }

  lemma BalanceReturn(pushed: multiset<Value>, returned: multiset<Value>, log: seq<Value>, top: nat,
                      hand: multiset<Value>)
    requires Balance(pushed, returned, log, top, hand)
    ensures Balance(pushed, returned + hand, log, top, multiset{})
  {
  }

  /** The oldest item leaves the window for good. */
  lemma BalanceTake(pushed: multiset<Value>, returned: multiset<Value>, log: seq<Value>, top: nat,
                    hand: multiset<Value>)
    requires Balance(pushed, returned, log, top, hand) && top < |log|
    ensures Balance(pushed, returned + multiset{log[top]}, log, top + 1, hand)
  {
    assert log[top..] == [log[top]] + log[top + 1..];
  }

  /** What conservation needs to know of the owner. */
  ghost predicate OwnerBrief(m: Mem, pc: OwnerPc) {
    && (pc.PopTop? ==> pc.ob == |m.log| - 1)
    && (pc.PopRead? ==> (pc.taken.Some? <==> pc.ob > pc.t))
    && (pc.PopRead? && pc.taken.Some? ==>
          pc.a < |m.arrays| && |m.arrays[pc.a]| > 0 && pc.ob >= 0 && Get(m.arrays[pc.a], pc.ob) == pc.taken.value)
    && (pc.PopCas? ==> pc.t < |m.log| && (m.top == pc.t ==> pc.ret == m.log[pc.t]))
  }

  lemma OwnerInBrief(m: Mem, pc: OwnerPc)
    requires MemInv(m) && OwnerInv(m, pc)
    ensures OwnerBrief(m, pc)
  {
  }

  /** What a step does to the histories and the owner's hand: nothing, or one of four moves of one item. */
  ghost predicate Quiet(m: Mem, hand: multiset<Value>, m': Mem, hand': multiset<Value>) {
    m'.log == m.log && m'.top == m.top && m'.pushed == m.pushed && m'.returned == m.returned && hand' == hand
  }

  ghost predicate Enters(m: Mem, hand: multiset<Value>, m': Mem, hand': multiset<Value>, p: Value) {
    && m'.log == m.log + [p] && m'.top == m.top && m'.pushed == m.pushed + multiset{p} && m'.returned == m.returned
    && hand == hand' == multiset{}
  }

  ghost predicate Claimed(m: Mem, hand: multiset<Value>, m': Mem, hand': multiset<Value>) {
    var b := |m.log| - 1;
    && m.top <= b && m'.log == m.log[..b] && m'.top == m.top && m'.pushed == m.pushed && m'.returned == m.returned
    && hand == multiset{} && hand' == multiset{m.log[b]}
  }

  ghost predicate HandedOut(m: Mem, hand: multiset<Value>, m': Mem, hand': multiset<Value>) {
    && m'.log == m.log && m'.top == m.top && m'.pushed == m.pushed && m'.returned == m.returned + hand
    && hand' == multiset{}
  }

  ghost predicate TakenFromTop(m: Mem, hand: multiset<Value>, m': Mem, hand': multiset<Value>) {
    m.top < |m.log| && m' == Taken(m) && hand == hand' == multiset{}
  }

  lemma PushStepMoves(m: Mem, pc: OwnerPc, m': Mem, pc': OwnerPc)
    requires OwnerStep(m, pc, m', pc') && Pushing(pc)
    ensures if pc.PushBottom? then Enters(m, InHand(pc), m', InHand(pc'), pc.p)
            else Quiet(m, InHand(pc), m', InHand(pc'))
  {
  }

  lemma PopStepMoves(m: Mem, pc: OwnerPc, m': Mem, pc': OwnerPc)
    requires OwnerBrief(m, pc) && OwnerStep(m, pc, m', pc') && m.top <= |m.log| && !Pushing(pc)
    ensures var hand, hand' := InHand(pc), InHand(pc');
      if pc.PopTop? && pc.ob > m.top then Claimed(m, hand, m', hand')
      else if pc.PopRead? && pc.taken.Some? then HandedOut(m, hand, m', hand')
      else if pc.PopCas? && m' != m then TakenFromTop(m, hand, m', hand')
      else Quiet(m, hand, m', hand')
  {
  }

  lemma EntersConserves(m: Mem, hand: multiset<Value>, m': Mem, hand': multiset<Value>, p: Value)
    requires Balance(m.pushed, m.returned, m.log, m.top, hand) && Enters(m, hand, m', hand', p)
    ensures Balance(m'.pushed, m'.returned, m'.log, m'.top, hand')
  {
    BalancePush(m.pushed, m.returned, m.log, m.top, p);
  }

  lemma ClaimConserves(m: Mem, hand: multiset<Value>, m': Mem, hand': multiset<Value>)
    requires Balance(m.pushed, m.returned, m.log, m.top, hand) && Claimed(m, hand, m', hand')
    ensures Balance(m'.pushed, m'.returned, m'.log, m'.top, hand')
  {
    BalanceClaim(m.pushed, m.returned, m.log, m.top, |m.log| - 1);
  }

  lemma HandOutConserves(m: Mem, hand: multiset<Value>, m': Mem, hand': multiset<Value>)
    requires Balance(m.pushed, m.returned, m.log, m.top, hand) && HandedOut(m, hand, m', hand')
    ensures Balance(m'.pushed, m'.returned, m'.log, m'.top, hand')
  {
    BalanceReturn(m.pushed, m.returned, m.log, m.top, hand);
  }

  lemma TakeConserves(m: Mem, hand: multiset<Value>, m': Mem, hand': multiset<Value>)
    requires Balance(m.pushed, m.returned, m.log, m.top, hand) && TakenFromTop(m, hand, m', hand')
    ensures Balance(m'.pushed, m'.returned, m'.log, m'.top, hand')
  {
    BalanceTake(m.pushed, m.returned, m.log, m.top, hand);
  }

  lemma OwnerStepConserves(m: Mem, pc: OwnerPc, m': Mem, pc': OwnerPc)
    requires OwnerBrief(m, pc) && OwnerStep(m, pc, m', pc') && Conserved(m, pc)
    ensures Conserved(m', pc')
  {
    var hand, hand' := InHand(pc), InHand(pc');
    if Pushing(pc) {
      PushStepMoves(m, pc, m', pc');
      if pc.PushBottom? {
        EntersConserves(m, hand, m', hand', pc.p);
      }
    } else {
      PopStepMoves(m, pc, m', pc');
      if Claimed(m, hand, m', hand') {
        ClaimConserves(m, hand, m', hand');
      } else if HandedOut(m, hand, m', hand') {
        HandOutConserves(m, hand, m', hand');
      } else if TakenFromTop(m, hand, m', hand') {
        TakeConserves(m, hand, m', hand');
      }
    }
  }

  lemma OwnerStepOthers(m: Mem, pc: OwnerPc, m': Mem, pc': OwnerPc, th: ThiefPc)
    requires MemInv(m) && OwnerInv(m, pc) && OwnerStep(m, pc, m', pc') && ThiefInv(m, th)
    ensures MemInv(m') && ThiefInv(m', th)
  {
    OwnerStepOwn(m, pc, m', pc');
    if pc.PushPut? && th.StealRead? && m.top == th.t && th.a == pc.a {
      GetPut(m.arrays[pc.a], pc.b, th.t, pc.p);
    }
  }

  /** A thief changes nothing but the top, and that only by one item it has in hand. */
  lemma ThiefStepTakes(m: Mem, pc: ThiefPc, m': Mem, pc': ThiefPc)
    requires MemInv(m) && ThiefInv(m, pc) && ThiefStep(m, pc, m', pc')
    ensures m' == m || (m.top < |m.log| && m' == Taken(m))
  {
  }

  ghost function Taken(m: Mem): Mem
    requires m.top < |m.log|
  {
    m.(top := m.top + 1, returned := m.returned + multiset{m.log[m.top]})
  }

  lemma TakenConserves(m: Mem, owner: OwnerPc)
    requires m.top < |m.log| && Conserved(m, owner)
    ensures Conserved(Taken(m), owner)
  {
    BalanceTake(m.pushed, m.returned, m.log, m.top, InHand(owner));
  }

  lemma TakenKeeps(m: Mem, owner: OwnerPc)
    requires MemInv(m) && m.top < |m.log| && OwnerInv(m, owner)
    ensures MemInv(Taken(m)) && OwnerInv(Taken(m), owner)
    ensures forall th {:trigger ThiefInv(m, th)} :: ThiefInv(m, th) ==> ThiefInv(Taken(m), th)
  {
  }

  lemma ThiefStepOwn(m: Mem, pc: ThiefPc, m': Mem, pc': ThiefPc)
    requires MemInv(m) && ThiefInv(m, pc) && ThiefStep(m, pc, m', pc') && MemInv(m')
    ensures ThiefInv(m', pc')
  {
  }

  lemma OwnerNext(s: State, s': State)
    requires Inv(s) && s' == State(s'.mem, s'.owner, s.thieves) && OwnerStep(s.mem, s.owner, s'.mem, s'.owner)
    ensures Inv(s')
  {
    OwnerStepOwn(s.mem, s.owner, s'.mem, s'.owner);
    OwnerInBrief(s.mem, s.owner);
    OwnerStepConserves(s.mem, s.owner, s'.mem, s'.owner);
    forall t | t in s.thieves ensures ThiefInv(s'.mem, s.thieves[t]) {
      OwnerStepOthers(s.mem, s.owner, s'.mem, s'.owner, s.thieves[t]);
    }
  }

  lemma ThiefNext(s: State, s': State, t: Tid)
    requires Inv(s) && StealStep(s, s', t)
    ensures Inv(s')
  {
    ThiefStepTakes(s.mem, s.thieves[t], s'.mem, s'.thieves[t]);
    if s'.mem != s.mem {
      TakenKeeps(s.mem, s.owner);
      TakenConserves(s.mem, s.owner);
    }
    ThiefStepOwn(s.mem, s.thieves[t], s'.mem, s'.thieves[t]);
  }

  lemma NextKeeps(s: State, s': State)
    requires Inv(s) && Next(s, s')
    ensures Inv(s')
  {
    if s' == State(s'.mem, s'.owner, s.thieves) && OwnerStep(s.mem, s.owner, s'.mem, s'.owner) {
      OwnerNext(s, s');
    } else {
      var t :| StealStep(s, s', t) || Join(s, s', t);
      if StealStep(s, s', t) {
        ThiefNext(s, s', t);
      }
    }
  }

  lemma InitInv(s: State)
    requires Init(s)
    ensures Inv(s)
  {
  }

  lemma RunInv(run: seq<State>, i: nat)
    requires IsRun(Init, Next, run) && i < |run|
    ensures Inv(run[i])
  {
    forall s | Init(s) ensures Inv(s) { InitInv(s); }
    forall s, s' | Inv(s) && Next(s, s') ensures Inv(s') { NextKeeps(s, s'); }
    Invariance(Init, Next, Inv, run, i);
  }

  // ---------------------------------------------------------------- theorems

  /** Every pushed item is returned, in the window, or in the hands of an owner in mid-pop: none is lost, and
      none is returned twice. */
  lemma ItemsConserved(run: seq<State>, i: nat)
    requires IsRun(Init, Next, run) && i < |run|
    ensures var m := run[i].mem;
      && m.top <= |m.log|
      && m.pushed == m.returned + multiset(m.log[m.top..]) + InHand(run[i].owner)
      && m.returned <= m.pushed
  {
    RunInv(run, i);
  }

  /** A steal whose CAS wins returns the oldest live item, whichever array it read it from. */
  lemma StealReturnsOldest(run: seq<State>, i: nat, t: Tid)
    requires IsRun(Init, Next, run) && i + 1 < |run|
    requires StealStep(run[i], run[i + 1], t) && run[i + 1].mem.top != run[i].mem.top
    ensures var m, m' := run[i].mem, run[i + 1].mem;
      m.top < |m.log| && m'.top == m.top + 1 && m'.returned == m.returned + multiset{m.log[m.top]}
  {
    RunInv(run, i);
  }

  lemma PopStepReturns(m: Mem, pc: OwnerPc, m': Mem, pc': OwnerPc)
    requires OwnerBrief(m, pc) && m.top <= |m.log| && OwnerStep(m, pc, m', pc')
    requires pc.PopCas? ==> |m.log| == pc.t + 1
    ensures InHand(pc) == multiset{} && InHand(pc') != multiset{} ==>
      |m.log| > m.top && InHand(pc') == multiset{m.log[|m.log| - 1]} && m'.log == m.log[..|m.log| - 1]
    ensures InHand(pc) != multiset{} ==> m'.returned == m.returned + InHand(pc)
    ensures InHand(pc) == multiset{} && m'.returned != m.returned ==>
      m.top == |m.log| - 1 && m'.returned == m.returned + multiset{m.log[m.top]} && m'.top == |m'.log|
  {
    if Pushing(pc) {
      PushStepMoves(m, pc, m', pc');
    } else {
      PopStepMoves(m, pc, m', pc');
    }
  }

  /** A pop returns the item it claimed, which was the newest when it was claimed. */
  lemma PopReturnsNewest(run: seq<State>, i: nat)
    requires IsRun(Init, Next, run) && i + 1 < |run|
    requires OwnerStep(run[i].mem, run[i].owner, run[i + 1].mem, run[i + 1].owner)
    ensures var m, m', pc, pc' := run[i].mem, run[i + 1].mem, run[i].owner, run[i + 1].owner;
      && (InHand(pc) == multiset{} && InHand(pc') != multiset{} ==>
            |m.log| > m.top && InHand(pc') == multiset{m.log[|m.log| - 1]} && m'.log == m.log[..|m.log| - 1])
      && (InHand(pc) != multiset{} ==> m'.returned == m.returned + InHand(pc))
      && (InHand(pc) == multiset{} && m'.returned != m.returned ==>
            m.top == |m.log| - 1 && m'.returned == m.returned + multiset{m.log[m.top]} && m'.top == |m'.log|)
  {
    RunInv(run, i);
    OwnerInBrief(run[i].mem, run[i].owner);
    PopStepReturns(run[i].mem, run[i].owner, run[i + 1].mem, run[i + 1].owner);
  }

  /** The current array always has a slot to spare, and a resting owner sees the exact window. */
  lemma WindowFits(run: seq<State>, i: nat)
    requires IsRun(Init, Next, run) && i < |run|
    ensures var m := run[i].mem;
      && m.current < |m.arrays| && m.bottom - m.top <= |m.arrays[m.current]| - 1
      && m.top <= |m.log| && (run[i].owner == Resting ==> m.bottom == |m.log|)
  {
    RunInv(run, i);
  }

  ghost predicate IsPow2(n: nat) {
    exists k: nat :: n == Pow2(k)
  }

  ghost predicate SizesInv(s: State) {
    forall a :: 0 <= a < |s.mem.arrays| ==> IsPow2(|s.mem.arrays[a]|)
  }

  lemma SizesKept(s: State, s': State)
    requires SizesInv(s) && Next(s, s')
    ensures SizesInv(s')
  {
    if s.owner.PushCheck? && |s'.mem.arrays| > |s.mem.arrays| {
      var k: nat :| |s.mem.arrays[s.mem.current]| == Pow2(k);
      assert 2 * Pow2(k) == Pow2(k + 1);
    }
  }

  lemma RunSizes(run: seq<State>, i: nat)
    requires IsRun(Init, Next, run) && i < |run|
    ensures SizesInv(run[i])
  {
    forall s, s' | SizesInv(s) && Next(s, s') ensures SizesInv(s') { SizesKept(s, s'); }
    Invariance(Init, Next, SizesInv, run, i);
  }

  /** Array sizes stay powers of two, so masking with size - 1 is indexing modulo size. */
  lemma MaskedIndexing(run: seq<State>, i: nat, a: nat, index: nat)
    requires IsRun(Init, Next, run) && i < |run| && a < |run[i].mem.arrays|
    ensures var size := |run[i].mem.arrays[a]|; size > 0 && BitAnd(index, size - 1) == index % size
  {
    RunSizes(run, i);
    var k: nat :| |run[i].mem.arrays[a]| == Pow2(k);
    MaskIsRemainder(index, k, |run[i].mem.arrays[a]|);
  }

  /** An array that growing may produce. */
  lemma GrownExists(a: seq<Value>, from: nat, to: nat) returns (a': seq<Value>)
    requires |a| > 0 && from <= to <= from + |a|
    ensures IsGrown(a, a', from, to)
  {
    a' := seq(2 * |a|, _ => 0);
    for i := from to to
      invariant |a'| == 2 * |a|
      invariant forall j :: from <= j < i ==> Get(a', j) == Get(a, j)
    {
      var v := Get(a, i);
      forall j | from <= j <= i ensures Get(Put(a', i, v), j) == Get(a, j) {
        GetPut(a', i, j, v);
      }
      a' := Put(a', i, v);
    }
  }

  /** How many of its own steps the owner, or a thief, is from the end of its operation at most. */
  ghost function OwnerDistance(pc: OwnerPc): nat {
    match pc
    case Resting => 0
    case PushTop(_, _) => 5
    case PushCheck(_, _, _) => 4
    case PushPublish(_, _, _) => 3
    case PushPut(_, _, _) => 2
    case PushBottom(_, _) => 1
    case PopArray(_) => 6
    case PopStore(_, _) => 5
    case PopTop(_, _) => 4
    case PopRead(_, _, _, _) => 3
    case PopCas(_, _) => 2
    case PopRestore(_) => 1
    case PopFinish(_) => 1
  }

  ghost function ThiefDistance(pc: ThiefPc): nat {
    match pc
    case Prowling => 0
    case StealBottom(_) => 4
    case StealArray(_, _) => 3
    case StealRead(_, _) => 2
    case StealCas(_, _) => 1
  }

  lemma OwnerGoesOn(m: Mem, pc: OwnerPc) returns (m': Mem, pc': OwnerPc)
    requires MemInv(m) && OwnerInv(m, pc)
    ensures OwnerStep(m, pc, m', pc') && (pc.PopCas? && m.top == pc.t ==> m'.top == pc.t + 1)
    ensures pc == Resting || OwnerDistance(pc') < OwnerDistance(pc)
  {
    m', pc' := m, Resting;
    match pc
    case Resting => pc' := PopArray(m.bottom - 1);
    case PushTop(p, b) => pc' := PushCheck(p, b, m.top);
    case PushCheck(p, b, t) =>
      if b - t >= |m.arrays[m.current]| - 1 {
        var grown := GrownExists(m.arrays[m.current], t, b);
        m', pc' := m.(arrays := m.arrays + [grown]), PushPublish(p, b, |m.arrays|);
      } else {
        pc' := PushPut(p, b, m.current);
      }
    case PushPublish(p, b, a) => m', pc' := m.(current := a), PushPut(p, b, a);
    case PushPut(p, b, a) => m', pc' := m.(arrays := m.arrays[a := Put(m.arrays[a], b, p)]), PushBottom(p, b);
    case PushBottom(p, b) => m' := m.(bottom := b + 1, log := m.log + [p], pushed := m.pushed + multiset{p});
    case PopArray(b) => pc' := PopStore(b, m.current);
    case PopStore(b, a) => m', pc' := m.(bottom := b), PopTop(b, a);
    case PopTop(b, a) =>
      if b < m.top {
        pc' := PopRestore(m.top);
      } else if b == m.top {
        pc' := PopRead(b, a, m.top, None);
      } else {
        m', pc' := m.(log := m.log[..b]), PopRead(b, a, m.top, Some(m.log[b]));
      }
    case PopRestore(t) => m' := m.(bottom := t);
    case PopRead(b, a, t, _) =>
      var ret := Get(m.arrays[a], b);
      if b > t {
        m' := m.(returned := m.returned + multiset{ret});
      } else {
        pc' := PopCas(t, ret);
      }
    case PopCas(t, ret) =>
      pc' := PopFinish(t + 1);
      m' := if m.top == t then m.(top := t + 1, returned := m.returned + multiset{ret}) else m;
    case PopFinish(t1) => m' := m.(bottom := t1);
  }

  lemma ThiefGoesOn(m: Mem, pc: ThiefPc) returns (m': Mem, pc': ThiefPc)
    requires MemInv(m) && ThiefInv(m, pc)
    ensures ThiefStep(m, pc, m', pc') && (pc.StealCas? && m.top == pc.t ==> m'.top == pc.t + 1)
    ensures pc == Prowling || ThiefDistance(pc') < ThiefDistance(pc)
  {
    m' := m;
    match pc
    case Prowling => pc' := StealBottom(m.top);
    case StealBottom(t) => pc' := StealArray(t, m.bottom);
    case StealArray(t, b) => pc' := if b - t <= 0 then Prowling else StealRead(t, m.current);
    case StealRead(t, a) => pc' := StealCas(t, Get(m.arrays[a], t));
    case StealCas(t, ret) =>
      m' := if m.top == t then m.(top := t + 1, returned := m.returned + multiset{ret}) else m;
      pc' := Prowling;
  }

  /** The model's guards never hold the owner back: its array accesses are in bounds, it always has a step to take,
      and its compare-and-swap can win whenever the top is what it read. */
  lemma OwnerNeverStuck(run: seq<State>, i: nat)
    requires IsRun(Init, Next, run) && i < |run|
    ensures var m, pc := run[i].mem, run[i].owner;
      exists m', pc' :: OwnerStep(m, pc, m', pc') && (pc.PopCas? && m.top == pc.t ==> m'.top == pc.t + 1)
  {
    RunInv(run, i);
    var m', pc' := OwnerGoesOn(run[i].mem, run[i].owner);
  }

  /** Nor any thief. */
  lemma ThiefNeverStuck(run: seq<State>, i: nat, t: Tid)
    requires IsRun(Init, Next, run) && i < |run| && t in run[i].thieves
    ensures var m, pc := run[i].mem, run[i].thieves[t];
      exists m', pc' :: ThiefStep(m, pc, m', pc') && (pc.StealCas? && m.top == pc.t ==> m'.top == pc.t + 1)
  {
    RunInv(run, i);
    assert ThiefInv(run[i].mem, run[i].thieves[t]);
    var m', pc' := ThiefGoesOn(run[i].mem, run[i].thieves[t]);
  }

  // ---------------------------------------------------------------- what the operations answer

  /** pop_bottom answers EMPTY exactly when there is no item; the last item is contended for, and any other one is its
      own at once. */
  lemma PopDecidesExactly(run: seq<State>, i: nat)
    requires IsRun(Init, Next, run) && i + 1 < |run| && run[i].owner.PopTop?
    requires OwnerStep(run[i].mem, run[i].owner, run[i + 1].mem, run[i + 1].owner)
    ensures var m, pc' := run[i].mem, run[i + 1].owner;
      && m.top <= |m.log|
      && (pc'.PopRestore? <==> m.top == |m.log|)
      && (pc'.PopRead? && pc'.taken == None <==> m.top == |m.log| - 1)
      && (pc'.PopRead? && pc'.taken.Some? <==> m.top < |m.log| - 1)
  {
    RunInv(run, i);
  }

  /** push_bottom grows the array exactly when the items since the top it read leave a single slot. */
  lemma PushGrowsExactly(run: seq<State>, i: nat)
    requires IsRun(Init, Next, run) && i + 1 < |run| && run[i].owner.PushCheck?
    requires OwnerStep(run[i].mem, run[i].owner, run[i + 1].mem, run[i + 1].owner)
    ensures var m, m', pc, pc' := run[i].mem, run[i + 1].mem, run[i].owner, run[i + 1].owner;
      && m.current < |m.arrays|
      && (pc'.PushPublish? <==> |m.log| - pc.t == |m.arrays[m.current]| - 1)
      && (if pc'.PushPublish? then |m'.arrays| == |m.arrays| + 1 else m' == m && pc'.PushPut?)
  {
    RunInv(run, i);
  }

  /** A thief that read the bottom at i and decides at j answers EMPTY exactly when there was then nothing at or after
      the top it had read before; with the owner resting, that is when no item was that new. */
  lemma StealGivesUpExactly(run: seq<State>, i: nat, j: nat, t: Tid)
    requires IsRun(Init, Next, run) && i < j && j + 1 < |run| && StealStep(run[i], run[i + 1], t)
    requires run[i].thieves[t].StealBottom? && t in run[j].thieves && run[j].thieves[t] == run[i + 1].thieves[t]
    requires StealStep(run[j], run[j + 1], t)
    ensures var m, top, pc' := run[i].mem, run[i].thieves[t].t, run[j + 1].thieves[t];
      && top <= m.top
      && (pc' == Prowling <==> m.bottom <= top)
      && (run[i].owner == Resting ==> (pc' == Prowling <==> |m.log| <= top))
      && (pc' != Prowling ==> pc' == StealRead(top, run[j].mem.current))
  {
    RunInv(run, i);
    assert ThiefInv(run[i].mem, run[i].thieves[t]);
  }

  // ---------------------------------------------------------------- progress

  ghost predicate OwnerStepOf(s: State, s': State) {
    s' == State(s'.mem, s'.owner, s.thieves) && OwnerStep(s.mem, s.owner, s'.mem, s'.owner)
  }

  /** k steps of the owner can bring its operation to an end. */
  ghost predicate OwnerCanFinish(s: State, k: nat)
    decreases k
  {
    s.owner == Resting || (k > 0 && exists s' :: OwnerStepOf(s, s') && OwnerCanFinish(s', k - 1))
  }

  ghost predicate ThiefCanFinish(s: State, t: Tid, k: nat)
    decreases k
  {
    && t in s.thieves
    && (s.thieves[t] == Prowling || (k > 0 && exists s' :: StealStep(s, s', t) && ThiefCanFinish(s', t, k - 1)))
  }

  lemma {:induction false} OwnerFinishes(s: State, k: nat)
    requires Inv(s) && OwnerDistance(s.owner) <= k
    ensures OwnerCanFinish(s, k)
    decreases k
  {
    if s.owner != Resting {
      var m', pc' := OwnerGoesOn(s.mem, s.owner);
      var s' := State(m', pc', s.thieves);
      assert OwnerStepOf(s, s');
      OwnerNext(s, s');
      OwnerFinishes(s', k - 1);
    }
  }

  lemma {:induction false} ThiefFinishes(s: State, t: Tid, k: nat)
    requires Inv(s) && t in s.thieves && ThiefDistance(s.thieves[t]) <= k
    ensures ThiefCanFinish(s, t, k)
    decreases k
  {
    if s.thieves[t] != Prowling {
      assert ThiefInv(s.mem, s.thieves[t]);
      var m', pc' := ThiefGoesOn(s.mem, s.thieves[t]);
      var s' := State(m', s.owner, s.thieves[t := pc']);
      assert StealStep(s, s', t);
      ThiefNext(s, s', t);
      ThiefFinishes(s', t, k - 1);
    }
  }

  /** From every reachable state the owner, and every thief, can finish its operation alone within six steps. */
  lemma CompletesAlone(run: seq<State>, i: nat, t: Tid)
    requires IsRun(Init, Next, run) && i < |run|
    ensures OwnerCanFinish(run[i], 6)
    ensures t in run[i].thieves ==> ThiefCanFinish(run[i], t, 4)
  {
    RunInv(run, i);
    OwnerFinishes(run[i], 6);
    if t in run[i].thieves {
      ThiefFinishes(run[i], t, 4);
    }
  }
}
