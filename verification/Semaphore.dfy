/**
 The fiber semaphore: a counter that goes negative by the number of waiters, and a queue of waiting fibers.
 A waiter decrements first and enqueues later; a poster that finds the counter negative wakes a fiber first
 and increments later.  Parking is a contract, and the queue is the FIFO that `MpmcFifo` establishes: a pop
 may find nothing while a waiter is still on its way in.
 */
module Semaphore {
  import opened Common
  import opened Runs
  import opened Counting
  import Parking

  datatype Fiber =
    | Away
    | Registered               // counted out by wait, not yet in the queue
    | Parked
    | TryLoad
    | TryCas(c: int)
    | PostLoad
    | PostPop
    | PostCas(c: int)
    | PostAdd                  // has woken a fiber, still to increment the counter

  datatype State = State(
    counter: int,
    queue: seq<Tid>,
    fibers: seq<Fiber>,
    initial: int,              // negative values are allowed: then posts only ever pair with waiters
    grants: nat,               // history: waits and try-waits satisfied
    posts: nat,                // history: posts committed, by a wake or by an increment
    turns: Parking.Turns)      // history of the queue

  ghost predicate Init(s: State) {
    s == State(s.initial, [], [], s.initial, 0, 0, Parking.NOBODY)
  }

  ghost function Goto(s: State, f: Tid, pc: Fiber): State
    requires f < |s.fibers|
  {
    s.(fibers := s.fibers[f := pc])
  }

  ghost predicate Step(s: State, s': State, f: Tid) {
    && f < |s.fibers|
    && match s.fibers[f]
       case Away =>
         || s' == Goto(s, f, TryLoad) || s' == Goto(s, f, PostLoad)
         || s' == if s.counter - 1 >= 0 then s.(counter := s.counter - 1, grants := s.grants + 1)
                  else Goto(s, f, Registered).(counter := s.counter - 1)
       case Registered => s' == Goto(s, f, Parked).(queue := s.queue + [f], turns := Parking.Arrives(s.turns, f))
       case Parked => false
       case TryLoad => s' == Goto(s, f, if s.counter > 0 then TryCas(s.counter) else Away)
       case TryCas(c) =>
         || s' == Goto(s, f, TryLoad)
         || (s.counter == c && s' == Goto(s, f, Away).(counter := c - 1, grants := s.grants + 1))
       case PostLoad => s' == Goto(s, f, if s.counter < 0 then PostPop else PostCas(s.counter))
       case PostPop =>
         || s' == Goto(s, f, PostLoad)                        // found nothing
         || (s.queue != [] && s.queue[0] < |s.fibers| && s' == Wake(s, f))
       case PostCas(c) =>
         || s' == Goto(s, f, PostLoad)
         || (s.counter == c && s' == Goto(s, f, Away).(counter := c + 1, posts := s.posts + 1))
       case PostAdd => s' == Goto(s, f, Away).(counter := s.counter + 1)
  }

  ghost function Wake(s: State, f: Tid): State
    requires f < |s.fibers| && s.queue != [] && s.queue[0] < |s.fibers|
  {
    s.(fibers := s.fibers[s.queue[0] := Away][f := PostAdd], queue := s.queue[1..],
       grants := s.grants + 1, posts := s.posts + 1, turns := Parking.Wakes(s.turns, s.queue[0]))
  }

  ghost predicate Next(s: State, s': State) {
    || s' == s.(fibers := s.fibers + [Away])
    || (exists f: Tid :: Step(s, s', f))
  }

  // ---------------------------------------------------------------- invariant

  ghost predicate Waiting(pc: Fiber) { pc.Registered? || pc.Parked? }

  ghost predicate Owing(pc: Fiber) { pc.PostAdd? }

  /** The permits there are to begin with. */
  ghost function Permits(initial: int): nat {
    if initial < 0 then 0 else initial
  }

  /** Permits granted never exceed those available, and none is left over while a fiber waits or a poster owes. */
  ghost predicate Balanced(s: State, waiting: nat, owing: nat) {
    var spare := Permits(s.initial) + s.posts - s.grants;
    && s.counter == spare - waiting - owing + (if s.initial < 0 then s.initial else 0)
    && spare >= 0
    && (waiting > 0 || owing > 0 || s.initial < 0 ==> spare == 0)
  }

  ghost predicate SnapshotInv(pc: Fiber) {
    && (pc.TryCas? ==> pc.c > 0) && (pc.PostCas? ==> pc.c >= 0)
  }

  ghost predicate Inv(s: State) {
    && Balanced(s, Count(s.fibers, Waiting), Count(s.fibers, Owing))
    && Parking.Holds(s.fibers, s.queue, Parked)
    && forall f :: 0 <= f < |s.fibers| ==> SnapshotInv(s.fibers[f])
  }

  // ---------------------------------------------------------------- steps keep the invariant

  lemma WakeBalance(s: State, f: Tid)
    requires Balanced(s, Count(s.fibers, Waiting), Count(s.fibers, Owing))
    requires f < |s.fibers| && s.fibers[f] == PostPop
    requires s.queue != [] && s.queue[0] < |s.fibers| && s.fibers[s.queue[0]] == Parked
    ensures Balanced(Wake(s, f), Count(Wake(s, f).fibers, Waiting), Count(Wake(s, f).fibers, Owing))
  {
    var g := s.queue[0];
    Positive(s.fibers, g, Waiting);
    Move(s.fibers, g, Away, Waiting);
    Move(s.fibers, g, Away, Owing);
    Move(s.fibers[g := Away], f, PostAdd, Waiting);
    Move(s.fibers[g := Away], f, PostAdd, Owing);
  }

  lemma WakeKeeps(s: State, f: Tid)
    requires Inv(s) && f < |s.fibers| && s.fibers[f] == PostPop && s.queue != []
    ensures s.queue[0] < |s.fibers| && Inv(Wake(s, f))
  {
    var g := s.queue[0];
    assert g in s.queue;
    WakeBalance(s, f);
    Parking.Unpark(s.fibers, s.queue, Parked, Away);
    Parking.Frame(s.fibers[g := Away], s.queue[1..], Parked, f, PostAdd);
  }

  ghost predicate Posting(pc: Fiber) {
    pc.PostLoad? || pc.PostPop? || pc.PostCas? || pc.PostAdd?
  }

  lemma PostBalance(s: State, s': State, f: Tid, waiting: nat, owing: nat, owing': nat)
    requires Balanced(s, waiting, owing) && Step(s, s', f) && SnapshotInv(s.fibers[f]) && Posting(s.fibers[f])
    requires |s'.fibers| == |s.fibers| && s'.fibers[f] != PostAdd && owing' == owing - Unit(s.fibers[f].PostAdd?)
    requires s.fibers[f].PostPop? ==> s'.queue == s.queue
    ensures Balanced(s', waiting, owing')
  {
  }

  lemma WaitBalance(s: State, s': State, f: Tid, waiting: nat, owing: nat, waiting': nat)
    requires Balanced(s, waiting, owing) && Step(s, s', f) && SnapshotInv(s.fibers[f]) && !Posting(s.fibers[f])
    requires |s'.fibers| == |s.fibers|
    requires waiting' == waiting - Unit(Waiting(s.fibers[f])) + Unit(Waiting(s'.fibers[f]))
    ensures Balanced(s', waiting', owing)
  {
  }

  lemma QuietBalance(s: State, s': State, f: Tid)
    requires Balanced(s, Count(s.fibers, Waiting), Count(s.fibers, Owing)) && Step(s, s', f) && SnapshotInv(s.fibers[f])
    requires |s'.fibers| == |s.fibers| && s'.fibers == s.fibers[f := s'.fibers[f]] && s'.fibers[f] != PostAdd
    requires s.fibers[f].PostPop? ==> s'.queue == s.queue
    ensures Balanced(s', Count(s'.fibers, Waiting), Count(s'.fibers, Owing))
  {
    var waiting, owing := Count(s.fibers, Waiting), Count(s.fibers, Owing);
    Move(s.fibers, f, s'.fibers[f], Waiting);
    Move(s.fibers, f, s'.fibers[f], Owing);
    if Posting(s.fibers[f]) {
      PostBalance(s, s', f, waiting, owing, Count(s'.fibers, Owing));
    } else {
      WaitBalance(s, s', f, waiting, owing, Count(s'.fibers, Waiting));
    }
  }

  lemma StepKeeps(s: State, s': State, f: Tid)
    requires Inv(s) && Step(s, s', f)
    ensures Inv(s')
  {
    if s.fibers[f] == PostPop && s'.queue != s.queue {
      WakeKeeps(s, f);
    } else {
      if s.fibers[f] == Registered {
        Parking.Park(s.fibers, s.queue, Parked, f);
      } else {
        Parking.Frame(s.fibers, s.queue, Parked, f, s'.fibers[f]);
      }
      QuietBalance(s, s', f);
    }
  }

  lemma NextKeeps(s: State, s': State)
    requires Inv(s) && Next(s, s')
    ensures Inv(s')
  {
    if s' == s.(fibers := s.fibers + [Away]) {
      Arrive(s.fibers, Away, Waiting);
      Arrive(s.fibers, Away, Owing);
    } else {
      var f: Tid :| Step(s, s', f);
      StepKeeps(s, s', f);
    }
  }

  lemma InitInv(s: State)
    requires Init(s)
    ensures Inv(s)
  {
  }

  lemma RunInv(run: seq<State>, i: nat)
    requires IsRun(Init, Next, run) && i < |run|
    ensures Inv(run[i])
  {
    forall s | Init(s) ensures Inv(s) { InitInv(s); }
    forall s, s' | Inv(s) && Next(s, s') ensures Inv(s') { NextKeeps(s, s'); }
    Invariance(Init, Next, Inv, run, i);
  }

  // ---------------------------------------------------------------- theorems

  /** Grants never exceed the initial permits plus the committed posts, and use all of them whenever a fiber waits or
      a poster has still to increment: no permit lies idle while someone waits. */
  lemma PermitsAccountedFor(run: seq<State>, i: nat)
    requires IsRun(Init, Next, run) && i < |run|
    ensures var s := run[i];
      && s.grants <= Permits(s.initial) + s.posts
      && (Count(s.fibers, Waiting) > 0 || Count(s.fibers, Owing) > 0 || s.initial < 0 ==>
            s.grants == Permits(s.initial) + s.posts)
      && s.counter == s.initial + s.posts - s.grants - Count(s.fibers, Waiting) - Count(s.fibers, Owing)
  {
    RunInv(run, i);
  }

  /** The same of one fiber: if it waits, everything there was to grant has been granted. */
  lemma WaiterMeansExhausted(run: seq<State>, i: nat, f: Tid)
    requires IsRun(Init, Next, run) && i < |run| && f < |run[i].fibers| && Waiting(run[i].fibers[f])
    ensures run[i].grants == Permits(run[i].initial) + run[i].posts && run[i].counter < 0
  {
    RunInv(run, i);
    Positive(run[i].fibers, f, Waiting);
  }

  const INT_MAX: int := 0x7fff_ffff

  lemma {:induction false} WaitingOrOwing(fs: seq<Fiber>)
    ensures Count(fs, Waiting) + Count(fs, Owing) <= |fs|
  {
    if fs != [] {
      WaitingOrOwing(fs[..|fs| - 1]);
    }
  }

  /** The counter stays within a 32-bit int exactly as long as the permits nobody has claimed do; it cannot run out
      of range below while there are fewer fibers than negative numbers left. */
  lemma CounterFitsExactly(run: seq<State>, i: nat)
    requires IsRun(Init, Next, run) && i < |run|
    requires |run[i].fibers| <= INT_MAX + 1 && (run[i].initial < 0 ==> |run[i].fibers| <= INT_MAX + 1 + run[i].initial)
    ensures var s := run[i];
      -INT_MAX - 1 <= s.counter <= INT_MAX <==> Permits(s.initial) + s.posts - s.grants <= INT_MAX
  {
    RunInv(run, i);
    WaitingOrOwing(run[i].fibers);
  }

  /** Only parked fibers wait; every other fiber has a step to take, a poster that finds a queued fiber can wake it, and
      a compare-and-swap that finds what it read can win. */
  lemma NeverStuck(run: seq<State>, i: nat, f: Tid)
    requires IsRun(Init, Next, run) && i < |run| && f < |run[i].fibers| && !run[i].fibers[f].Parked?
    ensures var s := run[i];
      exists s' :: Step(s, s', f) && (Advances(s, s.fibers[f]) ==> s'.grants + s'.posts > s.grants + s.posts)
  {
    RunInv(run, i);
    var s' := GoesOn(run[i], f);
  }

  ghost predicate Advances(s: State, pc: Fiber) {
    (pc.PostPop? && s.queue != []) || (pc.TryCas? && s.counter == pc.c) || (pc.PostCas? && s.counter == pc.c)
  }

  /** Between operations, parked, or posting to a waiter that is not in the queue yet. */
  ghost predicate Rests(s: State, pc: Fiber) {
    pc.Away? || pc.Parked? || (pc.PostPop? && s.queue == [] && s.counter < 0)
  }

  /** How many of its own steps a fiber is from resting at most. */
  ghost function Distance(s: State, pc: Fiber): nat {
    match pc
    case Registered => 1
    case TryLoad => 2
    case TryCas(c) => if s.counter == c then 1 else 3
    case PostLoad => 3
    case PostPop => if s.queue != [] || s.counter < 0 then 2 else 4
    case PostCas(c) => if s.counter == c then 1 else 4
    case PostAdd => 1
    case _ => 0
  }

  lemma GoesOn(s: State, f: Tid) returns (s': State)
    requires Parking.Holds(s.fibers, s.queue, Parked) && f < |s.fibers| && !s.fibers[f].Parked?
    ensures Step(s, s', f) && (Advances(s, s.fibers[f]) ==> s'.grants + s'.posts > s.grants + s.posts)
    ensures |s'.fibers| == |s.fibers|
    ensures Rests(s, s.fibers[f]) || Distance(s', s'.fibers[f]) < Distance(s, s.fibers[f])
  {
    match s.fibers[f]
    case Away => s' := Goto(s, f, TryLoad);
    case Registered => s' := Goto(s, f, Parked).(queue := s.queue + [f], turns := Parking.Arrives(s.turns, f));
    case TryLoad => s' := Goto(s, f, if s.counter > 0 then TryCas(s.counter) else Away);
    case TryCas(c) =>
      s' := if s.counter == c then Goto(s, f, Away).(counter := c - 1, grants := s.grants + 1) else Goto(s, f, TryLoad);
    case PostLoad => s' := Goto(s, f, if s.counter < 0 then PostPop else PostCas(s.counter));
    case PostPop =>
      if s.queue == [] {
        s' := Goto(s, f, PostLoad);
      } else {
        assert s.queue[0] in s.queue;
        s' := Wake(s, f);
      }
    case PostCas(c) =>
      s' := if s.counter == c then Goto(s, f, Away).(counter := c + 1, posts := s.posts + 1) else Goto(s, f, PostLoad);
    case PostAdd => s' := Goto(s, f, Away).(counter := s.counter + 1);
  }

  // ---------------------------------------------------------------- what the operations answer

  /** Every permit there was has been granted. */
  ghost predicate Exhausted(s: State) {
    s.grants == Permits(s.initial) + s.posts
  }

  /** trywait gives up exactly when no permit is left; otherwise it tries to take one. */
  lemma TrywaitGivesUpExactly(run: seq<State>, i: nat, f: Tid)
    requires IsRun(Init, Next, run) && i + 1 < |run| && Step(run[i], run[i + 1], f) && run[i].fibers[f].TryLoad?
    ensures |run[i + 1].fibers| == |run[i].fibers|
    ensures run[i + 1].fibers[f] == Away <==> Exhausted(run[i])
    ensures run[i + 1].fibers[f] != Away ==> run[i + 1].fibers[f] == TryCas(run[i].counter)
  {
    RunInv(run, i);
  }

  /** wait, the step that decrements the counter from outside, registers the fiber as a waiter exactly when no permit is
      left; otherwise it is granted one at once. */
  lemma WaitRegistersExactly(run: seq<State>, i: nat, f: Tid)
    requires IsRun(Init, Next, run) && i + 1 < |run| && Step(run[i], run[i + 1], f) && run[i].fibers[f].Away?
    requires run[i + 1].counter == run[i].counter - 1
    ensures |run[i + 1].fibers| == |run[i].fibers|
    ensures run[i + 1].fibers[f] == Registered <==> Exhausted(run[i])
    ensures !Exhausted(run[i]) ==> run[i + 1].fibers[f] == Away && run[i + 1].grants == run[i].grants + 1
  {
    RunInv(run, i);
  }

  /** A post looks for a fiber to wake exactly when one waits, another poster has still to increment, or the initial
      value was negative; otherwise it adds a permit. */
  lemma PostWakesExactly(run: seq<State>, i: nat, f: Tid)
    requires IsRun(Init, Next, run) && i + 1 < |run| && Step(run[i], run[i + 1], f) && run[i].fibers[f].PostLoad?
    ensures |run[i + 1].fibers| == |run[i].fibers|
    ensures var s := run[i];
      run[i + 1].fibers[f] == PostPop <==> Count(s.fibers, Waiting) > 0 || Count(s.fibers, Owing) > 0 || s.initial < 0
    ensures run[i + 1].fibers[f] != PostPop ==> run[i + 1].fibers[f] == PostCas(run[i].counter)
  {
    RunInv(run, i);
  }

  /** Losing a compare-and-swap, or finding the queue empty, is no answer: trywait ends with a permit or with none left,
      and a post ends only once it has woken a fiber or added a permit. */
  lemma OnlyCommittedEnds(run: seq<State>, i: nat, f: Tid)
    requires IsRun(Init, Next, run) && i + 1 < |run| && Step(run[i], run[i + 1], f)
    ensures |run[i + 1].fibers| == |run[i].fibers|
    ensures var s, s', pc, pc' := run[i], run[i + 1], run[i].fibers[f], run[i + 1].fibers[f];
      && (pc.TryCas? ==> if s'.grants == s.grants + 1 then pc' == Away else s'.grants == s.grants && pc' == TryLoad)
      && (pc.PostCas? ==> if s'.posts == s.posts + 1 then pc' == Away else s'.posts == s.posts && pc' == PostLoad)
      && (pc.PostPop? ==>
            if s'.posts == s.posts + 1 then pc' == PostAdd && s'.grants == s.grants + 1 else pc' == PostLoad)
  {
    RunInv(run, i);
    if run[i].queue != [] {
      assert run[i].queue[0] in run[i].queue;
    }
  }

  // ---------------------------------------------------------------- progress

  ghost predicate CanFinish(s: State, f: Tid, k: nat)
    decreases k
  {
    f < |s.fibers| && (Rests(s, s.fibers[f]) || (k > 0 && exists s' :: Step(s, s', f) && CanFinish(s', f, k - 1)))
  }

  lemma {:induction false} Finishes(s: State, f: Tid, k: nat)
    requires Inv(s) && f < |s.fibers| && Distance(s, s.fibers[f]) <= k
    ensures CanFinish(s, f, k)
    decreases k
  {
    if !Rests(s, s.fibers[f]) {
      var s' := GoesOn(s, f);
      StepKeeps(s, s', f);
      Finishes(s', f, k - 1);
    }
  }

  /** From every reachable state every fiber comes to rest by at most four of its own steps alone. */
  lemma CompletesAlone(run: seq<State>, i: nat, f: Tid)
    requires IsRun(Init, Next, run) && i < |run| && f < |run[i].fibers|
    ensures CanFinish(run[i], f, 4)
  {
    RunInv(run, i);
    Finishes(run[i], f, 4);
  }

  // ---------------------------------------------------------------- the order of waking

  ghost predicate InTurn(s: State) {
    Parking.InTurn(s.queue, s.turns)
  }

  lemma StepTurns(s: State, s': State, f: Tid)
    requires Step(s, s', f)
    ensures Parking.TurnStep(s.queue, s.turns, s'.queue, s'.turns, f)
  {
  }

  lemma TurnsKept(s: State, s': State)
    requires InTurn(s) && Next(s, s')
    ensures InTurn(s')
  {
    if f: Tid :| Step(s, s', f) {
      StepTurns(s, s', f);
      Parking.TurnKept(s.queue, s.turns, s'.queue, s'.turns, f);
    }
  }

  /** Waiters are woken in the order in which they entered the queue. */
  lemma WokenInOrder(run: seq<State>, i: nat)
    requires IsRun(Init, Next, run) && i < |run|
    ensures run[i].turns.arrived == run[i].turns.woken + run[i].queue
  {
    forall s, s' | InTurn(s) && Next(s, s') ensures InTurn(s') { TurnsKept(s, s'); }
    Invariance(Init, Next, InTurn, run, i);
  }
}
