/** Vocabulary shared by the protocol models. */
module Common {

  datatype Option<+T> = None | Some(value: T)

  /** Opaque pointers: the protocols only move payloads around. */
  type Value = int

  /** Addresses of heap nodes. */
  type Node = nat

  /** Identities of threads and fibers. */
  type Tid = nat

  predicate NoDuplicates<T(==)>(s: seq<T>) {
    forall i, j :: 0 <= i < j < |s| ==> s[i] != s[j]
  }
}

/** Runs of a transition system. */
module Runs {

  /** A run starts in an initial state and takes one atomic step at a time. */
  ghost predicate IsRun<S(!new)>(init: S -> bool, next: (S, S) -> bool, run: seq<S>) {
    && |run| > 0
    && init(run[0])
    && forall i :: 0 < i < |run| ==> StepAt(next, run, i)
  }

  ghost predicate StepAt<S(!new)>(next: (S, S) -> bool, run: seq<S>, i: int)
    requires 0 < i < |run|
  {
    next(run[i - 1], run[i])
  }

  /** inv holds at the start and every step keeps it. */
  ghost predicate Inductive<S(!new)>(init: S -> bool, next: (S, S) -> bool, inv: S -> bool) {
    && (forall s :: init(s) ==> inv(s))
    && (forall s, s' :: inv(s) && next(s, s') ==> inv(s'))
  }

  /** An inductive invariant holds throughout every run. */
  lemma {:induction false} Invariance<S(!new)>(init: S -> bool, next: (S, S) -> bool, inv: S -> bool,
                                               run: seq<S>, i: nat)
    requires IsRun(init, next, run) && i < |run| && Inductive(init, next, inv)
    ensures inv(run[i])
  {
    if i > 0 {
      Invariance(init, next, inv, run, i - 1);
      assert StepAt(next, run, i);
    }
  }
}

/** How many members of a fleet of threads are in a given situation. */
module Counting {

  ghost function Count<T>(s: seq<T>, p: T -> bool): nat {
    if s == [] then 0 else Count(s[..|s| - 1], p) + Unit(p(s[|s| - 1]))
  }

  ghost function Unit(b: bool): nat {
    if b then 1 else 0
  }

  /** Changing one member moves at most one unit. */
  lemma {:induction false} Move<T>(s: seq<T>, i: nat, x: T, p: T -> bool)
    requires i < |s|
    ensures Count(s[i := x], p) == Count(s, p) - Unit(p(s[i])) + Unit(p(x))
  {
    var last := |s| - 1;
    if i == last {
      assert s[i := x][..last] == s[..last];
    } else {
      Move(s[..last], i, x, p);
      assert s[i := x][..last] == s[..last][i := x];
    }
  }

  lemma Arrive<T>(s: seq<T>, x: T, p: T -> bool)
    ensures Count(s + [x], p) == Count(s, p) + Unit(p(x))
  {
    assert (s + [x])[..|s|] == s;
  }

  /** A member in the situation is counted. */
  lemma {:induction false} Positive<T>(s: seq<T>, i: nat, p: T -> bool)
    requires i < |s| && p(s[i])
    ensures Count(s, p) > 0
  {
    if i < |s| - 1 {
      Positive(s[..|s| - 1], i, p);
    }
  }

  /** A positive count has a member to show. */
  lemma {:induction false} Witness<T>(s: seq<T>, p: T -> bool)
    requires Count(s, p) > 0
    ensures exists i :: 0 <= i < |s| && p(s[i])
  {
    var last := |s| - 1;
    if !p(s[last]) {
      Witness(s[..last], p);
      var i :| 0 <= i < last && p(s[..last][i]);
      assert p(s[i]);
    }
  }

  /** Two members in the situation are counted twice. */
  lemma {:induction false} Two<T>(s: seq<T>, i: nat, j: nat, p: T -> bool)
    requires i < j < |s| && p(s[i]) && p(s[j])
    ensures Count(s, p) > 1
  {
    if j < |s| - 1 {
      Two(s[..|s| - 1], i, j, p);
    } else {
      Positive(s[..|s| - 1], i, p);
    }
  }
}

/** Queues of parked fibers: a queue holds exactly the fibers parked in it, each once. */
module Parking {
  import opened Common

  ghost predicate Holds<T>(fibers: seq<T>, queue: seq<Tid>, parked: T) {
    && (forall f :: f in queue ==> f < |fibers| && fibers[f] == parked)
    && (forall f :: 0 <= f < |fibers| && fibers[f] == parked ==> f in queue)
    && NoDuplicates(queue)
  }

  lemma Frame<T>(fibers: seq<T>, queue: seq<Tid>, parked: T, f: Tid, pc: T)
    requires Holds(fibers, queue, parked) && f < |fibers| && fibers[f] != parked && pc != parked
    ensures Holds(fibers[f := pc], queue, parked)
  {
  }

  lemma Park<T>(fibers: seq<T>, queue: seq<Tid>, parked: T, f: Tid)
    requires Holds(fibers, queue, parked) && f < |fibers| && fibers[f] != parked
    ensures Holds(fibers[f := parked], queue + [f], parked)
  {
  }

  lemma Unpark<T>(fibers: seq<T>, queue: seq<Tid>, parked: T, pc: T)
    requires Holds(fibers, queue, parked) && queue != [] && queue[0] < |fibers| && pc != parked
    ensures Holds(fibers[queue[0] := pc], queue[1..], parked)
  {
    var g := queue[0];
    forall f | f in queue[1..] ensures f in queue && f != g {
      var i :| 0 <= i < |queue[1..]| && queue[1..][i] == f;
      assert queue[i + 1] == f;
    }
    forall f | f in queue && f != g ensures f in queue[1..] {
      var i :| 0 <= i < |queue| && queue[i] == f;
      assert queue[1..][i - 1] == f;
    }
  }

  /** History of a queue: who entered it, and who was woken from it. */
  datatype Turns = Turns(arrived: seq<Tid>, woken: seq<Tid>)

  const NOBODY := Turns([], [])

  ghost function Arrives(turns: Turns, f: Tid): Turns {
    turns.(arrived := turns.arrived + [f])
  }

  ghost function Wakes(turns: Turns, f: Tid): Turns {
    turns.(woken := turns.woken + [f])
  }

  ghost predicate InTurn(queue: seq<Tid>, turns: Turns) {
    turns.arrived == turns.woken + queue
  }

  /** Nobody, f, or the first in the queue moves. */
  ghost predicate TurnStep(queue: seq<Tid>, turns: Turns, queue': seq<Tid>, turns': Turns, f: Tid) {
    || (queue' == queue && turns' == turns)
    || (queue' == queue + [f] && turns' == Arrives(turns, f))
    || (queue != [] && queue' == queue[1..] && turns' == Wakes(turns, queue[0]))
  }

  lemma TurnKept(queue: seq<Tid>, turns: Turns, queue': seq<Tid>, turns': Turns, f: Tid)
    requires InTurn(queue, turns) && TurnStep(queue, turns, queue', turns', f)
    ensures InTurn(queue', turns')
  {
    if queue != [] {
      assert queue == [queue[0]] + queue[1..];
    }
  }
}
