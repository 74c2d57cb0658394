/**
 The ticket spin lock.  Both counters are 32 bits wide and wrap around; the histories `served` and `issued`
 are the same counters without the wrap.
 */
module Spinlock {
  import opened Common
  import opened Runs
  import opened Counting
  import opened Masks

  const WRAP: nat := 0x1_0000_0000

  datatype Pc =
    | Outside
    | Spinning(ticket: nat, number: nat)    // number: auxiliary, the ticket without the wrap
    | TryCas(users: nat)
    | Holding
    | Unlocking(ticket: nat)

  datatype State = State(
    ticket: nat,
    users: nat,
    threads: seq<Pc>,
    served: nat,              // history: unlocks
    issued: seq<Tid>,         // history: who took each ticket
    granted: seq<Tid>)        // history: who acquired the lock

  /** Fewer than 2^32 threads, each with at most one ticket. */
  ghost predicate Init(s: State) {
    && |s.threads| < WRAP && (forall t :: 0 <= t < |s.threads| ==> s.threads[t] == Outside)
    && s.ticket == s.users == s.served == 0 && s.issued == [] && s.granted == []
  }

  ghost function Goto(s: State, t: Tid, pc: Pc): State
    requires t < |s.threads|
  {
    s.(threads := s.threads[t := pc])
  }

  ghost predicate Step(s: State, s': State, t: Tid) {
    && t < |s.threads|
    && match s.threads[t]
       case Outside =>
         || s' == Goto(s, t, Spinning(s.users, |s.issued|)).(users := (s.users + 1) % WRAP, issued := s.issued + [t])
         || s' == Goto(s, t, TryCas(s.users))
       case Spinning(ticket, _) =>
         if s.ticket == ticket then s' == Goto(s, t, Holding).(granted := s.granted + [t]) else s' == s
       case TryCas(users) =>
         || s' == Goto(s, t, Outside)
         || (&& s.ticket == users && s.users == users
             && s' == Goto(s, t, Holding).(users := (users + 1) % WRAP,
                                           issued := s.issued + [t], granted := s.granted + [t]))
       case Holding => s' == Goto(s, t, Unlocking(s.ticket))
       case Unlocking(ticket) =>
         s' == Goto(s, t, Outside).(ticket := (ticket + 1) % WRAP, served := s.served + 1)
  }

  ghost predicate Next(s: State, s': State) {
    exists t: Tid :: Step(s, s', t)
  }

  // ---------------------------------------------------------------- invariant

  ghost predicate HasTicket(pc: Pc) { pc.Spinning? || pc.Holding? || pc.Unlocking? }

  ghost predicate Holds(pc: Pc) { pc.Holding? || pc.Unlocking? }

  ghost predicate CountersInv(s: State) {
    && s.ticket == s.served % WRAP && s.users == |s.issued| % WRAP
    && |s.issued| == s.served + Count(s.threads, HasTicket) && |s.threads| < WRAP
  }

  /** Grants follow the order of issue, and the ticket being served tells whether the lock is held. */
  ghost predicate GrantsInv(s: State) {
    && s.granted <= s.issued && s.served <= |s.granted| <= s.served + 1
    && (|s.granted| == s.served + 1 ==>
          s.granted[s.served] < |s.threads| && Holds(s.threads[s.granted[s.served]]))
  }

  ghost predicate ThreadInv(s: State, t: Tid)
    requires t < |s.threads|
  {
    var pc := s.threads[t];
    && (pc.Spinning? ==>
          && s.served <= pc.number < |s.issued| && s.issued[pc.number] == t && pc.ticket == pc.number % WRAP
          && |s.granted| <= pc.number)
    && (Holds(pc) ==> |s.granted| == s.served + 1 && s.granted[s.served] == t)
    && (pc.Unlocking? ==> pc.ticket == s.ticket)
  }

  ghost predicate Inv(s: State) {
    && CountersInv(s) && GrantsInv(s)
    && forall t :: 0 <= t < |s.threads| ==> ThreadInv(s, t)
  }

  // ---------------------------------------------------------------- steps keep the invariant

  lemma {:induction false} AtMostAll<T>(s: seq<T>, p: T -> bool)
    ensures Count(s, p) <= |s|
  {
    if s != [] {
      AtMostAll(s[..|s| - 1], p);
    }
  }

  /** Within 2^32 of each other, counters that agree after wrapping agree. */
  lemma NoWrap(s: State, n: nat)
    requires CountersInv(s) && s.served <= n <= |s.issued| && s.ticket == n % WRAP
    ensures n == s.served
  {
    AtMostAll(s.threads, HasTicket);
    if s.served < n {
      SlotsDiffer(s.served, n, WRAP);
    }
  }

  lemma Successor(n: nat)
    ensures (n % WRAP + 1) % WRAP == (n + 1) % WRAP
  {
  }

  lemma StepCount(s: State, s': State, t: Tid)
    requires |s.issued| == s.served + Count(s.threads, HasTicket) && Step(s, s', t)
    ensures |s'.issued| == s'.served + Count(s'.threads, HasTicket)
  {
    Move(s.threads, t, s'.threads[t], HasTicket);
  }

  lemma StepCounters(s: State, s': State, t: Tid)
    requires CountersInv(s) && t < |s.threads| && ThreadInv(s, t) && Step(s, s', t)
    ensures CountersInv(s')
  {
    StepCount(s, s', t);
    Successor(s.served);
    Successor(|s.issued|);
  }

  lemma StepGrants(s: State, s': State, t: Tid)
    requires CountersInv(s) && GrantsInv(s) && t < |s.threads| && ThreadInv(s, t) && Step(s, s', t)
    ensures GrantsInv(s')
    ensures s.threads[t].Spinning? && s' != s ==> s.threads[t].number == s.served == |s.granted|
    ensures s.threads[t].TryCas? && s'.threads[t].Holding? ==> s.served == |s.granted| == |s.issued|
  {
    if s.threads[t].Spinning? && s' != s {
      NoWrap(s, s.threads[t].number);
    }
    if s.threads[t].TryCas? && s'.threads[t].Holding? {
      NoWrap(s, |s.issued|);
    }
  }

  lemma StepThreads(s: State, s': State, t: Tid, u: Tid)
    requires Inv(s) && Step(s, s', t) && u < |s.threads|
    ensures ThreadInv(s', u)
  {
    assert ThreadInv(s, t) && ThreadInv(s, u);
    StepGrants(s, s', t);
  }

  lemma NextKeeps(s: State, s': State)
    requires Inv(s) && Next(s, s')
    ensures Inv(s')
  {
    var t: Tid :| Step(s, s', t);
    assert ThreadInv(s, t);
    StepCounters(s, s', t);
    StepGrants(s, s', t);
    forall u | 0 <= u < |s'.threads| ensures ThreadInv(s', u) {
      StepThreads(s, s', t, u);
    }
  }

  lemma {:induction false} NobodyIn(threads: seq<Pc>)
    requires forall t :: 0 <= t < |threads| ==> threads[t] == Outside
    ensures Count(threads, HasTicket) == 0
  {
    if threads != [] {
      NobodyIn(threads[..|threads| - 1]);
    }
  }

  lemma InitInv(s: State)
    requires Init(s)
    ensures Inv(s)
  {
    NobodyIn(s.threads);
  }

  lemma RunInv(run: seq<State>, i: nat)
    requires IsRun(Init, Next, run) && i < |run|
    ensures Inv(run[i])
  {
    forall s | Init(s) ensures Inv(s) { InitInv(s); }
    forall s, s' | Inv(s) && Next(s, s') ensures Inv(s') { NextKeeps(s, s'); }
    Invariance(Init, Next, Inv, run, i);
  }

  // ---------------------------------------------------------------- theorems

  /** At most one thread holds the lock, through every wrap-around of the counters. */
  lemma MutualExclusion(run: seq<State>, i: nat, t: Tid, u: Tid)
    requires IsRun(Init, Next, run) && i < |run| && t < |run[i].threads| && u < |run[i].threads|
    requires Holds(run[i].threads[t]) && Holds(run[i].threads[u])
    ensures t == u
  {
    RunInv(run, i);
    assert ThreadInv(run[i], t) && ThreadInv(run[i], u);
  }

  /** The lock is granted in the order in which tickets were taken, and unlocks never run ahead of grants. */
  lemma GrantsInTicketOrder(run: seq<State>, i: nat)
    requires IsRun(Init, Next, run) && i < |run|
    ensures run[i].granted <= run[i].issued && run[i].served <= |run[i].granted| <= run[i].served + 1
  {
    RunInv(run, i);
  }

  /** A trylock succeeds only on a lock that nobody holds or waits for. */
  lemma TrylockNeedsFreeLock(run: seq<State>, i: nat, t: Tid, u: Tid)
    requires IsRun(Init, Next, run) && i + 1 < |run| && Step(run[i], run[i + 1], t)
    requires run[i].threads[t].TryCas? && run[i + 1].threads[t].Holding?
    requires u < |run[i].threads|
    ensures !HasTicket(run[i].threads[u])
  {
    RunInv(run, i);
    assert ThreadInv(run[i], t) && ThreadInv(run[i], u);
    StepGrants(run[i], run[i + 1], t);
  }

  // ---------------------------------------------------------------- what the operations answer

  /** A spinning thread gets the lock exactly when every ticket before its own has been served, whatever the wrap. */
  lemma LockGrantedExactly(run: seq<State>, i: nat, t: Tid)
    requires IsRun(Init, Next, run) && i + 1 < |run| && Step(run[i], run[i + 1], t) && run[i].threads[t].Spinning?
    ensures |run[i + 1].threads| == |run[i].threads|
    ensures var number := run[i].threads[t].number;
      && run[i].served <= number < |run[i].issued| && run[i].issued[number] == t
      && (run[i + 1].threads[t] == Holding <==> number == run[i].served)
      && (number != run[i].served ==> run[i + 1] == run[i])
  {
    RunInv(run, i);
    assert ThreadInv(run[i], t);
    if run[i].ticket == run[i].threads[t].ticket {
      NoWrap(run[i], run[i].threads[t].number);
    }
  }

  /** A trylock can win exactly when nobody holds or waits for the lock and no ticket has been taken since it read the
      counters. */
  lemma TrylockCanWinExactly(run: seq<State>, i: nat, t: Tid)
    requires IsRun(Init, Next, run) && i < |run| && t < |run[i].threads| && run[i].threads[t].TryCas?
    ensures var s := run[i];
      (exists s' :: Step(s, s', t) && |s'.threads| == |s.threads| && s'.threads[t] == Holding) <==>
        s.users == s.threads[t].users && forall u :: 0 <= u < |s.threads| ==> !HasTicket(s.threads[u])
  {
    RunInv(run, i);
    TrylockFree(run[i]);
    var s, users := run[i], run[i].threads[t].users;
    if s.ticket == users && s.users == users {
      var s' := Goto(s, t, Holding).(users := (users + 1) % WRAP, issued := s.issued + [t], granted := s.granted + [t]);
      assert Step(s, s', t) && s'.threads[t] == Holding;
    }
  }

  /** Equal counters mean, despite the wrap, that no ticket is outstanding. */
  lemma TrylockFree(s: State)
    requires CountersInv(s)
    ensures s.ticket == s.users <==> forall u :: 0 <= u < |s.threads| ==> !HasTicket(s.threads[u])
  {
    if s.ticket == s.users {
      NoWrap(s, |s.issued|);
    }
    if Count(s.threads, HasTicket) > 0 {
      Witness(s.threads, HasTicket);
    }
    forall u | 0 <= u < |s.threads| && HasTicket(s.threads[u]) ensures Count(s.threads, HasTicket) > 0 {
      Positive(s.threads, u, HasTicket);
    }
  }
}
