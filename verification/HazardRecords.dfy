/**
 The list of hazard records and its retire thresholds.  A creator counts the records it found, sets its own
 threshold, swings the list head with a compare-and-swap and only then raises the older records' thresholds one by
 one; scans run meanwhile.  R = 2 * N * K, with N records of K hazard slots.

 `records` lists records oldest first, so the record at index i reaches i + 1 records.  Records are never taken
 off the list, so the head pointer is unchanged exactly when their number is.
 */
module HazardRecords {
  import opened Common
  import opened Runs
  import opened Counting

  datatype Record = Record(
    threshold: nat,
    behind: nat)             // auxiliary: its creator has yet to raise the records below this index

  datatype Pc =
    | Outside
    | Counted(n: nat)        // found n records; ret->retire_threshold == 2 * (n + 1) * K
    | Raising(n: nat, left: nat)
    // hazard_pointer_scan
    | ScanMax(head: nat)
    | ScanVisit(head: nat, max: nat, left: nat, index: nat)   // left records still to visit; index entries in plist

  datatype State = State(slots: nat, records: seq<Record>, threads: map<Tid, Pc>)

  ghost predicate Init(s: State) {
    s.slots > 0 && s.records == [] && s.threads == map[]
  }

  ghost function Goto(s: State, t: Tid, pc: Pc): State {
    s.(threads := s.threads[t := pc])
  }

  ghost predicate Step(s: State, s': State, t: Tid) {
    && t in s.threads
    && match s.threads[t]
       case Outside =>
         || s' == Goto(s, t, Counted(|s.records|))
         || (|s.records| > 0 && s' == Goto(s, t, ScanMax(|s.records| - 1)))
       case Counted(n) =>
         || s' == Goto(s, t, Counted(|s.records|))                  // CAS failed: count again from the new head
         || (&& |s.records| == n
             && s' == Goto(s, t, Raising(n, n)).(records := s.records + [Record(2 * (n + 1) * s.slots, n)]))
       case Raising(n, left) =>
         if left == 0 then s' == Goto(s, t, Outside)
         else left <= n < |s.records| && s' == Raise(s, t, n, left - 1)
       case ScanMax(head) =>
         head < |s.records| && s' == Goto(s, t, ScanVisit(head, s.records[head].threshold / 2, head + 1, 0))
       case ScanVisit(head, max, left, index) =>
         if left == 0 then s' == Goto(s, t, Outside)
         else
           && t in s'.threads && s'.threads[t].ScanVisit? && index <= s'.threads[t].index <= index + s.slots
           && s' == Goto(s, t, ScanVisit(head, max, left - 1, s'.threads[t].index))
  }

  /** The creator of record n raises record i. */
  ghost function Raise(s: State, t: Tid, n: nat, i: nat): State
    requires i < n < |s.records|
  {
    var raised := s.records[i := s.records[i].(threshold := s.records[i].threshold + 2 * s.slots)];
    Goto(s, t, Raising(n, i)).(records := raised[n := raised[n].(behind := i)])
  }

  ghost predicate Next(s: State, s': State) {
    exists t :: Step(s, s', t) || (t !in s.threads && s' == Goto(s, t, Outside))
  }

  // ---------------------------------------------------------------- invariant

  /** A creator that has raised record i, or was found by it. */
  ghost function HasRaised(i: nat): Record -> bool {
    (r: Record) => r.behind <= i
  }

  /** Newer records whose creators have already raised record i. */
  ghost function Passed(records: seq<Record>, i: nat): nat
    requires i < |records|
  {
    Count(records[i + 1..], HasRaised(i))
  }

  ghost predicate ThresholdInv(s: State, i: nat)
    requires i < |s.records|
  {
    && s.records[i].threshold == 2 * s.slots * (i + 1 + Passed(s.records, i))
    && s.records[i].behind <= i
  }

  ghost predicate ThreadInv(s: State, pc: Pc) {
    match pc
    case Outside => true
    case Counted(n) => n <= |s.records|
    case Raising(n, left) => n < |s.records| && left <= n && s.records[n].behind == left
    case ScanMax(head) => head < |s.records|
    case ScanVisit(head, max, left, index) =>
      left <= head + 1 && index <= s.slots * (head + 1 - left) && max >= s.slots * (head + 1)
  }

  ghost predicate SameRecord(pc: Pc, pc': Pc) {
    pc.Raising? && pc'.Raising? && pc.n == pc'.n
  }

  /** Two creators never share a record. */
  ghost predicate CreatorsInv(threads: map<Tid, Pc>) {
    forall t, u :: t in threads && u in threads && SameRecord(threads[t], threads[u]) ==> t == u
  }

  ghost predicate Inv(s: State) {
    && s.slots > 0
    && (forall i :: 0 <= i < |s.records| ==> ThresholdInv(s, i))
    && (forall t :: t in s.threads ==> ThreadInv(s, s.threads[t]))
    && CreatorsInv(s.threads)
    && (forall n :: 0 <= n < |s.records| && s.records[n].behind > 0 ==> Owed(s.threads, n))
  }

  /** The creator of record n is still raising older records. */
  ghost predicate Owed(threads: map<Tid, Pc>, n: nat) {
    exists t :: t in threads && threads[t].Raising? && threads[t].n == n
  }

  lemma Distribute(k: nat, x: int, y: int)
    ensures k * (x + y) == k * x + k * y
  {
  }

  lemma Grows(k: nat, x: nat)
    ensures k * x >= 0 && (k > 0 && x > 0 ==> k * x > 0)
  {
  }

  // ---------------------------------------------------------------- steps keep the invariant

  lemma AppendPassed(records: seq<Record>, r: Record, i: nat)
    requires i < |records| && r.behind > i
    ensures Passed(records + [r], i) == Passed(records, i)
  {
    assert (records + [r])[i + 1..] == records[i + 1..] + [r];
    Arrive(records[i + 1..], r, HasRaised(i));
  }

  /** Raising record i counts once, for record i alone. */
  lemma RaisePassed(records: seq<Record>, n: nat, i: nat, r: Record, j: nat)
    requires i < n < |records| && j < |records| && records[n].behind == i + 1
    requires r.behind == records[i].behind
    ensures var raised := records[i := r];
      Passed(raised[n := raised[n].(behind := i)], j) == Passed(records, j) + (if j == i then 1 else 0)
  {
    var raised := records[i := r];
    var after := raised[n := raised[n].(behind := i)];
    if i <= j {
      assert raised[j + 1..] == records[j + 1..];
    } else {
      assert raised[j + 1..] == records[j + 1..][i - j - 1 := r];
      Move(records[j + 1..], i - j - 1, r, HasRaised(j));
    }
    if n <= j {
      assert after[j + 1..] == raised[j + 1..];
    } else {
      assert after[j + 1..] == raised[j + 1..][n - j - 1 := after[n]];
      Move(raised[j + 1..], n - j - 1, after[n], HasRaised(j));
    }
  }

  lemma AppendKeeps(s: State, s': State, t: Tid, n: nat)
    requires |s.records| == n && forall i :: 0 <= i < |s.records| ==> ThresholdInv(s, i)
    requires s' == Goto(s, t, Raising(n, n)).(records := s.records + [Record(2 * (n + 1) * s.slots, n)])
    ensures forall i :: 0 <= i < |s'.records| ==> ThresholdInv(s', i)
  {
    forall i | 0 <= i < |s'.records| ensures ThresholdInv(s', i) {
      if i < n {
        assert ThresholdInv(s, i);
        AppendPassed(s.records, s'.records[n], i);
      } else {
        assert s'.records[i + 1..] == [];
        assert 2 * (n + 1) * s.slots == 2 * s.slots * (i + 1 + 0);
      }
    }
  }

  lemma RaiseKeeps(s: State, t: Tid, n: nat, i: nat, j: nat)
    requires i < n < |s.records| && s.records[n].behind == i + 1 && j < |s.records|
    requires ThresholdInv(s, j) && ThresholdInv(s, n)
    ensures ThresholdInv(Raise(s, t, n, i), j)
  {
    var r := s.records[i].(threshold := s.records[i].threshold + 2 * s.slots);
    RaisePassed(s.records, n, i, r, j);
    var p := Passed(s.records, j);
    assert 2 * s.slots * (j + 1 + (p + 1)) == 2 * s.slots * (j + 1 + p) + 2 * s.slots;
  }

  lemma StepThresholds(s: State, s': State, t: Tid)
    requires Step(s, s', t) && s.slots > 0 && ThreadInv(s, s.threads[t])
    requires forall i :: 0 <= i < |s.records| ==> ThresholdInv(s, i)
    ensures forall i :: 0 <= i < |s'.records| ==> ThresholdInv(s', i)
  {
    var pc := s.threads[t];
    if pc.Counted? && s'.records != s.records {
      AppendKeeps(s, s', t, pc.n);
    } else if pc.Raising? && pc.left > 0 {
      forall j | 0 <= j < |s'.records| ensures ThresholdInv(s', j) {
        assert ThresholdInv(s, j) && ThresholdInv(s, pc.n);
        RaiseKeeps(s, t, pc.n, pc.left - 1, j);
      }
    } else {
      forall j | 0 <= j < |s'.records| ensures ThresholdInv(s', j) {
        assert ThresholdInv(s, j);
      }
    }
  }

  /** What a scan reads from the head it found covers every slot it can visit. */
  lemma ScanCovers(s: State, head: nat)
    requires head < |s.records| && ThresholdInv(s, head)
    ensures s.records[head].threshold / 2 >= s.slots * (head + 1)
  {
    var p := Passed(s.records, head);
    Distribute(2 * s.slots, head + 1, p);
    Grows(2 * s.slots, p);
  }

  ghost predicate HeadCovers(s: State, pc: Pc) {
    pc.ScanMax? ==> pc.head < |s.records| && s.records[pc.head].threshold / 2 >= s.slots * (pc.head + 1)
  }

  lemma ScanReady(s: State, t: Tid)
    requires Inv(s) && t in s.threads
    ensures HeadCovers(s, s.threads[t])
  {
    if s.threads[t].ScanMax? {
      assert ThreadInv(s, s.threads[t]);
      ScanCovers(s, s.threads[t].head);
    }
  }

  /** One more record visited, at most `slots` more hazards found. */
  lemma VisitStep(k: nat, head: nat, left: nat, index: nat, index': nat)
    requires 0 < left <= head + 1 && index <= k * (head + 1 - left) && index' <= index + k
    ensures index' <= k * (head + 1 - (left - 1))
  {
    Distribute(k, head + 1 - left, 1);
  }

  lemma StepOwn(s: State, s': State, t: Tid)
    requires t in s.threads && ThreadInv(s, s.threads[t]) && Step(s, s', t)
    requires HeadCovers(s, s.threads[t])
    ensures t in s'.threads && ThreadInv(s', s'.threads[t])
  {
    var pc := s.threads[t];
    if pc.ScanVisit? && pc.left > 0 {
      VisitStep(s.slots, pc.head, pc.left, pc.index, s'.threads[t].index);
    }
  }

  lemma StepOthers(s: State, s': State, t: Tid, u: Tid)
    requires Inv(s) && Step(s, s', t) && u in s.threads && u != t
    ensures ThreadInv(s', s.threads[u])
  {
    assert ThreadInv(s, s.threads[t]) && ThreadInv(s, s.threads[u]);
  }

  lemma StepCreators(s: State, s': State, t: Tid)
    requires CreatorsInv(s.threads) && Step(s, s', t) && forall u :: u in s.threads ==> ThreadInv(s, s.threads[u])
    ensures CreatorsInv(s'.threads)
  {
    forall u | u in s.threads ensures ThreadInv(s, s.threads[u]) {
    }
  }

  lemma StepOwed(s: State, s': State, t: Tid, n: nat)
    requires Step(s, s', t) && ThreadInv(s, s.threads[t]) && n < |s'.records| && s'.records[n].behind > 0
    requires n < |s.records| && s.records[n].behind > 0 ==> Owed(s.threads, n)
    ensures Owed(s'.threads, n)
  {
    if n < |s.records| {
      assert s.records[n].behind > 0;
      var u :| u in s.threads && s.threads[u].Raising? && s.threads[u].n == n;
      assert u in s'.threads && s'.threads[u].Raising? && s'.threads[u].n == n;
    } else {
      assert s'.threads[t].Raising? && s'.threads[t].n == n;
    }
  }

  lemma NextKeeps(s: State, s': State)
    requires Inv(s) && Next(s, s')
    ensures Inv(s')
  {
    var t :| Step(s, s', t) || (t !in s.threads && s' == Goto(s, t, Outside));
    if Step(s, s', t) {
      assert ThreadInv(s, s.threads[t]);
      StepThresholds(s, s', t);
      ScanReady(s, t);
      StepOwn(s, s', t);
      StepCreators(s, s', t);
      forall n | 0 <= n < |s'.records| && s'.records[n].behind > 0 ensures Owed(s'.threads, n) {
        StepOwed(s, s', t, n);
      }
      forall u | u in s'.threads ensures ThreadInv(s', s'.threads[u]) {
        if u != t {
          StepOthers(s, s', t, u);
        }
      }
    } else {
      ArrivalKeeps(s, s', t);
    }
  }

  lemma ArrivalKeeps(s: State, s': State, t: Tid)
    requires Inv(s) && t !in s.threads && s' == Goto(s, t, Outside)
    ensures Inv(s')
  {
    forall i | 0 <= i < |s'.records| ensures ThresholdInv(s', i) {
      assert ThresholdInv(s, i);
    }
    forall u | u in s'.threads ensures ThreadInv(s', s'.threads[u]) {
      if u != t {
        assert ThreadInv(s, s.threads[u]);
      }
    }
    forall n | 0 <= n < |s'.records| && s'.records[n].behind > 0 ensures Owed(s'.threads, n) {
      var u :| u in s.threads && s.threads[u].Raising? && s.threads[u].n == n;
      assert u in s'.threads && s'.threads[u].Raising? && s'.threads[u].n == n;
    }
  }

  lemma RunInv(run: seq<State>, i: nat)
    requires IsRun(Init, Next, run) && i < |run|
    ensures Inv(run[i])
  {
    forall s, s' | Inv(s) && Next(s, s') ensures Inv(s') { NextKeeps(s, s'); }
    Invariance(Init, Next, Inv, run, i);
  }

  // ---------------------------------------------------------------- theorems

  lemma HeadExact(s: State)
    requires |s.records| > 0 && ThresholdInv(s, |s.records| - 1)
    ensures s.records[|s.records| - 1].threshold == 2 * |s.records| * s.slots
  {
    assert s.records[|s.records|..] == [];
  }

  lemma AtLeastReached(s: State, r: nat)
    requires r < |s.records| && ThresholdInv(s, r)
    ensures s.records[r].threshold >= 2 * (r + 1) * s.slots
  {
    var p := Passed(s.records, r);
    Distribute(2 * s.slots, r + 1, p);
    Grows(2 * s.slots, p);
  }

  /** The head's threshold is always 2 * N * K, and no record's is below 2 * K times the records it reaches. */
  lemma HeadThresholdIsExact(run: seq<State>, i: nat, r: nat)
    requires IsRun(Init, Next, run) && i < |run| && r < |run[i].records|
    ensures var s := run[i];
      && s.records[|s.records| - 1].threshold == 2 * |s.records| * s.slots
      && s.records[r].threshold >= 2 * (r + 1) * s.slots
  {
    RunInv(run, i);
    HeadExact(run[i]);
    AtLeastReached(run[i], r);
  }

  lemma Fits(s: State, pc: Pc)
    requires s.slots > 0 && pc.ScanVisit? && ThreadInv(s, pc)
    ensures pc.index <= pc.max && (pc.left > 0 ==> pc.index < pc.max)
  {
    Distribute(s.slots, pc.head + 1 - pc.left, pc.left);
    Grows(s.slots, pc.left);
  }

  /** The hazards a scan collects always fit the scratch list it sized, and the assertion at each record holds,
      though creators run meanwhile. */
  lemma ScanFitsScratchList(run: seq<State>, i: nat, t: Tid)
    requires IsRun(Init, Next, run) && i < |run| && t in run[i].threads && run[i].threads[t].ScanVisit?
    ensures run[i].threads[t].index <= run[i].threads[t].max
    ensures run[i].threads[t].left > 0 ==> run[i].threads[t].index < run[i].threads[t].max
  {
    RunInv(run, i);
    Fits(run[i], run[i].threads[t]);
  }

  lemma {:induction false} AllPassed(records: seq<Record>, i: nat)
    requires forall r :: r in records ==> r.behind == 0
    ensures Count(records, HasRaised(i)) == |records|
  {
    if records != [] {
      AllPassed(records[..|records| - 1], i);
    }
  }

  lemma SettledOne(s: State, r: nat)
    requires r < |s.records| && ThresholdInv(s, r)
    requires forall n :: 0 <= n < |s.records| ==> s.records[n].behind == 0
    ensures s.records[r].threshold == 2 * |s.records| * s.slots
  {
    AllPassed(s.records[r + 1..], r);
  }

  /** Once every creator has finished, every record's threshold is 2 * N * K. */
  lemma SettledThresholds(run: seq<State>, i: nat, r: nat)
    requires IsRun(Init, Next, run) && i < |run| && r < |run[i].records|
    requires forall t :: t in run[i].threads ==> !run[i].threads[t].Raising?
    ensures run[i].records[r].threshold == 2 * |run[i].records| * run[i].slots
  {
    RunInv(run, i);
    var s := run[i];
    forall n | 0 <= n < |s.records| ensures s.records[n].behind == 0 {
      assert !Owed(s.threads, n);
    }
    SettledOne(s, r);
  }

  /** A creator's compare-and-swap finds the head it counted from. */
  ghost predicate CanWin(s: State, pc: Pc) {
    pc.Counted? && pc.n == |s.records|
  }

  /** The model's guards never hold a thread back: the records a creator raises and a scan reads are there, and a
      creator that finds the head it counted from can push its record. */
  lemma NeverStuck(run: seq<State>, i: nat, t: Tid)
    requires IsRun(Init, Next, run) && i < |run| && t in run[i].threads
    ensures var s := run[i];
      exists s' :: Step(s, s', t) && (CanWin(s, s.threads[t]) ==> |s'.records| == |s.records| + 1)
  {
    RunInv(run, i);
    assert ThreadInv(run[i], run[i].threads[t]);
    var s' := GoesOn(run[i], t);
  }

  /** How many of its own steps a thread is from the end of its operation at most. */
  ghost function Distance(s: State, pc: Pc): nat {
    match pc
    case Outside => 0
    case Counted(n) => if n == |s.records| then n + 2 else |s.records| + 3
    case Raising(_, left) => left + 1
    case ScanMax(head) => head + 3
    case ScanVisit(_, _, left, _) => left + 1
  }

  lemma GoesOn(s: State, t: Tid) returns (s': State)
    requires t in s.threads && ThreadInv(s, s.threads[t])
    ensures Step(s, s', t) && (CanWin(s, s.threads[t]) ==> |s'.records| == |s.records| + 1)
    ensures t in s'.threads && (s.threads[t] == Outside || Distance(s', s'.threads[t]) < Distance(s, s.threads[t]))
  {
    match s.threads[t]
    case Outside => s' := Goto(s, t, Counted(|s.records|));
    case Counted(n) =>
      s' := if |s.records| == n
            then Goto(s, t, Raising(n, n)).(records := s.records + [Record(2 * (n + 1) * s.slots, n)])
            else Goto(s, t, Counted(|s.records|));
    case Raising(n, left) => s' := if left == 0 then Goto(s, t, Outside) else Raise(s, t, n, left - 1);
    case ScanMax(head) => s' := Goto(s, t, ScanVisit(head, s.records[head].threshold / 2, head + 1, 0));
    case ScanVisit(head, max, left, index) =>
      s' := if left == 0 then Goto(s, t, Outside) else Goto(s, t, ScanVisit(head, max, left - 1, index));
  }

  /** A creator pushes its record, with the threshold for the list it counted, or counts the new list again; it is done
      exactly when it has raised every older record, and a scan exactly when it has visited every record. */
  lemma StepsExactly(run: seq<State>, i: nat, t: Tid)
    requires IsRun(Init, Next, run) && i + 1 < |run| && Step(run[i], run[i + 1], t)
    ensures t in run[i + 1].threads
    ensures var s, s', pc, pc' := run[i], run[i + 1], run[i].threads[t], run[i + 1].threads[t];
      && (pc.Counted? ==>
            if s'.records != s.records
            then s'.records == s.records + [Record(2 * (|s.records| + 1) * s.slots, |s.records|)] && pc'.Raising?
            else pc' == Counted(|s.records|))
      && (pc.Raising? ==> pc.n < |s.records| && (pc' == Outside <==> s.records[pc.n].behind == 0))
      && (pc.ScanVisit? ==> (pc' == Outside <==> pc.left == 0))
  {
    RunInv(run, i);
    assert ThreadInv(run[i], run[i].threads[t]);
  }

  // ---------------------------------------------------------------- progress

  ghost predicate CanFinish(s: State, t: Tid, k: nat)
    decreases k
  {
    t in s.threads && (s.threads[t] == Outside || (k > 0 && exists s' :: Step(s, s', t) && CanFinish(s', t, k - 1)))
  }

  lemma {:induction false} Finishes(s: State, t: Tid, k: nat)
    requires Inv(s) && t in s.threads && Distance(s, s.threads[t]) <= k
    ensures CanFinish(s, t, k)
    decreases k
  {
    if s.threads[t] != Outside {
      assert ThreadInv(s, s.threads[t]);
      var s' := GoesOn(s, t);
      assert Next(s, s');
      NextKeeps(s, s');
      Finishes(s', t, k - 1);
    }
  }

  /** From every reachable state every creator and scanner can finish alone, in a number of steps bounded by the number
      of records and three. */
  lemma CompletesAlone(run: seq<State>, i: nat, t: Tid)
    requires IsRun(Init, Next, run) && i < |run| && t in run[i].threads
    ensures CanFinish(run[i], t, Distance(run[i], run[i].threads[t]))
  {
    RunInv(run, i);
    Finishes(run[i], t, Distance(run[i], run[i].threads[t]));
  }
}
