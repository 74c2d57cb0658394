/**
 Hazard records, and the scan by which a record decides which of its retired nodes may be reclaimed.  A list of
 records runs from the newest to the oldest.  Here one thread runs at a time; `MpmcFifo` shows what a scan's reads
 mean, and `HazardRecords` what its list and thresholds are, while other threads run.
 */
module HazardScan {
  import opened Common
  import opened Runs

  /** The hazards found in the first n slots of a record, in reading order. */
  ghost function Collected(slots: seq<Option<Node>>, n: nat): (r: seq<Node>)
    requires n <= |slots|
    ensures |r| <= n
  {
    if n == 0 then [] else Collected(slots, n - 1) + Found(slots[n - 1])
  }

  ghost function Found(slot: Option<Node>): seq<Node> {
    match slot case None => [] case Some(n) => [n]
  }

  /** The hazards found in the first n records. */
  ghost function CollectedAll(hazards: seq<seq<Option<Node>>>, n: nat): (r: seq<Node>)
    requires n <= |hazards|
    ensures |r| <= SlotCount(hazards, n)
  {
    if n == 0 then [] else CollectedAll(hazards, n - 1) + Collected(hazards[n - 1], |hazards[n - 1]|)
  }

  ghost function SlotCount(hazards: seq<seq<Option<Node>>>, n: nat): nat
    requires n <= |hazards|
  {
    if n == 0 then 0 else SlotCount(hazards, n - 1) + |hazards[n - 1]|
  }

  /** The set of nodes a scan finds hazardous. */
  ghost function Hazardous(hazards: seq<seq<Option<Node>>>): set<Node> {
    set n | n in CollectedAll(hazards, |hazards|)
  }

  lemma {:induction false} CollectedExactly(slots: seq<Option<Node>>, n: nat, x: Node)
    requires n <= |slots|
    ensures x in Collected(slots, n) <==> exists i :: 0 <= i < n && slots[i] == Some(x)
  {
    if n > 0 {
      CollectedExactly(slots, n - 1, x);
    }
  }

  ghost predicate Publishes(slots: seq<Option<Node>>, x: Node) {
    Some(x) in slots
  }

  lemma {:induction false} CollectedAllExactly(hazards: seq<seq<Option<Node>>>, n: nat, x: Node)
    requires n <= |hazards|
    ensures x in CollectedAll(hazards, n) <==> exists i :: 0 <= i < n && Publishes(hazards[i], x)
  {
    if n > 0 {
      CollectedAllExactly(hazards, n - 1, x);
      var last := hazards[n - 1];
      CollectedExactly(last, |last|, x);
      assert Publishes(last, x) <==> exists i :: 0 <= i < |last| && last[i] == Some(x);
    }
  }

  /** A node is hazardous exactly when some record publishes it. */
  lemma HazardousExactly(hazards: seq<seq<Option<Node>>>, x: Node)
    ensures x in Hazardous(hazards) <==> exists i :: 0 <= i < |hazards| && Publishes(hazards[i], x)
  {
    CollectedAllExactly(hazards, |hazards|, x);
  }

  ghost predicate Sorted(s: seq<Node>) {
    forall i, j :: 0 <= i < j < |s| ==> s[i] <= s[j]
  }

  /** The retired nodes that are, or are not, hazardous; in list order. */
  ghost function Filter(ns: seq<Node>, hs: set<Node>, keep: bool): (r: seq<Node>)
    ensures forall n :: n in r <==> n in ns && (n in hs) == keep
  {
    if ns == [] then []
    else
      var rest := Filter(ns[..|ns| - 1], hs, keep);
      if (ns[|ns| - 1] in hs) == keep then rest + [ns[|ns| - 1]] else rest
  }

  ghost function Reversed(ns: seq<Node>): (r: seq<Node>)
    ensures |r| == |ns| && forall i :: 0 <= i < |ns| ==> r[i] == ns[|ns| - 1 - i]
  {
    seq(|ns|, i requires 0 <= i < |ns| => ns[|ns| - 1 - i])
  }

  // ---------------------------------------------------------------- loops

  /** binary_search over the sorted scratch list. */
  method BinarySearch(haystack: array<Node>, size: nat, needle: Node) returns (found: bool)
    requires size <= haystack.Length && Sorted(haystack[..size])
    ensures found <==> needle in haystack[..size]
  {
    if size == 0 {
      return false;
    }
    var start, end := 0, size - 1;
    while start <= end
      invariant 0 <= start <= size && -1 <= end < size
      invariant forall i :: 0 <= i < start ==> haystack[i] < needle
      invariant forall i :: end < i < size ==> haystack[i] > needle
      decreases end - start
    {
      var middle := (start + end) / 2;
      assert haystack[..size][middle] == haystack[middle];
      if haystack[middle] > needle {
        forall i | middle <= i < size ensures haystack[i] > needle {
          assert haystack[..size][i] == haystack[i];
        }
        end := middle - 1;
      } else if haystack[middle] < needle {
        forall i | 0 <= i <= middle ensures haystack[i] < needle {
          assert haystack[..size][i] == haystack[i];
        }
        start := middle + 1;
      } else {
        return true;
      }
    }
    return false;
  }

  /** Stands for qsort over the first n entries. */
  method Sort(a: array<Node>, n: nat)
    requires n <= a.Length
    modifies a
    ensures Sorted(a[..n]) && a[n..] == old(a[n..])
    ensures forall x :: x in a[..n] <==> x in old(a[..n])
  {
    var s := InsertionSort(a[..n]);
    for i := 0 to n
      invariant a[..i] == s[..i] && a[n..] == old(a[n..])
    {
      a[i] := s[i];
    }
    assert a[..n] == s;
  }

  function InsertionSort(s: seq<Node>): (r: seq<Node>)
    ensures Sorted(r) && |r| == |s| && multiset(r) == multiset(s)
    ensures forall x :: x in r <==> x in s
  {
    if s == [] then []
    else
      assert s == s[..|s| - 1] + [s[|s| - 1]];
      Insert(InsertionSort(s[..|s| - 1]), s[|s| - 1])
  }

  function Insert(s: seq<Node>, x: Node): (r: seq<Node>)
    requires Sorted(s)
    ensures Sorted(r) && |r| == |s| + 1 && multiset(r) == multiset(s) + multiset{x}
    ensures forall y :: y in r <==> y in s || y == x
  {
    if s == [] || s[|s| - 1] <= x then s + [x]
    else
      var rest, last := Insert(s[..|s| - 1], x), s[|s| - 1];
      assert s == s[..|s| - 1] + [last];
      assert forall i :: 0 <= i < |rest| ==> rest[i] <= last by {
        forall i | 0 <= i < |rest| ensures rest[i] <= last {
          assert rest[i] in rest;
        }
      }
      rest + [last]
  }

  /** Appends the hazards of one record to the scratch list. */
  method CollectRecord(plist: array<Node>, slots: seq<Option<Node>>, from: nat) returns (index: nat)
    requires from + |slots| <= plist.Length
    modifies plist
    ensures index <= from + |slots| && plist[..index] == old(plist[..from]) + Collected(slots, |slots|)
  {
    index := from;
    ghost var found := [];
    for k := 0 to |slots|
      invariant found == Collected(slots, k)
      invariant index == from + |found| <= from + k && plist[..index] == old(plist[..from]) + found
    {
      if slots[k].Some? {
        plist[index] := slots[k].value;
        index := index + 1;
        found := found + [slots[k].value];
      }
    }
  }

  // ---------------------------------------------------------------- the record

  /** What the slots of a list of records hold. */
  ghost function SlotsOf(list: seq<Record>): (r: seq<seq<Option<Node>>>)
    reads list
    ensures |r| == |list| && forall i :: 0 <= i < |list| ==> r[i] == list[i].slots
  {
    seq(|list|, i requires 0 <= i < |list| reads list => list[i].slots)
  }

  /** A list whose newest record's threshold is right: twice the number of slots. */
  ghost predicate IsList(list: seq<Record>)
    reads list
  {
    && |list| > 0 && (forall r :: r in list ==> |r.slots| > 0)
    && list[0].threshold == 2 * SlotCount(SlotsOf(list), |list|)
  }

  class Record {
    var slots: seq<Option<Node>> // hazard_pointers
    var retired: seq<Node>       // retired_list
    var retiredCount: nat
    var threshold: nat           // retire_threshold
    var plist: array<Node>       // scratch area of scan; plist.Length is plist_size

    ghost predicate Valid()
      reads this
    {
      retiredCount == |retired|
    }

    /** A zeroed record with k slots, for a list of n others. */
    constructor (k: nat, n: nat)
      ensures Valid() && slots == seq(k, _ => None) && retired == [] && threshold == 2 * (n + 1) * k && fresh(plist)
    {
      slots, retired, retiredCount, threshold := seq(k, _ => None), [], 0, 2 * (n + 1) * k;
      plist := new Node[0];
    }

    /** hazard_pointer_using */
    method Using(node: Node, n: nat)
      requires n < |slots|
      modifies this`slots
      ensures slots == old(slots)[n := Some(node)]
    {
      slots := slots[n := Some(node)];
    }

    /** hazard_pointer_done_using */
    method DoneUsing(n: nat)
      requires n < |slots|
      modifies this`slots
      ensures slots == old(slots)[n := None]
    {
      slots := slots[n := None];
    }

    /** The first half of a scan: the scratch list, sized by the newest record's threshold, holds exactly the hazards
        of all records. */
    method Collect(list: seq<Record>) returns (index: nat)
      requires IsList(list)
      modifies this`plist, plist
      ensures index <= plist.Length && plist[..index] == CollectedAll(SlotsOf(list), |list|)
      ensures SlotsOf(list) == old(SlotsOf(list))
      ensures plist == old(plist) || fresh(plist)
    {
      var maxPointers := list[0].threshold / 2;
      ghost var hazards := SlotsOf(list);
      assert forall i :: 0 <= i < |list| ==> list[i] in list;
      if plist.Length < maxPointers {
        plist := new Node[maxPointers];
      }
      index := CollectList(plist, list, hazards);
      assert SlotsOf(list) == hazards;
    }

    /** The second half: each retired node is looked up and kept, last one first, or reclaimed. */
    method Sweep(nodes: seq<Node>, index: nat, ghost hs: set<Node>) returns (reclaimed: seq<Node>)
      requires index <= plist.Length && Sorted(plist[..index])
      requires forall n :: n in plist[..index] <==> n in hs
      modifies this`retired, this`retiredCount
      ensures Valid()
      ensures retired == Reversed(Filter(nodes, hs, true)) && reclaimed == Filter(nodes, hs, false)
    {
      retired, retiredCount, reclaimed := [], 0, [];
      for i := 0 to |nodes|
        invariant Valid()
        invariant retired == Reversed(Filter(nodes[..i], hs, true)) && reclaimed == Filter(nodes[..i], hs, false)
      {
        assert nodes[..i + 1][..i] == nodes[..i];
        var hazardous := BinarySearch(plist, index, nodes[i]);
        if hazardous {
          ghost var kept := Filter(nodes[..i], hs, true);
          assert Reversed(kept + [nodes[i]]) == [nodes[i]] + Reversed(kept);
          retired := [nodes[i]] + retired;
          retiredCount := retiredCount + 1;
        } else {
          reclaimed := reclaimed + [nodes[i]];
        }
      }
      assert nodes[..|nodes|] == nodes;
    }

    /** hazard_pointer_scan: hazardous nodes stay on the list and all others are reclaimed. */
    method Scan(list: seq<Record>) returns (reclaimed: seq<Node>)
      requires Valid() && IsList(list)
      modifies this`retired, this`retiredCount, this`plist, plist
      ensures Valid() && SlotsOf(list) == old(SlotsOf(list)) && (plist == old(plist) || fresh(plist))
      ensures var hs := Hazardous(SlotsOf(list));
        retired == Reversed(Filter(old(retired), hs, true)) && reclaimed == Filter(old(retired), hs, false)
    {
      var index := Collect(list);
      Sort(plist, index);
      reclaimed := Sweep(retired, index, Hazardous(SlotsOf(list)));
    }

    /** hazard_pointer_free: retire a node and scan when the threshold is reached. */
    method Retire(node: Node, list: seq<Record>) returns (reclaimed: seq<Node>)
      requires Valid() && IsList(list)
      modifies this`retired, this`retiredCount, this`plist, plist
      ensures Valid() && SlotsOf(list) == old(SlotsOf(list))
      ensures var hs := Hazardous(SlotsOf(list));
        && retired == AfterRetire(old(retired), node, hs, threshold)
        && reclaimed == if 1 + |old(retired)| >= threshold then Filter([node] + old(retired), hs, false) else []
    {
      ghost var hazards := SlotsOf(list);
      retired := [node] + retired;
      retiredCount := retiredCount + 1;
      assert SlotsOf(list) == hazards;
      if retiredCount >= threshold {
        reclaimed := Scan(list);
      } else {
        reclaimed := [];
      }
    }
  }

  /** The walk over the list of records. */
  method CollectList(plist: array<Node>, list: seq<Record>, ghost hazards: seq<seq<Option<Node>>>) returns (index: nat)
    requires |hazards| == |list| && forall i :: 0 <= i < |list| ==> hazards[i] == list[i].slots && |hazards[i]| > 0
    requires SlotCount(hazards, |list|) <= plist.Length
    modifies plist
    ensures index <= plist.Length && plist[..index] == CollectedAll(hazards, |list|)
  {
    index := 0;
    for r := 0 to |list|
      invariant index <= SlotCount(hazards, r) && index <= plist.Length
      invariant plist[..index] == CollectedAll(hazards, r)
    {
      SlotCountMonotone(hazards, r + 1);
      assert index < SlotCount(hazards, |list|);
      index := CollectRecord(plist, list[r].slots, index);
    }
  }

  /** Raises the thresholds of all older records: N has grown by one. */
  method RaiseThresholds(list: seq<Record>, k: nat)
    requires NoDuplicates(list)
    modifies list
    ensures forall r :: r in list ==> r.threshold == old(r.threshold) + 2 * k
    ensures forall r :: r in list ==> r.slots == old(r.slots) && r.retired == old(r.retired)
    ensures forall r :: r in list ==> r.retiredCount == old(r.retiredCount) && r.plist == old(r.plist)
  {
    for i := 0 to |list|
      invariant forall j :: 0 <= j < |list| ==> list[j].threshold == old(list[j].threshold) + if j < i then 2 * k else 0
      invariant forall r :: r in list ==> r.slots == old(r.slots) && r.retired == old(r.retired)
      invariant forall r :: r in list ==> r.retiredCount == old(r.retiredCount) && r.plist == old(r.plist)
    {
      list[i].threshold := list[i].threshold + 2 * k;
    }
  }

  /** hazard_pointer_thread_record_create_and_push, with nobody else creating: the new record's threshold comes from a
      walk over the list, and every older record's is raised; so thresholds that were right stay right. */
  method CreateAndPush(list: seq<Record>, k: nat) returns (list': seq<Record>)
    requires k > 0 && NoDuplicates(list) && forall r :: r in list ==> |r.slots| == k
    modifies list
    ensures |list'| == |list| + 1 && list'[1..] == list && fresh(list'[0])
    ensures list'[0].Valid() && list'[0].slots == seq(k, _ => None) && list'[0].retired == [] && IsList(list')
    ensures forall r :: r in list ==> r.threshold == old(r.threshold) + 2 * k
    ensures forall r :: r in list ==> r.slots == old(r.slots) && r.retired == old(r.retired)
    ensures list'[0].threshold == 2 * |list'| * k
    ensures forall r :: r in list && old(r.threshold) == 2 * |list| * k ==> r.threshold == 2 * |list'| * k
  {
    var threads := 0;
    for i := 0 to |list|
      invariant threads == i
    {
      threads := threads + 1;
    }
    var record := new Record(k, threads);
    list' := [record] + list;
    RaiseThresholds(list, k);
    OneMore(|list|, k);
    Pushed(list', k);
  }

  lemma Pushed(list: seq<Record>, k: nat)
    requires k > 0 && |list| > 0 && (forall r :: r in list ==> |r.slots| == k) && list[0].threshold == 2 * |list| * k
    ensures IsList(list)
  {
    var hazards := SlotsOf(list);
    forall i | 0 <= i < |list| ensures |hazards[i]| == k {
      assert list[i] in list;
    }
    SlotCountUniform(hazards, |list|, k);
    assert 2 * |list| * k == 2 * (|list| * k);
  }

  lemma OneMore(n: nat, k: nat)
    ensures 2 * (n + 1) * k == 2 * n * k + 2 * k
  {
  }

  lemma {:induction false} SlotCountMonotone(hazards: seq<seq<Option<Node>>>, n: nat)
    requires n <= |hazards|
    ensures SlotCount(hazards, n) <= SlotCount(hazards, |hazards|)
    decreases |hazards| - n
  {
    if n < |hazards| {
      SlotCountMonotone(hazards, n + 1);
    }
  }

  // ---------------------------------------------------------------- what a scan achieves

  /** Nothing is lost or duplicated: kept and reclaimed nodes together are the retired ones. */
  lemma {:induction false} SplitIsExact(ns: seq<Node>, hs: set<Node>)
    ensures multiset(ns) == multiset(Filter(ns, hs, true)) + multiset(Filter(ns, hs, false))
  {
    if ns != [] {
      SplitIsExact(ns[..|ns| - 1], hs);
      assert ns == ns[..|ns| - 1] + [ns[|ns| - 1]];
    }
  }

  lemma {:induction false} FilterDistinct(ns: seq<Node>, hs: set<Node>, keep: bool)
    requires NoDuplicates(ns)
    ensures NoDuplicates(Filter(ns, hs, keep))
  {
    if ns != [] {
      var last := |ns| - 1;
      FilterDistinct(ns[..last], hs, keep);
      assert ns[last] !in ns[..last];
    }
  }

  /** Distinct entries drawn from a list are no more than the list. */
  lemma {:induction false} DistinctFit(kept: seq<Node>, plist: seq<Node>)
    requires NoDuplicates(kept) && forall n :: n in kept ==> n in plist
    ensures |kept| <= |plist|
    decreases kept
  {
    if kept != [] {
      var last := |kept| - 1;
      assert kept[last] in plist;
      var i :| 0 <= i < |plist| && plist[i] == kept[last];
      var rest := plist[..i] + plist[i + 1..];
      forall n | n in kept[..last] ensures n in rest {
        StaysIn(plist, i, n);
      }
      DistinctFit(kept[..last], rest);
    }
  }

  lemma StaysIn(plist: seq<Node>, i: nat, n: Node)
    requires i < |plist| && n in plist && n != plist[i]
    ensures n in plist[..i] + plist[i + 1..]
  {
    var j :| 0 <= j < |plist| && plist[j] == n;
    assert (plist[..i] + plist[i + 1..])[if j < i then j else j - 1] == n;
  }

  lemma {:induction false} SlotCountUniform(hazards: seq<seq<Option<Node>>>, n: nat, k: nat)
    requires n <= |hazards| && forall r :: r in hazards ==> |r| == k
    ensures SlotCount(hazards, n) == n * k
  {
    if n > 0 {
      SlotCountUniform(hazards, n - 1, k);
      assert hazards[n - 1] in hazards && n * k == (n - 1) * k + k;
    }
  }

  /** With N records of K slots and distinct retired nodes, at most N * K nodes survive a scan; so a list that has
      reached the threshold 2 * N * K loses at least half. */
  lemma ScanFreesHalf(ns: seq<Node>, hazards: seq<seq<Option<Node>>>, k: nat)
    requires NoDuplicates(ns) && forall r :: r in hazards ==> |r| == k
    ensures var hs := Hazardous(hazards);
      && |Filter(ns, hs, true)| <= |hazards| * k
      && (|ns| >= 2 * (|hazards| * k) ==> 2 * |Filter(ns, hs, false)| >= |ns|)
  {
    var hs := Hazardous(hazards);
    FilterDistinct(ns, hs, true);
    DistinctFit(Filter(ns, hs, true), CollectedAll(hazards, |hazards|));
    SlotCountUniform(hazards, |hazards|, k);
    SplitIsExact(ns, hs);
    assert |ns| == |multiset(ns)|;
  }

  // ---------------------------------------------------------------- how many nodes stay retired

  /** The retired list after one more node, as `Retire` leaves it. */
  ghost function AfterRetire(ns: seq<Node>, node: Node, hs: set<Node>, threshold: nat): seq<Node> {
    var all := [node] + ns;
    if |all| >= threshold then Reversed(Filter(all, hs, true)) else all
  }

  lemma ReversedDistinct(ns: seq<Node>)
    requires NoDuplicates(ns)
    ensures NoDuplicates(Reversed(ns))
  {
  }

  lemma HalfIsLess(n: nat, k: nat)
    requires n > 0 && k > 0
    ensures n * k < 2 * n * k
  {
    assert 2 * n * k == n * k + n * k;
    assert n * k >= k by {
      assert n * k == (n - 1) * k + k && (n - 1) * k >= 0;
    }
  }

  /** With the threshold at 2 * N * K and distinct nodes, the list is below its threshold after every retirement. */
  lemma StaysBelowThreshold(ns: seq<Node>, node: Node, hazards: seq<seq<Option<Node>>>, k: nat)
    requires k > 0 && |hazards| > 0 && (forall r :: r in hazards ==> |r| == k)
    requires NoDuplicates(ns) && node !in ns && |ns| < 2 * |hazards| * k
    ensures var after := AfterRetire(ns, node, Hazardous(hazards), 2 * |hazards| * k);
      |after| < 2 * |hazards| * k && NoDuplicates(after)
  {
    var all, hs := [node] + ns, Hazardous(hazards);
    if |all| >= 2 * |hazards| * k {
      ScanFreesHalf(all, hazards, k);
      FilterDistinct(all, hs, true);
      ReversedDistinct(Filter(all, hs, true));
      HalfIsLess(|hazards|, k);
    }
  }

  /** The retired lists of N records whose thresholds have settled, each with K slots. */
  datatype Fleet = Fleet(slots: nat, lists: seq<seq<Node>>)

  ghost predicate FleetInit(f: Fleet) {
    f.slots > 0 && forall r :: 0 <= r < |f.lists| ==> f.lists[r] == []
  }

  /** Record r retires a node it does not hold yet, and a scan finds whatever hazards are published then. */
  ghost predicate RetireStep(f: Fleet, f': Fleet, r: nat, node: Node, hazards: seq<seq<Option<Node>>>) {
    && r < |f.lists| == |hazards| && (forall slots :: slots in hazards ==> |slots| == f.slots) && node !in f.lists[r]
    && var after := AfterRetire(f.lists[r], node, Hazardous(hazards), 2 * |f.lists| * f.slots);
       f' == f.(lists := f.lists[r := after])
  }

  ghost predicate FleetNext(f: Fleet, f': Fleet) {
    exists r, node, hazards :: RetireStep(f, f', r, node, hazards)
  }

  ghost predicate BelowThreshold(ns: seq<Node>, threshold: nat) {
    NoDuplicates(ns) && |ns| < threshold
  }

  ghost predicate FleetInv(f: Fleet) {
    f.slots > 0 && forall r :: 0 <= r < |f.lists| ==> BelowThreshold(f.lists[r], 2 * |f.lists| * f.slots)
  }

  ghost function TotalRetired(lists: seq<seq<Node>>): nat {
    if lists == [] then 0 else TotalRetired(lists[..|lists| - 1]) + |lists[|lists| - 1]|
  }

  lemma RetireKeeps(f: Fleet, f': Fleet, r: nat, node: Node, hazards: seq<seq<Option<Node>>>)
    requires FleetInv(f) && RetireStep(f, f', r, node, hazards)
    ensures FleetInv(f')
  {
    assert BelowThreshold(f.lists[r], 2 * |f.lists| * f.slots);
    StaysBelowThreshold(f.lists[r], node, hazards, f.slots);
  }

  lemma FleetStart(f: Fleet)
    requires FleetInit(f)
    ensures FleetInv(f)
  {
    if |f.lists| > 0 {
      HalfIsLess(|f.lists|, f.slots);
    }
  }

  lemma FleetIsInductive()
    ensures Inductive(FleetInit, FleetNext, FleetInv)
  {
    forall f | FleetInit(f) ensures FleetInv(f) { FleetStart(f); }
    forall f, f' | FleetInv(f) && FleetNext(f, f') ensures FleetInv(f') {
      var r, node, hazards :| RetireStep(f, f', r, node, hazards);
      RetireKeeps(f, f', r, node, hazards);
    }
  }

  lemma {:induction false} TotalBound(lists: seq<seq<Node>>, threshold: nat)
    requires forall r :: 0 <= r < |lists| ==> |lists[r]| <= threshold
    ensures TotalRetired(lists) <= |lists| * threshold
  {
    if lists != [] {
      var last := |lists| - 1;
      TotalBound(lists[..last], threshold);
      assert |lists| * threshold == last * threshold + threshold;
    }
  }

  /** At any time at most N * R retired nodes are waiting to be reclaimed, R being the threshold; each of the N lists is
      below R. */
  lemma RetiredBounded(run: seq<Fleet>, i: nat, r: nat)
    requires IsRun(FleetInit, FleetNext, run) && i < |run| && r < |run[i].lists|
    ensures var n := |run[i].lists|; var threshold := 2 * n * run[i].slots;
      |run[i].lists[r]| < threshold && TotalRetired(run[i].lists) <= n * threshold
  {
    FleetIsInductive();
    Invariance(FleetInit, FleetNext, FleetInv, run, i);
    var f := run[i];
    var threshold := 2 * |f.lists| * f.slots;
    forall q | 0 <= q < |f.lists| ensures |f.lists[q]| < threshold {
      assert BelowThreshold(f.lists[q], threshold);
    }
    TotalBound(f.lists, threshold);
  }
}
