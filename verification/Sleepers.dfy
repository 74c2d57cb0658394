/**
 The timer's sleepers: an unbalanced search tree of wake times whose nodes carry lists of sleepers with equal wake
 times, updated in place through its links, and the loop that wakes everyone whose time has passed.
 */
module Sleepers {
  import opened Common
  import opened Runs

  /** waiter_el_t; a sleeper is identified by the address of its element. */
  datatype Element = Element(wakeTime: nat, next: Option<Node>, left: Option<Node>, right: Option<Node>)

  type Store = map<Node, Element>

  // ---------------------------------------------------------------- trees of sleepers, as values

  /** A node is the sleeper in the tree and, on its list, the others with the same wake time. */
  datatype Tree = Leaf | Branch(time: nat, head: Node, list: seq<Node>, left: Tree, right: Tree)

  ghost function Listed(list: seq<Node>): set<Node> {
    set n | n in list
  }

  ghost function Els(t: Tree): set<Node> {
    match t
    case Leaf => {}
    case Branch(_, head, list, left, right) => {head} + Listed(list) + Els(left) + Els(right)
  }

  /** A search tree in which each wake time occurs at one node only, all of them between the bounds. */
  ghost predicate Ordered(t: Tree, lo: Option<nat>, hi: Option<nat>) {
    match t
    case Leaf => true
    case Branch(time, _, _, left, right) =>
      && (lo.Some? ==> lo.value < time) && (hi.Some? ==> time < hi.value)
      && Ordered(left, lo, Some(time)) && Ordered(right, Some(time), hi)
  }

  /** A sleeper as the timer sees it. */
  datatype Wake = Wake(time: nat, node: Node)

  ghost function Group(t: Tree): seq<Wake>
    requires t.Branch?
  {
    [Wake(t.time, t.head)] + Wakes(t.time, t.list)
  }

  ghost function Wakes(time: nat, list: seq<Node>): (r: seq<Wake>)
    ensures |r| == |list|
  {
    if list == [] then [] else [Wake(time, list[0])] + Wakes(time, list[1..])
  }

  /** All sleepers, from the leftmost node to the rightmost. */
  ghost function InOrder(t: Tree): seq<Wake> {
    if t.Leaf? then [] else InOrder(t.left) + Group(t) + InOrder(t.right)
  }

  /** waiter_insert */
  ghost function Inserted(t: Tree, n: Node, time: nat): Tree {
    match t
    case Leaf => Branch(time, n, [], Leaf, Leaf)
    case Branch(time', _, list, left, right) =>
      if time < time' then t.(left := Inserted(left, n, time))
      else if time == time' then t.(list := [n] + list)
      else t.(right := Inserted(right, n, time))
  }

  ghost function Min(t: Tree): (m: Tree)
    requires t.Branch?
    ensures m.Branch? && m.left.Leaf?
  {
    if t.left.Leaf? then t else Min(t.left)
  }

  ghost function WithoutMin(t: Tree): Tree
    requires t.Branch?
  {
    if t.left.Leaf? then t.right else t.(left := WithoutMin(t.left))
  }

  // ---------------------------------------------------------------- trees in the store

  ghost predicate Chain(cells: Store, p: Option<Node>, list: seq<Node>, time: nat)
    decreases list
  {
    if list == [] then p == None
    else
      && p == Some(list[0]) && list[0] in cells && cells[list[0]].wakeTime == time && list[0] !in list[1..]
      && Chain(cells, cells[list[0]].next, list[1..], time)
  }

  /** p points to the tree t. */
  ghost predicate Rep(cells: Store, p: Option<Node>, t: Tree)
    decreases t
  {
    match t
    case Leaf => p == None
    case Branch(time, head, list, left, right) =>
      && p == Some(head) && head in cells && cells[head].wakeTime == time
      && head !in list && Chain(cells, cells[head].next, list, time)
      && {head} + Listed(list) !! Els(left) && {head} + Listed(list) !! Els(right) && Els(left) !! Els(right)
      && Rep(cells, cells[head].left, left) && Rep(cells, cells[head].right, right)
  }

  ghost predicate Agree(cells: Store, cells': Store, ns: set<Node>) {
    forall n :: n in ns && n in cells ==> n in cells' && cells'[n] == cells[n]
  }

  lemma {:induction false} ChainFrame(cells: Store, cells': Store, p: Option<Node>, list: seq<Node>, time: nat)
    requires Chain(cells, p, list, time) && Agree(cells, cells', Listed(list))
    ensures Chain(cells', p, list, time)
    decreases list
  {
    if list != [] {
      assert list[0] in Listed(list) && Listed(list[1..]) <= Listed(list);
      ChainFrame(cells, cells', cells[list[0]].next, list[1..], time);
    }
  }

  lemma {:induction false} RepFrame(cells: Store, cells': Store, p: Option<Node>, t: Tree)
    requires Rep(cells, p, t) && Agree(cells, cells', Els(t))
    ensures Rep(cells', p, t)
    decreases t
  {
    if t.Branch? {
      ChainFrame(cells, cells', cells[t.head].next, t.list, t.time);
      RepFrame(cells, cells', cells[t.head].left, t.left);
      RepFrame(cells, cells', cells[t.head].right, t.right);
    }
  }

  // ---------------------------------------------------------------- inserting

  /** sub is a subtree on the search path of a time. */
  ghost predicate OnPath(t: Tree, time: nat, sub: Tree) {
    || t == sub
    || (t.Branch? && time < t.time && OnPath(t.left, time, sub))
    || (t.Branch? && time > t.time && OnPath(t.right, time, sub))
  }

  lemma {:induction false} OnPathEls(t: Tree, time: nat, sub: Tree)
    requires OnPath(t, time, sub)
    ensures Els(sub) <= Els(t)
  {
    if t != sub {
      if time < t.time { OnPathEls(t.left, time, sub); } else { OnPathEls(t.right, time, sub); }
    }
  }

  lemma {:induction false} InsertedEls(t: Tree, n: Node, time: nat)
    ensures Els(Inserted(t, n, time)) == Els(t) + {n}
  {
    if t.Branch? {
      if time < t.time {
        InsertedEls(t.left, n, time);
      } else if time > t.time {
        InsertedEls(t.right, n, time);
      } else {
        assert Listed([n] + t.list) == {n} + Listed(t.list);
      }
    }
  }

  /** A change confined to a subtree on the search path inserts into the whole tree. */
  lemma {:induction false} Grafted(cells: Store, cells': Store, p: Option<Node>, t: Tree, n: Node, time: nat, sub: Tree)
    requires Rep(cells, p, t) && OnPath(t, time, sub) && sub.Branch? && n !in Els(t)
    requires Rep(cells', Some(sub.head), Inserted(sub, n, time)) && Agree(cells, cells', Els(t) - Els(sub))
    ensures Rep(cells', p, Inserted(t, n, time))
    decreases t
  {
    if t != sub {
      assert t.head !in Els(sub) && Listed(t.list) !! Els(sub) by {
        if time < t.time { OnPathEls(t.left, time, sub); } else { OnPathEls(t.right, time, sub); }
      }
      ChainFrame(cells, cells', cells[t.head].next, t.list, t.time);
      if time < t.time {
        OnPathEls(t.left, time, sub);
        InsertedEls(t.left, n, time);
        RepFrame(cells, cells', cells[t.head].right, t.right);
        Grafted(cells, cells', cells[t.head].left, t.left, n, time, sub);
      } else {
        OnPathEls(t.right, time, sub);
        InsertedEls(t.right, n, time);
        RepFrame(cells, cells', cells[t.head].left, t.left);
        Grafted(cells, cells', cells[t.head].right, t.right, n, time, sub);
      }
    }
  }

  ghost predicate Detached(cells: Store, sub: Tree, n: Node, time: nat) {
    n in cells && n !in Els(sub) && cells[n] == Element(time, None, None, None)
  }

  /** Linking a new leaf to the left of the last node of the search path. */
  lemma LinkedLeft(cells: Store, sub: Tree, n: Node, time: nat)
    requires sub.Branch? && Rep(cells, Some(sub.head), sub) && Detached(cells, sub, n, time)
    requires time < sub.time && sub.left.Leaf?
    ensures Rep(cells[sub.head := cells[sub.head].(left := Some(n))], Some(sub.head), Inserted(sub, n, time))
  {
    var cells' := cells[sub.head := cells[sub.head].(left := Some(n))];
    ChainFrame(cells, cells', cells[sub.head].next, sub.list, sub.time);
    RepFrame(cells, cells', cells[sub.head].right, sub.right);
  }

  lemma LinkedRight(cells: Store, sub: Tree, n: Node, time: nat)
    requires sub.Branch? && Rep(cells, Some(sub.head), sub) && Detached(cells, sub, n, time)
    requires time > sub.time && sub.right.Leaf?
    ensures Rep(cells[sub.head := cells[sub.head].(right := Some(n))], Some(sub.head), Inserted(sub, n, time))
  {
    var cells' := cells[sub.head := cells[sub.head].(right := Some(n))];
    ChainFrame(cells, cells', cells[sub.head].next, sub.list, sub.time);
    RepFrame(cells, cells', cells[sub.head].left, sub.left);
  }

  /** Putting a sleeper at the front of the list of its wake time. */
  lemma LinkedEqual(cells: Store, cells': Store, sub: Tree, n: Node, time: nat)
    requires sub.Branch? && Rep(cells, Some(sub.head), sub) && Detached(cells, sub, n, time) && time == sub.time
    requires cells' ==
      cells[n := cells[n].(next := cells[sub.head].next)][sub.head := cells[sub.head].(next := Some(n))]
    ensures Rep(cells', Some(sub.head), Inserted(sub, n, time))
  {
    ChainFrame(cells, cells', cells[sub.head].next, sub.list, sub.time);
    assert ([n] + sub.list)[1..] == sub.list && Listed([n] + sub.list) == {n} + Listed(sub.list);
    RepFrame(cells, cells', cells[sub.head].left, sub.left);
    RepFrame(cells, cells', cells[sub.head].right, sub.right);
  }

  lemma {:induction false} InsertedOrdered(t: Tree, n: Node, time: nat, lo: Option<nat>, hi: Option<nat>)
    requires Ordered(t, lo, hi) && (lo.Some? ==> lo.value < time) && (hi.Some? ==> time < hi.value)
    ensures Ordered(Inserted(t, n, time), lo, hi)
  {
    if t.Branch? {
      if time < t.time {
        InsertedOrdered(t.left, n, time, lo, Some(t.time));
      } else if time > t.time {
        InsertedOrdered(t.right, n, time, Some(t.time), hi);
      }
    }
  }

  /** Inserting adds that sleeper and no other. */
  lemma {:induction false} InsertedContents(t: Tree, n: Node, time: nat)
    ensures multiset(InOrder(Inserted(t, n, time))) == multiset(InOrder(t)) + multiset{Wake(time, n)}
  {
    if t.Branch? {
      if time < t.time {
        InsertedContents(t.left, n, time);
      } else if time > t.time {
        InsertedContents(t.right, n, time);
      } else {
        assert ([n] + t.list)[1..] == t.list;
      }
    }
  }

  // ---------------------------------------------------------------- removing

  /** sub is a subtree on the left spine. */
  ghost predicate OnSpine(t: Tree, sub: Tree) {
    t == sub || (t.Branch? && OnSpine(t.left, sub))
  }

  lemma {:induction false} SpineFacts(t: Tree, sub: Tree)
    requires OnSpine(t, sub) && sub.Branch?
    ensures t.Branch? && Els(sub) <= Els(t) && Min(t) == Min(sub)
  {
    if t != sub {
      SpineFacts(t.left, sub);
    }
  }

  lemma {:induction false} WithoutMinEls(t: Tree)
    requires t.Branch?
    ensures Els(WithoutMin(t)) <= Els(t)
  {
    if t.left.Branch? {
      WithoutMinEls(t.left);
    }
  }

  /** A change confined to a subtree on the left spine removes the minimum from the whole tree. */
  lemma {:induction false} Pruned(cells: Store, cells': Store, p: Option<Node>, t: Tree, sub: Tree)
    requires Rep(cells, p, t) && OnSpine(t, sub) && sub.Branch? && t.Branch? && sub.left.Branch?
    requires Rep(cells', Some(sub.head), WithoutMin(sub)) && Agree(cells, cells', Els(t) - Els(sub))
    ensures Rep(cells', p, WithoutMin(t))
    decreases t
  {
    if t != sub {
      SpineFacts(t.left, sub);
      WithoutMinEls(t.left);
      ChainFrame(cells, cells', cells[t.head].next, t.list, t.time);
      RepFrame(cells, cells', cells[t.head].right, t.right);
      Pruned(cells, cells', cells[t.head].left, t.left, sub);
    }
  }

  /** Unlinking the minimum below its parent. */
  lemma UnlinkedBelow(cells: Store, sub: Tree)
    requires sub.Branch? && sub.left.Branch? && sub.left.left.Leaf? && Rep(cells, Some(sub.head), sub)
    requires sub.left.head in cells
    ensures var cells' := cells[sub.head := cells[sub.head].(left := cells[sub.left.head].right)];
      Rep(cells', Some(sub.head), WithoutMin(sub))
  {
    var cells' := cells[sub.head := cells[sub.head].(left := cells[sub.left.head].right)];
    ChainFrame(cells, cells', cells[sub.head].next, sub.list, sub.time);
    RepFrame(cells, cells', cells[sub.head].right, sub.right);
    RepFrame(cells, cells', cells[sub.left.head].right, sub.left.right);
  }

  lemma {:induction false} WithoutMinOrdered(t: Tree, lo: Option<nat>, hi: Option<nat>)
    requires t.Branch? && Ordered(t, lo, hi)
    ensures Ordered(WithoutMin(t), lo, hi)
  {
    if t.left.Branch? {
      WithoutMinOrdered(t.left, lo, Some(t.time));
    } else {
      Widen(t.right, Some(t.time), lo, hi);
    }
  }

  lemma {:induction false} Widen(t: Tree, lo: Option<nat>, lo': Option<nat>, hi: Option<nat>)
    requires Ordered(t, lo, hi) && (lo'.Some? ==> lo.Some? && lo'.value <= lo.value)
    ensures Ordered(t, lo', hi)
    decreases t
  {
    if t.Branch? {
      Widen(t.left, lo, lo', Some(t.time));
    }
  }

  lemma Regroup(a: seq<Wake>, b: seq<Wake>, c: seq<Wake>, d: seq<Wake>)
    ensures a + b + c + d == a + (b + c + d)
  {
  }

  /** The minimum's group comes first. */
  lemma {:induction false} MinFirst(t: Tree)
    requires t.Branch?
    ensures InOrder(t) == Group(Min(t)) + InOrder(WithoutMin(t))
  {
    if t.left.Branch? {
      MinFirst(t.left);
      Regroup(Group(Min(t)), InOrder(WithoutMin(t.left)), Group(t), InOrder(t.right));
    }
  }

  // ---------------------------------------------------------------- the order of waking

  ghost predicate Between(s: seq<Wake>, lo: Option<nat>, hi: Option<nat>) {
    forall w :: w in s ==> (lo.Some? ==> lo.value < w.time) && (hi.Some? ==> w.time < hi.value)
  }

  ghost predicate NonDecreasing(s: seq<Wake>) {
    forall i, j :: 0 <= i < j < |s| ==> s[i].time <= s[j].time
  }

  lemma {:induction false} WakesTime(time: nat, list: seq<Node>)
    ensures forall i :: 0 <= i < |list| ==> Wakes(time, list)[i] == Wake(time, list[i])
  {
    if list != [] {
      WakesTime(time, list[1..]);
    }
  }

  /** In a search tree the in-order sequence is sorted by wake time. */
  lemma {:induction false} InOrderSorted(t: Tree, lo: Option<nat>, hi: Option<nat>)
    requires Ordered(t, lo, hi)
    ensures Between(InOrder(t), lo, hi) && NonDecreasing(InOrder(t))
    decreases t
  {
    if t.Branch? {
      InOrderSorted(t.left, lo, Some(t.time));
      InOrderSorted(t.right, Some(t.time), hi);
      WakesTime(t.time, t.list);
      var l, g, r := InOrder(t.left), Group(t), InOrder(t.right);
      assert forall w :: w in g ==> w.time == t.time;
      Sandwich(l, g, r, t.time);
    }
  }

  lemma Sandwich(l: seq<Wake>, g: seq<Wake>, r: seq<Wake>, time: nat)
    requires NonDecreasing(l) && NonDecreasing(r)
    requires forall w :: w in l ==> w.time < time
    requires forall w :: w in g ==> w.time == time
    requires forall w :: w in r ==> time < w.time
    ensures NonDecreasing(l + g + r)
  {
    var s := l + g + r;
    forall i, j | 0 <= i < j < |s| ensures s[i].time <= s[j].time {
      assert s[i] == if i < |l| then l[i] else if i < |l| + |g| then g[i - |l|] else r[i - |l| - |g|];
      assert s[j] == if j < |l| then l[j] else if j < |l| + |g| then g[j - |l|] else r[j - |l| - |g|];
    }
  }

  /** What waking must do: `woken` is everyone due before `now`, in order of wake time, and `rest` is everyone else. */
  ghost predicate WakesExactly(t: Tree, now: nat, woken: seq<Wake>, rest: Tree) {
    && InOrder(t) == woken + InOrder(rest)
    && (forall w :: w in woken ==> w.time < now) && (forall w :: w in InOrder(rest) ==> w.time >= now)
    && NonDecreasing(woken)
  }

  /** A tree whose leftmost time is not due has nobody due. */
  lemma NobodyDue(t: Tree, now: nat)
    requires Ordered(t, None, None) && (t.Branch? ==> Min(t).time >= now)
    ensures forall w :: w in InOrder(t) ==> w.time >= now
  {
    if t.Branch? {
      MinFirst(t);
      InOrderSorted(t, None, None);
      assert InOrder(t)[0] == Wake(Min(t).time, Min(t).head);
    }
  }

  lemma PrefixSorted(all: seq<Wake>, woken: seq<Wake>)
    requires NonDecreasing(all) && woken <= all
    ensures NonDecreasing(woken)
  {
    assert forall i :: 0 <= i < |woken| ==> woken[i] == all[i];
  }

  /** One more round: the leftmost group extends what has been woken. */
  lemma MinGroupDue(all: seq<Wake>, woken: seq<Wake>, t: Tree, now: nat)
    requires t.Branch? && Min(t).time < now && all == woken + InOrder(t)
    ensures all == woken + Group(Min(t)) + InOrder(WithoutMin(t)) && |InOrder(WithoutMin(t))| < |InOrder(t)|
    ensures forall w :: w in Group(Min(t)) ==> w.time < now
  {
    var m := Min(t);
    MinFirst(t);
    WakesTime(m.time, m.list);
    assert woken + (Group(m) + InOrder(WithoutMin(t))) == woken + Group(m) + InOrder(WithoutMin(t));
  }

  // ---------------------------------------------------------------- the timer

  class Timer {
    var cells: Store
    var root: Option<Node>         // sleepers
    var count: nat                 // timer_trigger_count
    ghost var tree: Tree

    ghost predicate Valid()
      reads this
    {
      Rep(cells, root, tree) && Ordered(tree, None, None)
    }

    constructor ()
      ensures Valid() && tree == Leaf && count == 0
    {
      cells, root, count, tree := map[], None, 0, Leaf;
    }

    /** waiter_insert of a zeroed element: a new sleeper joins the tree or the list of its wake time. */
    method Insert(n: Node, wakeTime: nat)
      requires Valid() && n !in Els(tree)
      modifies this
      ensures Valid() && tree == Inserted(old(tree), n, wakeTime) && count == old(count)
    {
      ghost var before := cells;
      cells := cells[n := Element(wakeTime, None, None, None)];
      RepFrame(before, cells, root, tree);
      InsertedOrdered(tree, n, wakeTime, None, None);
      if root == None {
        root := Some(n);
        tree := Inserted(tree, n, wakeTime);
        return;
      }
      Descend(n, wakeTime);
    }

    /** The loop of waiter_insert, on a tree that is not empty. */
    method Descend(n: Node, wakeTime: nat)
      requires Rep(cells, root, tree) && tree.Branch? && n !in Els(tree)
      requires n in cells && cells[n] == Element(wakeTime, None, None, None)
      modifies this`cells, this`tree
      ensures Rep(cells, root, tree) && tree == Inserted(old(tree), n, wakeTime)
    {
      ghost var start, sub := cells, tree;
      var cur := root.value;
      while true
        invariant cells == start && tree == old(tree)
        invariant OnPath(tree, wakeTime, sub) && sub.Branch? && Rep(cells, Some(cur), sub) && Els(sub) <= Els(tree)
        decreases sub
      {
        if wakeTime < cells[cur].wakeTime {
          if cells[cur].left == None {
            LinkedLeft(cells, sub, n, wakeTime);
            cells := cells[cur := cells[cur].(left := Some(n))];
            break;
          }
          StepLeft(tree, wakeTime, sub);
          cur, sub := cells[cur].left.value, sub.left;
        } else if wakeTime == cells[cur].wakeTime {
          cells := cells[n := cells[n].(next := cells[cur].next)];
          cells := cells[cur := cells[cur].(next := Some(n))];
          LinkedEqual(start, cells, sub, n, wakeTime);
          break;
        } else {
          if cells[cur].right == None {
            LinkedRight(cells, sub, n, wakeTime);
            cells := cells[cur := cells[cur].(right := Some(n))];
            break;
          }
          StepRight(tree, wakeTime, sub);
          cur, sub := cells[cur].right.value, sub.right;
        }
      }
      Grafted(start, cells, root, tree, n, wakeTime, sub);
      tree := Inserted(tree, n, wakeTime);
    }

    /** waiter_remove_less_than: unlinks the leftmost node if its time has passed. */
    method RemoveLessThan(wakeTime: nat) returns (r: Option<Node>)
      requires Valid()
      modifies this`cells, this`root, this`tree
      ensures Valid()
      ensures var t := old(tree);
        if t.Branch? && Min(t).time < wakeTime then
          && tree == WithoutMin(t) && r == Some(Min(t).head) && Min(t).head in cells
          && cells[Min(t).head].wakeTime == Min(t).time
          && Chain(cells, cells[Min(t).head].next, Min(t).list, Min(t).time)
        else tree == t && r == None
    {
      if root == None {
        return None;
      }
      var cur, parent: Option<Node> := root.value, None;
      ghost var sub, above := tree, Leaf;
      while cells[cur].left.Some?
        invariant cells == old(cells) && root == old(root) && tree == old(tree)
        invariant OnSpine(tree, sub) && sub.Branch? && Rep(cells, Some(cur), sub) && Min(tree) == Min(sub)
        invariant parent == None ==> sub == tree
        invariant parent.Some? ==>
          && above.Branch? && above.left == sub && OnSpine(tree, above)
          && Rep(cells, Some(above.head), above) && parent.value == above.head
        decreases sub
      {
        SpineStep(tree, sub);
        SpineFacts(tree, sub);
        parent, above := Some(cur), sub;
        cur, sub := cells[cur].left.value, sub.left;
      }
      if wakeTime > cells[cur].wakeTime {
        r := Some(cur);
        ghost var before := cells;
        WithoutMinOrdered(tree, None, None);
        if parent == None {
          root := cells[cur].right;
        } else {
          SpineFacts(tree, above);
          UnlinkedBelow(cells, above);
          cells := cells[parent.value := cells[parent.value].(left := cells[cur].right)];
          Pruned(before, cells, root, tree, above);
          ChainFrame(before, cells, before[cur].next, sub.list, sub.time);
        }
        tree := WithoutMin(tree);
      } else {
        r := None;
      }
    }

    /** The inner loop of fiber_event_wake_sleepers: schedules a node's sleeper and everyone on its list. */
    method WakeGroup(first: Node, ghost time: nat, ghost list: seq<Node>) returns (woken: seq<Wake>)
      requires first in cells && cells[first].wakeTime == time && Chain(cells, cells[first].next, list, time)
      ensures woken == [Wake(time, first)] + Wakes(time, list)
    {
      woken := [Wake(cells[first].wakeTime, first)];
      var cur := cells[first].next;
      ghost var rest := list;
      while cur.Some?
        invariant Chain(cells, cur, rest, time)
        invariant woken + Wakes(time, rest) == [Wake(time, first)] + Wakes(time, list)
        decreases rest
      {
        assert woken + Wakes(time, rest) == woken + [Wake(time, rest[0])] + Wakes(time, rest[1..]);
        woken := woken + [Wake(cells[cur.value].wakeTime, cur.value)];
        cur, rest := cells[cur.value].next, rest[1..];
      }
    }

    /** fiber_event_wake_sleepers: the count advances and exactly the sleepers now due are woken, each once and in
        order of wake time. */
    method Tick(triggers: nat) returns (woken: seq<Wake>)
      requires Valid()
      modifies this
      ensures Valid() && count == old(count) + triggers
      ensures WakesExactly(old(tree), count, woken, tree)
    {
      count := count + triggers;
      woken := [];
      while true
        invariant Valid() && count == old(count) + triggers
        invariant InOrder(old(tree)) == woken + InOrder(tree)
        invariant forall w :: w in woken ==> w.time < count
        decreases |InOrder(tree)|
      {
        ghost var t := tree;
        var toWake := RemoveLessThan(count);
        if toWake == None {
          break;
        }
        MinGroupDue(InOrder(old(tree)), woken, t, count);
        var group := WakeGroup(toWake.value, Min(t).time, Min(t).list);
        woken := woken + group;
      }
      NobodyDue(tree, count);
      InOrderSorted(old(tree), None, None);
      PrefixSorted(InOrder(old(tree)), woken);
    }
  }

  lemma {:induction false} SpineStep(t: Tree, sub: Tree)
    requires OnSpine(t, sub) && sub.Branch?
    ensures OnSpine(t, sub.left)
  {
    if t != sub {
      SpineStep(t.left, sub);
    }
  }

  lemma {:induction false} StepLeft(t: Tree, time: nat, sub: Tree)
    requires OnPath(t, time, sub) && sub.Branch? && time < sub.time
    ensures OnPath(t, time, sub.left)
  {
    if t != sub {
      if time < t.time { StepLeft(t.left, time, sub); } else { StepLeft(t.right, time, sub); }
    }
  }

  lemma {:induction false} StepRight(t: Tree, time: nat, sub: Tree)
    requires OnPath(t, time, sub) && sub.Branch? && time > sub.time
    ensures OnPath(t, time, sub.right)
  {
    if t != sub {
      if time < t.time { StepRight(t.left, time, sub); } else { StepRight(t.right, time, sub); }
    }
  }

  // ---------------------------------------------------------------- whole histories

  /** What a timer does over time, through the contracts of `Insert` and `Tick`. */
  datatype History = History(tree: Tree, count: nat, slept: multiset<Wake>, woken: seq<Wake>)

  ghost predicate Fresh(h: History) {
    h == History(Leaf, 0, multiset{}, [])
  }

  ghost predicate SleepStep(h: History, h': History, n: Node, time: nat) {
    n !in Els(h.tree) && h' == h.(tree := Inserted(h.tree, n, time), slept := h.slept + multiset{Wake(time, n)})
  }

  ghost predicate TickStep(h: History, h': History, triggers: nat, out: seq<Wake>) {
    && h'.count == h.count + triggers && h'.slept == h.slept && h'.woken == h.woken + out
    && Ordered(h'.tree, None, None) && WakesExactly(h.tree, h'.count, out, h'.tree)
  }

  ghost predicate Event(h: History, h': History) {
    || (exists n, time :: SleepStep(h, h', n, time))
    || (exists triggers, out :: TickStep(h, h', triggers, out))
  }

  ghost predicate HistoryInv(h: History) {
    && Ordered(h.tree, None, None) && h.slept == multiset(h.woken) + multiset(InOrder(h.tree))
    && forall w :: w in h.woken ==> w.time < h.count
  }

  lemma FreshInv(h: History)
    requires Fresh(h)
    ensures HistoryInv(h)
  {
  }

  lemma SleepKeeps(h: History, h': History, n: Node, time: nat)
    requires HistoryInv(h) && SleepStep(h, h', n, time)
    ensures HistoryInv(h')
  {
    InsertedOrdered(h.tree, n, time, None, None);
    InsertedContents(h.tree, n, time);
  }

  lemma TickBalance(slept: multiset<Wake>, woken: seq<Wake>, before: seq<Wake>, out: seq<Wake>, rest: seq<Wake>)
    requires slept == multiset(woken) + multiset(before) && before == out + rest
    ensures slept == multiset(woken + out) + multiset(rest)
  {
  }

  lemma TickKeeps(h: History, h': History, triggers: nat, out: seq<Wake>)
    requires HistoryInv(h) && TickStep(h, h', triggers, out)
    ensures HistoryInv(h')
  {
    TickBalance(h.slept, h.woken, InOrder(h.tree), out, InOrder(h'.tree));
  }

  lemma EventKeeps(h: History, h': History)
    requires HistoryInv(h) && Event(h, h')
    ensures HistoryInv(h')
  {
    if n, time :| SleepStep(h, h', n, time) {
      SleepKeeps(h, h', n, time);
    } else {
      var triggers, out :| TickStep(h, h', triggers, out);
      TickKeeps(h, h', triggers, out);
    }
  }

  /** Over any sequence of inserts and ticks the tree stays ordered, every sleeper has been woken once or is still in
      the tree, never both and never neither, and nobody is woken before its time. */
  lemma EverySleeperWokenOnce(run: seq<History>, i: nat)
    requires IsRun(Fresh, Event, run) && i < |run|
    ensures var h := run[i];
      && Ordered(h.tree, None, None) && h.slept == multiset(h.woken) + multiset(InOrder(h.tree))
      && forall w :: w in h.woken ==> w.time < h.count
  {
    forall h | Fresh(h) ensures HistoryInv(h) { FreshInv(h); }
    forall h, h' | HistoryInv(h) && Event(h, h') ensures HistoryInv(h') { EventKeeps(h, h'); }
    Invariance(Fresh, Event, HistoryInv, run, i);
  }
}
