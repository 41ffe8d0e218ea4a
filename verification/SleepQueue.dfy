/** task_sleep and task_wakeup (src/kernel/task.c) over the sorted list of sleepers, with
    deadlines kept in a signed int and compared with an unsigned clock. */
module SleepQueue {
  import opened LinkedList

  const TWO_31: int := 0x8000_0000
  const TWO_32: int := 0x1_0000_0000

  type u32 = x: int | 0 <= x < TWO_32

  /** A u32 stored in an int, and back. */
  function Signed(x: u32): int {
    if x < TWO_31 then x else x - TWO_32
  }

  function Unsigned(x: int): u32
    requires -TWO_31 <= x < TWO_31
  {
    if x < 0 then x + TWO_32 else x
  }

  lemma SignedUnsigned(x: u32)
    ensures -TWO_31 <= Signed(x) < TWO_31 && Unsigned(Signed(x)) == x
  {
  }

  /** The jiffies that a sleep of ms milliseconds takes: one at least. */
  function Ticks(ms: nat, jiffy: nat): (t: nat)
    requires jiffy > 0
    ensures t > 0
  {
    if ms / jiffy > 0 then ms / jiffy else 1
  }

  /** As many whole jiffies as fit into the time, and one for a time shorter than a jiffy. */
  lemma TicksFit(ms: nat, jiffy: nat)
    requires jiffy > 0
    ensures ms >= jiffy ==> Ticks(ms, jiffy) * jiffy <= ms < (Ticks(ms, jiffy) + 1) * jiffy
    ensures ms < jiffy ==> Ticks(ms, jiffy) == 1
  {
    assert ms == ms / jiffy * jiffy + ms % jiffy;
  }

  function Deadline(now: u32, ticks: nat): u32 {
    (now + ticks) % TWO_32
  }

  // ----- The list by values -------------------------------------------------

  predicate Ints(ks: seq<int>) {
    forall i :: 0 <= i < |ks| ==> -TWO_31 <= ks[i] < TWO_31
  }

  /** The sleepers that task_wakeup wakes: those at the front whose deadline is not later
      than now. */
  function Due(ks: seq<int>, now: u32): (n: nat)
    requires Ints(ks)
    ensures n <= |ks|
  {
    if ks == [] || Unsigned(ks[0]) > now then 0 else 1 + Due(ks[1..], now)
  }

  lemma {:induction false} DueIsPrefix(ks: seq<int>, now: u32)
    requires Ints(ks)
    ensures forall i :: 0 <= i < Due(ks, now) ==> Unsigned(ks[i]) <= now
    ensures Due(ks, now) < |ks| ==> Unsigned(ks[Due(ks, now)]) > now
  {
    if ks == [] || Unsigned(ks[0]) > now {
    } else {
      DueIsPrefix(ks[1..], now);
      forall i | 0 < i < Due(ks, now)
        ensures Unsigned(ks[i]) <= now
      {
        assert ks[i] == ks[1..][i - 1];
      }
    }
  }

  /** Exactly the sleepers whose deadline has passed are woken. */
  ghost predicate WakesExactly(ks: seq<int>, now: u32)
    requires Ints(ks)
  {
    forall i :: 0 <= i < |ks| ==> (i < Due(ks, now) <==> Unsigned(ks[i]) <= now)
  }

  /** All deadlines lie on one side of 2^31 jiffies. */
  ghost predicate OneSide(ks: seq<int>) {
    (forall i :: 0 <= i < |ks| ==> ks[i] >= 0) || (forall i :: 0 <= i < |ks| ==> ks[i] < 0)
  }

  /** Over a sorted list task_wakeup is right at every time exactly when no two deadlines
      lie on different sides of 2^31: the list is sorted as signed numbers, the clock
      compares unsigned ones. */
  lemma WakeupIsRightIff(ks: seq<int>)
    requires Ints(ks) && Sorted(ks)
    ensures (forall now: u32 :: WakesExactly(ks, now)) <==> OneSide(ks)
  {
    SortedIs(ks);
    if OneSide(ks) {
      forall now: u32
        ensures WakesExactly(ks, now)
      {
        DueIsPrefix(ks, now);
      }
    } else {
      var i :| 0 <= i < |ks| && ks[i] < 0;
      var j :| 0 <= j < |ks| && ks[j] >= 0;
      var now: u32 := ks[j];
      DueIsPrefix(ks, now);
      assert i < j && Unsigned(ks[i]) > now;
      assert !WakesExactly(ks, now);
    }
  }

  /** Two sleeps just before 2^31 jiffies: the first for one jiffy, the second for ten. The
      second deadline is negative as an int and goes in front; one jiffy later the first
      sleeper is due, and task_wakeup stops before it. */
  lemma LateSleeperIsMissed()
    ensures var now: u32 := TWO_31 - 2;
            var first, second := Signed(Deadline(now, 1)), Signed(Deadline(now, 10));
            var ks := Inserted([first], Place([first], second), second);
            && ks == [second, first] && Sorted(ks) && Ints(ks)
            && Unsigned(first) <= now + 1 && Due(ks, now + 1) == 0 && !WakesExactly(ks, now + 1)
  {
    var now: u32 := TWO_31 - 2;
    var first, second := Signed(Deadline(now, 1)), Signed(Deadline(now, 10));
    assert first == TWO_31 - 1 && second < 0 && Unsigned(second) == TWO_31 + 8;
    assert Place([first], second) == 0;
    assert Inserted([first], 0, second) == [second, first];
    assert !(1 < Due([second, first], now + 1)) && Unsigned([second, first][1]) <= now + 1;
  }

  lemma {:induction false} KeysInserted(nodes: seq<Node>, i: nat, x: Node)
    requires i <= |nodes|
    ensures Keys(Inserted(nodes, i, x)) == Inserted(Keys(nodes), i, x.key)
  {
    var a, b := Keys(Inserted(nodes, i, x)), Inserted(Keys(nodes), i, x.key);
    forall j | 0 <= j < |a|
      ensures a[j] == b[j]
    {
    }
  }

  lemma IntsInserted(ks: seq<int>, i: nat, k: int)
    requires Ints(ks) && i <= |ks| && -TWO_31 <= k < TWO_31
    ensures Ints(Inserted(ks, i, k))
  {
  }

  /** What list_insert_sort makes of the deadlines. */
  function EnqueuedKey(ks: seq<int>, k: int): seq<int> {
    Inserted(ks, Place(ks, k), k)
  }

  // ----- The list in memory -------------------------------------------------

  class Sleepers {
    const list: List
    var jiffies: u32
    const jiffy: nat

    ghost predicate Valid()
      reads this, list, list.chain
    {
      list.Valid() && jiffy > 0 && Sorted(Keys(list.Nodes())) && Ints(Keys(list.Nodes()))
    }

    constructor (jiffy: nat)
      requires jiffy > 0
      ensures Valid() && list.Nodes() == [] && fresh(list) && jiffies == 0 && this.jiffy == jiffy
    {
      list := new List();
      jiffies := 0;
      this.jiffy := jiffy;
    }

    /** The deadline of a sleep of ms milliseconds that begins now. */
    method SetTicks(current: Node, ms: u32)
      requires Valid() && current !in list.chain
      modifies current`key
      ensures Valid() && current.key == Signed(Deadline(jiffies, Ticks(ms, jiffy)))
      ensures list.Nodes() == old(list.Nodes()) && Keys(list.Nodes()) == old(Keys(list.Nodes()))
    {
      var ticks := ms / jiffy;
      if ticks == 0 {
        ticks := 1;
      }
      assert ticks == Ticks(ms, jiffy);
      current.key := Signed(Deadline(jiffies, ticks));
    }

    /** task_sleep, up to its schedule(). */
    method Sleep(current: Node, ms: u32)
      requires Valid() && current !in list.chain && current.prev == null && current.next == null
      modifies list`chain, list.chain`prev, list.chain`next, current
      ensures Valid() && current.key == Signed(Deadline(jiffies, Ticks(ms, jiffy)))
      ensures list.Nodes() == Inserted(old(list.Nodes()), Place(old(Keys(list.Nodes())), current.key), current)
      ensures Keys(list.Nodes()) == EnqueuedKey(old(Keys(list.Nodes())), current.key)
    {
      SetTicks(current, ms);
      SignedUnsigned(Deadline(jiffies, Ticks(ms, jiffy)));
      Enqueue(current);
    }

    /** list_insert_sort of a task whose deadline is set. */
    method Enqueue(current: Node)
      requires Valid() && current !in list.chain && current.prev == null && current.next == null
      requires -TWO_31 <= current.key < TWO_31
      modifies list`chain, list.chain`prev, list.chain`next, current`prev, current`next
      ensures Valid()
      ensures list.Nodes() == Inserted(old(list.Nodes()), Place(old(Keys(list.Nodes())), current.key), current)
      ensures Keys(list.Nodes()) == EnqueuedKey(old(Keys(list.Nodes())), current.key)
    {
      ghost var ks, nodes := Keys(list.Nodes()), list.Nodes();
      PlaceSorts(ks, current.key);
      IntsInserted(ks, Place(ks, current.key), current.key);
      list.InsertSort(current);
      KeysInserted(nodes, Place(ks, current.key), current);
    }

    /** task_wakeup: takes the sleepers that are due off the front. */
    method Wakeup() returns (woken: seq<Node>)
      requires Valid()
      modifies list`chain, list.chain
      ensures Valid() && Detached(woken)
      ensures woken == old(list.Nodes()[..Due(Keys(list.Nodes()), jiffies)])
      ensures list.Nodes() == old(list.Nodes()[Due(Keys(list.Nodes()), jiffies)..])
      ensures Keys(list.Nodes()) == old(Keys(list.Nodes())[Due(Keys(list.Nodes()), jiffies)..])
    {
      ghost var nodes, ks := list.Nodes(), Keys(list.Nodes());
      ghost var rest, left;
      woken, rest, left := WakeLoop(jiffies);
      ProgressDone(nodes, ks, woken, rest, left, jiffies);
      SuffixSorted(ks, Due(ks, jiffies));
    }

    /** jiffies++ */
    method Advance(ghost woken: seq<Node>)
      requires Valid() && Detached(woken)
      modifies this`jiffies
      ensures Valid() && jiffies == (old(jiffies) + 1) % TWO_32 && Detached(woken)
      ensures list.Nodes() == old(list.Nodes()) && Keys(list.Nodes()) == old(Keys(list.Nodes()))
    {
      jiffies := (jiffies + 1) % TWO_32;
    }

    /** clock_handler: task_wakeup, and then jiffies++. */
    method Interrupt() returns (woken: seq<Node>)
      requires Valid()
      modifies this`jiffies, list`chain, list.chain
      ensures Valid() && Detached(woken) && jiffies == (old(jiffies) + 1) % TWO_32
      ensures woken == old(list.Nodes()[..Due(Keys(list.Nodes()), jiffies)])
      ensures list.Nodes() == old(list.Nodes()[Due(Keys(list.Nodes()), jiffies)..])
      ensures Keys(list.Nodes()) == old(Keys(list.Nodes())[Due(Keys(list.Nodes()), jiffies)..])
    {
      woken := Wakeup();
      Advance(woken);
    }

    /** Its loop. */
    method WakeLoop(now: u32) returns (woken: seq<Node>, ghost rest: seq<Node>, ghost left: seq<int>)
      requires list.Valid() && Ints(Keys(list.Nodes()))
      modifies list`chain, set n | n in list.chain
      ensures list.Valid() && Detached(woken) && rest == list.Nodes() && left == Keys(list.Nodes())
      ensures Progress(old(list.Nodes()), old(Keys(list.Nodes())), woken, rest, left, now)
      ensures rest == [] || Unsigned(left[0]) > now
    {
      ghost var all := (set n | n in list.chain);
      ghost var nodes, ks := list.Nodes(), Keys(list.Nodes());
      rest, left := nodes, ks;
      woken := [];
      var ptr: Node := First();
      while ptr != list.tail
        invariant list.Valid() && ptr == list.chain[1] && Within(list.chain, all)
        invariant rest == list.Nodes() && left == Keys(list.Nodes())
        invariant Progress(nodes, ks, woken, rest, left, now)
        invariant Detached(woken) && Apart(woken, list.chain)
        decreases |list.chain|
      {
        FirstSleeper(ptr);
        if Unsigned(ptr.key) > now {
          return;
        }
        ProgressStep(nodes, ks, woken, rest, left, now, ptr);
        ghost var gone := woken;
        woken, rest, left := woken + [ptr], rest[1..], left[1..];
        ptr := TakeNext(ptr, gone, all);
      }
      NoSleeper(ptr);
    }

    lemma NoSleeper(ptr: Node)
      requires list.Valid() && ptr == list.chain[1] == list.tail
      ensures list.Nodes() == []
    {
    }

    lemma FirstSleeper(ptr: Node)
      requires list.Valid() && ptr == list.chain[1] != list.tail
      ensures |list.chain| > 2 && list.Nodes() != [] && Keys(list.Nodes()) != []
      ensures ptr == list.Nodes()[0] && ptr.key == Keys(list.Nodes())[0]
    {
    }

    method First() returns (ptr: Node)
      requires list.Valid()
      ensures ptr == list.chain[1]
    {
      assert list.head.next == list.chain[0 + 1];
      ptr := list.head.next;
    }

    /** list_remove of the first sleeper. */
    method TakeFirst(node: Node)
      requires list.Valid() && |list.chain| > 2 && list.chain[1] == node
      modifies list`chain, list.chain`prev, list.chain`next
      ensures list.Valid() && list.chain == Without(old(list.chain), 1) && list.Nodes() == old(list.Nodes())[1..]
      ensures node !in list.chain && node.prev == null && node.next == null
    {
      ghost var was := list.chain;
      list.Remove(node, 1);
      InnerWithout(was);
    }

    /** One sleeper is unblocked, and the one after it returned. */
    method TakeNext(node: Node, ghost gone: seq<Node>, ghost all: set<Node>) returns (next: Node)
      requires list.Valid() && |list.chain| > 2 && list.chain[1] == node && Within(list.chain, all)
      requires Detached(gone) && Apart(gone, list.chain)
      modifies list`chain, all
      ensures list.Valid() && list.Nodes() == old(list.Nodes())[1..] && |list.chain| < old(|list.chain|)
      ensures next == list.chain[1] && Within(list.chain, all)
      ensures Keys(list.Nodes()) == old(Keys(list.Nodes()))[1..]
      ensures Detached(gone + [node]) && Apart(gone + [node], list.chain)
    {
      ghost var rest := list.Nodes()[1..];
      KeysTail(list.Nodes());
      ghost var left := Keys(rest);
      assert node.next == list.chain[1 + 1];
      next := node.next;
      TakeFirst(node);
      assert node !in rest && Keys(rest) == left;
      node.key := 0;
      assert Keys(rest) == left;
    }
  }

  lemma KeysTail(nodes: seq<Node>)
    requires nodes != []
    ensures Keys(nodes[1..]) == Keys(nodes)[1..]
  {
  }

  lemma InnerWithout<T>(s: seq<T>)
    requires |s| > 2
    ensures Without(s, 1)[1..|s| - 2] == s[1..|s| - 1][1..]
  {
  }

  ghost predicate Within(chain: seq<Node>, all: set<Node>) {
    forall n :: n in chain ==> n in all
  }

  ghost predicate Apart(gone: seq<Node>, chain: seq<Node>) {
    forall n :: n in gone ==> n !in chain
  }

  /** What task_unblock leaves of the list fields of a task. */
  ghost predicate Detached(nodes: seq<Node>)
    reads nodes
  {
    forall n :: n in nodes ==> n.prev == null && n.next == null && n.key == 0
  }

  /** Of the sleepers and their deadlines, some were woken and rest are left. */
  ghost predicate Progress(nodes: seq<Node>, ks: seq<int>, woken: seq<Node>, rest: seq<Node>, left: seq<int>,
      now: u32) {
    && |ks| == |nodes| && Ints(ks) && Ints(left) && |left| == |rest|
    && nodes == woken + rest && left == ks[|woken|..] && |woken| + Due(left, now) == Due(ks, now)
  }

  lemma ProgressStep(nodes: seq<Node>, ks: seq<int>, woken: seq<Node>, rest: seq<Node>, left: seq<int>, now: u32,
      x: Node)
    requires Progress(nodes, ks, woken, rest, left, now) && rest != [] && rest[0] == x && Unsigned(left[0]) <= now
    ensures Progress(nodes, ks, woken + [x], rest[1..], left[1..], now)
  {
    assert rest == [rest[0]] + rest[1..];
  }

  lemma SuffixSorted(ks: seq<int>, n: nat)
    requires Sorted(ks) && Ints(ks) && n <= |ks|
    ensures Sorted(ks[n..]) && Ints(ks[n..])
  {
    SortedIs(ks);
    SortedIs(ks[n..]);
  }

  lemma ProgressDone(nodes: seq<Node>, ks: seq<int>, woken: seq<Node>, rest: seq<Node>, left: seq<int>, now: u32)
    requires Progress(nodes, ks, woken, rest, left, now) && (rest == [] || Unsigned(left[0]) > now)
    ensures woken == nodes[..Due(ks, now)] && rest == nodes[Due(ks, now)..] && left == ks[Due(ks, now)..]
  {
  }
}
