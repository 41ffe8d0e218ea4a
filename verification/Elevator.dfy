/** The request queue of a block device (src/kernel/device.c): sorted by sector, served in
    one direction to the end and then in the other. */
module Elevator {
  import opened Wrappers
  import opened LinkedList

  /** A request for sector idx that owner made; task is the field that request_nextreq's
      caller unblocks, which a request that ran at once leaves NULL. */
  datatype Request = Request(idx: int, owner: nat, task: Option<nat>)

  /** The list, the tasks that sleep, and the direction. */
  datatype Queue = Queue(list: seq<Request>, asleep: set<nat>, up: bool)

  function Sectors(list: seq<Request>): (ks: seq<int>)
    ensures |ks| == |list| && forall i :: 0 <= i < |ks| ==> ks[i] == list[i].idx
  {
    seq(|list|, i requires 0 <= i < |list| => list[i].idx)
  }

  /** The task of request i is not blocked: it executes the request, or is ready to. */
  predicate Awake(q: Queue, i: nat) {
    i < |q.list| && q.list[i].owner !in q.asleep
  }

  // ----- The steps ----------------------------------------------------------

  predicate Waits(q: Queue, task: nat) {
    exists i :: 0 <= i < |q.list| && q.list[i].owner == task
  }

  /** device_request up to do_request: alone, the request runs at once; else its task sleeps. */
  function Arrive(q: Queue, idx: int, task: nat): Queue {
    if q.list == [] then q.(list := [Request(idx, task, None)], asleep := q.asleep - {task})
    else
      q.(list := Inserted(q.list, Place(Sectors(q.list), idx), Request(idx, task, Some(task))),
         asleep := q.asleep + {task})
  }

  /** request_nextreq of request a out of n: turn round at an end of the list. */
  function Turned(n: nat, a: nat, up: bool): bool {
    if up && a + 1 == n then false
    else if !up && a == 0 then true
    else up
  }

  /** The position of the next request, in the list that still holds the one just done. */
  function NextPlace(n: nat, a: nat, up: bool): Option<nat> {
    if Turned(n, a, up) then (if a + 1 < n then Some(a + 1) else None)
    else if a > 0 then Some(a - 1) else None
  }

  /** device_request after do_request, by the task of request i: the request is removed, and
      the task of the next one unblocked. */
  function Complete(q: Queue, i: nat): Queue
    requires i < |q.list|
  {
    var next := NextPlace(|q.list|, i, q.up);
    var woken :=
      if next.Some? && next.value < |q.list| && q.list[next.value].task.Some? then {q.list[next.value].task.value}
      else {};
    Queue(Without(q.list, i), q.asleep - woken, Turned(|q.list|, i, q.up))
  }

  /** The next request has a task, and task_unblock finds it on a list. */
  predicate CanUnblock(q: Queue, i: nat) {
    match NextPlace(|q.list|, i, q.up)
    case None => true
    case Some(p) => p < |q.list| && q.list[p].task.Some? && q.list[p].task.value in q.asleep
  }

  datatype Action = Arrives(idx: int, task: nat) | Completes(i: nat)

  /** A task that is in device_request makes no other request; every task that is not
      blocked may go on. */
  predicate Enabled(q: Queue, a: Action) {
    match a
    case Arrives(_, task) => !Waits(q, task)
    case Completes(i) => Awake(q, i)
  }

  function Step(q: Queue, a: Action): Queue
    requires Enabled(q, a)
  {
    match a
    case Arrives(idx, task) => Arrive(q, idx, task)
    case Completes(i) => Complete(q, i)
  }

  // ----- One request at a time ----------------------------------------------

  ghost predicate OwnersDiffer(list: seq<Request>) {
    forall i, j :: 0 <= i < j < |list| ==> list[i].owner != list[j].owner
  }

  /** Every other task is blocked, and its request names it. */
  ghost predicate OthersSleep(q: Queue, a: nat) {
    forall j :: 0 <= j < |q.list| && j != a ==> q.list[j].owner in q.asleep && q.list[j].task == Some(q.list[j].owner)
  }

  /** Request a is the only one whose task is not blocked. */
  ghost predicate InvAt(q: Queue, a: nat) {
    Sorted(Sectors(q.list)) && OwnersDiffer(q.list) && Awake(q, a) && OthersSleep(q, a)
  }

  ghost predicate Inv(q: Queue) {
    q.list == [] || exists a :: InvAt(q, a)
  }

  lemma InsertedSectors(list: seq<Request>, p: nat, r: Request)
    requires p <= |list|
    ensures Sectors(Inserted(list, p, r)) == Inserted(Sectors(list), p, r.idx)
  {
    var a, b := Sectors(Inserted(list, p, r)), Inserted(Sectors(list), p, r.idx);
    assert |a| == |b| && forall i :: 0 <= i < |a| ==> a[i] == b[i];
  }

  lemma InsertedAt(list: seq<Request>, p: nat, r: Request)
    requires p <= |list|
    ensures |Inserted(list, p, r)| == |list| + 1
    ensures forall i :: 0 <= i < p ==> Inserted(list, p, r)[i] == list[i]
    ensures Inserted(list, p, r)[p] == r
    ensures forall i :: p < i <= |list| ==> Inserted(list, p, r)[i] == list[i - 1]
  {
  }

  lemma FirstKeeps(q: Queue, idx: int, task: nat)
    requires q.list == []
    ensures InvAt(Arrive(q, idx, task), 0)
  {
  }

  lemma InsertedOwners(list: seq<Request>, p: nat, r: Request)
    requires p <= |list| && OwnersDiffer(list) && forall i :: 0 <= i < |list| ==> list[i].owner != r.owner
    ensures OwnersDiffer(Inserted(list, p, r))
  {
    InsertedAt(list, p, r);
    var l := Inserted(list, p, r);
    forall i, j | 0 <= i < j < |l|
      ensures l[i].owner != l[j].owner
    {
      var i', j' := if i < p then i else i - 1, if j < p then j else j - 1;
      assert i != p && j != p ==> list[i'].owner != list[j'].owner;
    }
  }

  lemma InsertedSleep(q: Queue, p: nat, task: nat, idx: int, a: nat)
    requires p <= |q.list| && OthersSleep(q, a) && Awake(q, a) && !Waits(q, task)
    ensures var q' := q.(list := Inserted(q.list, p, Request(idx, task, Some(task))), asleep := q.asleep + {task});
            var a' := if p <= a then a + 1 else a;
            OthersSleep(q', a') && Awake(q', a') && q'.list[a'] == q.list[a]
  {
    InsertedAt(q.list, p, Request(idx, task, Some(task)));
  }

  /** An arrival leaves the list sorted, the requests in their order, and the one that
      executes the only one that does. */
  lemma ArriveKeeps(q: Queue, idx: int, task: nat, a: nat)
    requires InvAt(q, a) && !Waits(q, task)
    ensures var q' := Arrive(q, idx, task);
            var a' := if Place(Sectors(q.list), idx) <= a then a + 1 else a;
            InvAt(q', a') && q'.list[a'] == q.list[a]
  {
    var p, r := Place(Sectors(q.list), idx), Request(idx, task, Some(task));
    PlaceSorts(Sectors(q.list), idx);
    InsertedSectors(q.list, p, r);
    InsertedOwners(q.list, p, r);
    InsertedSleep(q, p, task, idx, a);
  }

  /** Where the next request stands once request a is gone. */
  function After(n: nat, a: nat, up: bool): nat {
    if Turned(n, a, up) || a == 0 then a else a - 1
  }

  lemma WithoutAt(list: seq<Request>, a: nat)
    requires a < |list|
    ensures |Without(list, a)| == |list| - 1
    ensures forall i :: 0 <= i < |list| - 1 ==> Without(list, a)[i] == list[if i < a then i else i + 1]
  {
  }

  lemma WithoutKeeps(list: seq<Request>, a: nat)
    requires a < |list| && Sorted(Sectors(list)) && OwnersDiffer(list)
    ensures Sorted(Sectors(Without(list, a))) && OwnersDiffer(Without(list, a))
  {
    WithoutAt(list, a);
    SortedIs(Sectors(list));
    var l := Without(list, a);
    forall i, j | 0 <= i < j < |l|
      ensures l[i].owner != l[j].owner && l[i].idx <= l[j].idx
    {
      var i', j' := if i < a then i else i + 1, if j < a then j else j + 1;
      assert list[i'].owner != list[j'].owner && Sectors(list)[i'] <= Sectors(list)[j'];
    }
  }

  /** The request that request_nextreq names sleeps until then, and is the only one awake
      afterwards; there is one exactly when the list held more than one. */
  lemma NextIsWoken(q: Queue, a: nat)
    requires InvAt(q, a)
    ensures CanUnblock(q, a)
    ensures NextPlace(|q.list|, a, q.up).Some? <==> |q.list| > 1
    ensures |q.list| > 1 ==>
              && !Awake(q, NextPlace(|q.list|, a, q.up).value)
              && InvAt(Complete(q, a), After(|q.list|, a, q.up))
  {
    if |q.list| > 1 {
      var p, e, q' := NextPlace(|q.list|, a, q.up).value, After(|q.list|, a, q.up), Complete(q, a);
      WithoutKeeps(q.list, a);
      WithoutAt(q.list, a);
      assert q'.list[e] == q.list[p];
      forall j | 0 <= j < |q'.list| && j != e
        ensures q'.list[j].owner in q'.asleep && q'.list[j].task == Some(q'.list[j].owner)
      {
        var k := if j < a then j else j + 1;
        assert q.list[k].owner != q.list[p].owner;
      }
    }
  }

  lemma AwakeIsTheOne(q: Queue, a: nat, i: nat)
    requires InvAt(q, a) && Awake(q, i)
    ensures i == a
  {
  }

  // ----- Conservation -------------------------------------------------------

  /** What comes in one step, and what goes. */
  function Coming(q: Queue, a: Action): multiset<Request> {
    match a
    case Arrives(idx, task) => multiset{Request(idx, task, if q.list == [] then None else Some(task))}
    case Completes(_) => multiset{}
  }

  function Going(q: Queue, a: Action): multiset<Request>
    requires Enabled(q, a)
  {
    match a
    case Arrives(_, _) => multiset{}
    case Completes(i) => multiset{q.list[i]}
  }

  lemma ArriveAdds(q: Queue, idx: int, task: nat)
    ensures multiset(Arrive(q, idx, task).list) == multiset(q.list) + Coming(q, Arrives(idx, task))
  {
    if q.list != [] {
      var p := Place(Sectors(q.list), idx);
      assert q.list == q.list[..p] + q.list[p..];
    }
  }

  lemma WithoutTakes(list: seq<Request>, a: nat)
    requires a < |list|
    ensures multiset(list) == multiset{list[a]} + multiset(Without(list, a))
  {
    assert list == list[..a] + [list[a]] + list[a + 1..];
  }

  lemma StepKeeps(q: Queue, a: Action)
    requires Inv(q) && Enabled(q, a)
    ensures Inv(Step(q, a)) && (a.Completes? ==> CanUnblock(q, a.i))
    ensures multiset(q.list) + Coming(q, a) == Going(q, a) + multiset(Step(q, a).list)
  {
    match a
    case Arrives(idx, task) =>
      ArriveAdds(q, idx, task);
      if q.list == [] {
        FirstKeeps(q, idx, task);
      } else {
        var i :| InvAt(q, i);
        ArriveKeeps(q, idx, task, i);
      }
    case Completes(i) =>
      var a :| InvAt(q, a);
      AwakeIsTheOne(q, a, i);
      NextIsWoken(q, i);
      WithoutTakes(q.list, i);
  }

  // ----- Runs ---------------------------------------------------------------

  predicate CanRun(q: Queue, run: seq<Action>)
    decreases |run|
  {
    run == [] || (Enabled(q, run[0]) && CanRun(Step(q, run[0]), run[1..]))
  }

  function Run(q: Queue, run: seq<Action>): Queue
    requires CanRun(q, run)
    decreases |run|
  {
    if run == [] then q else Run(Step(q, run[0]), run[1..])
  }

  function Came(q: Queue, run: seq<Action>): multiset<Request>
    requires CanRun(q, run)
    decreases |run|
  {
    if run == [] then multiset{} else Coming(q, run[0]) + Came(Step(q, run[0]), run[1..])
  }

  function Gone(q: Queue, run: seq<Action>): multiset<Request>
    requires CanRun(q, run)
    decreases |run|
  {
    if run == [] then multiset{} else Going(q, run[0]) + Gone(Step(q, run[0]), run[1..])
  }

  lemma {:induction false} RunKeeps(q: Queue, run: seq<Action>)
    requires Inv(q) && CanRun(q, run)
    ensures Inv(Run(q, run))
    ensures multiset(q.list) + Came(q, run) == Gone(q, run) + multiset(Run(q, run).list)
    decreases |run|
  {
    if run == [] {
    } else {
      var next := Step(q, run[0]);
      StepKeeps(q, run[0]);
      RunKeeps(next, run[1..]);
      Balance(multiset(q.list), Coming(q, run[0]), Going(q, run[0]), multiset(next.list),
              Came(next, run[1..]), Gone(next, run[1..]), multiset(Run(next, run[1..]).list));
    }
  }

  lemma Balance<T>(a: multiset<T>, c: multiset<T>, g: multiset<T>, b: multiset<T>, c': multiset<T>, g': multiset<T>,
      e: multiset<T>)
    requires a + c == g + b && b + c' == g' + e
    ensures a + (c + c') == (g + g') + e
  {
    assert a + (c + c') == (a + c) + c' == (g + b) + c' == g + (b + c') == g + (g' + e);
  }

  /** Over every run of a device: the list is sorted; of a non-empty list exactly one request
      is not asleep, so that its task and no other can go on; the task that it will unblock
      is asleep; and what came was executed or is in the list. */
  lemma OneAtATime(asleep: set<nat>, up: bool, run: seq<Action>)
    requires CanRun(Queue([], asleep, up), run)
    ensures var q := Run(Queue([], asleep, up), run);
            && Sorted(Sectors(q.list))
            && (q.list != [] ==> exists i :: Awake(q, i))
            && (forall i: nat, j: nat :: Awake(q, i) && Awake(q, j) ==> i == j)
            && (forall i: nat :: Awake(q, i) ==> CanUnblock(q, i))
            && Came(Queue([], asleep, up), run) == Gone(Queue([], asleep, up), run) + multiset(q.list)
  {
    RunKeeps(Queue([], asleep, up), run);
    var q := Run(Queue([], asleep, up), run);
    if q.list != [] {
      var a :| InvAt(q, a);
      NextIsWoken(q, a);
    }
  }

  // ----- Without arrivals ---------------------------------------------------

  /** The requests in the order in which they are executed if no more arrive. */
  function Served(list: seq<Request>, a: nat, up: bool): seq<Request>
    decreases |list|
  {
    if a >= |list| then []
    else [list[a]] + Served(Without(list, a), After(|list|, a, up), Turned(|list|, a, up))
  }

  function Reverse(s: seq<Request>): seq<Request> {
    if s == [] then [] else Reverse(s[1..]) + [s[0]]
  }

  lemma {:induction false} ReverseLast(s: seq<Request>)
    requires s != []
    ensures Reverse(s) == [s[|s| - 1]] + Reverse(s[..|s| - 1])
  {
    if |s| <= 1 {
    } else {
      ReverseLast(s[1..]);
      assert s[1..][..|s| - 2] == s[..|s| - 1][1..];
    }
  }

  /** One sweep in the current direction, and one back. */
  function Sweep(list: seq<Request>, a: nat, up: bool): seq<Request>
    requires a < |list|
  {
    if up then list[a..] + Reverse(list[..a])
    else Reverse(list[..a + 1]) + list[a + 1..]
  }

  lemma {:induction false} ServedIsSweep(list: seq<Request>, a: nat, up: bool)
    requires a < |list|
    ensures Served(list, a, up) == Sweep(list, a, up)
    decreases |list|
  {
    if |list| > 1 {
      ServedIsSweep(Without(list, a), After(|list|, a, up), Turned(|list|, a, up));
      if up {
        SweepUp(list, a);
      } else {
        SweepDown(list, a);
      }
    } else {
      assert Without(list, a) == [] && Served(list, a, up) == [list[0]];
      assert list[..1] == list[0..] == [list[0]] && list[..0] == list[1..] == [];
      assert Reverse([list[0]]) == [list[0]];
    }
  }

  /** The sweep after request a is gone. */
  function SweepOn(list: seq<Request>, a: nat, up: bool): seq<Request>
    requires |list| > 1 && a < |list|
  {
    Sweep(Without(list, a), After(|list|, a, up), Turned(|list|, a, up))
  }

  lemma {:induction false} SweepUp(l: seq<Request>, a: nat)
    requires |l| > 1 && a < |l|
    ensures Sweep(l, a, true) == [l[a]] + SweepOn(l, a, true)
  {
    var c := Without(l, a);
    assert l[a..] == [l[a]] + l[a + 1..];
    if a + 1 < |l| {
      assert c[a..] == l[a + 1..] && c[..a] == l[..a];
    } else {
      assert c == l[..a] && c[..a] == l[..a] && c[a..] == [];
    }
  }

  lemma {:induction false} SweepDown(l: seq<Request>, a: nat)
    requires |l| > 1 && a < |l|
    ensures Sweep(l, a, false) == [l[a]] + SweepOn(l, a, false)
  {
    if a > 0 {
      GoDown(l, a);
    } else {
      TurnAtBottom(l);
    }
  }

  lemma {:induction false} GoDown(l: seq<Request>, a: nat)
    requires 0 < a < |l|
    ensures Sweep(l, a, false) == [l[a]] + SweepOn(l, a, false)
  {
    var c := Without(l, a);
    ReverseLast(l[..a + 1]);
    assert l[..a + 1][..a] == l[..a];
    assert c[..a] == l[..a] && c[a..] == l[a + 1..];
    assert Sweep(l, a, false) == ([l[a]] + Reverse(l[..a])) + l[a + 1..];
    assert SweepOn(l, a, false) == Reverse(l[..a]) + l[a + 1..];
  }

  lemma {:induction false} TurnAtBottom(l: seq<Request>)
    requires |l| > 1
    ensures Sweep(l, 0, false) == [l[0]] + SweepOn(l, 0, false)
  {
    var c := Without(l, 0);
    assert c == l[1..] && c[0..] == l[1..] && c[..0] == [];
    assert l[..1] == [l[0]] && Reverse([l[0]]) == [l[0]];
  }

  /** Every request is executed, once each. */
  lemma {:induction false} ServedIsAll(list: seq<Request>, a: nat, up: bool)
    requires list != [] ==> a < |list|
    ensures |Served(list, a, up)| == |list| && multiset(Served(list, a, up)) == multiset(list)
    decreases |list|
  {
    if list == [] {
    } else {
      WithoutTakes(list, a);
      ServedIsAll(Without(list, a), After(|list|, a, up), Turned(|list|, a, up));
    }
  }

  ghost predicate OnlyCompletes(run: seq<Action>) {
    forall k :: 0 <= k < |run| ==> run[k].Completes?
  }

  /** The requests that a run completes, in order. */
  function Executed(q: Queue, run: seq<Action>): seq<Request>
    requires CanRun(q, run)
    decreases |run|
  {
    if run == [] then []
    else (if run[0].Completes? then [q.list[run[0].i]] else []) + Executed(Step(q, run[0]), run[1..])
  }

  /** However the tasks are scheduled, without arrivals the requests are executed in the
      order of the sweep, one by one to the end. */
  lemma {:induction false} DrainIsSweep(q: Queue, a: nat, run: seq<Action>)
    requires InvAt(q, a) && CanRun(q, run) && OnlyCompletes(run)
    ensures |run| <= |q.list| && Executed(q, run) <= Sweep(q.list, a, q.up)
    ensures |Executed(q, run)| == |run| && |Run(q, run).list| == |q.list| - |run|
  {
    DrainIsServed(q, a, run);
    ServedIsSweep(q.list, a, q.up);
  }

  lemma {:induction false} DrainIsServed(q: Queue, a: nat, run: seq<Action>)
    requires InvAt(q, a) && CanRun(q, run) && OnlyCompletes(run)
    ensures |run| <= |q.list| && Executed(q, run) <= Served(q.list, a, q.up)
    ensures |Executed(q, run)| == |run| && |Run(q, run).list| == |q.list| - |run|
    decreases |run|
  {
    if run == [] {
    } else {
      assert run[0].Completes?;
      AwakeIsTheOne(q, a, run[0].i);
      NextIsWoken(q, a);
      assert OnlyCompletes(run[1..]);
      if |q.list| > 1 {
        DrainIsServed(Step(q, run[0]), After(|q.list|, a, q.up), run[1..]);
      } else {
        NothingLeft(Step(q, run[0]), run[1..]);
      }
    }
  }

  lemma NothingLeft(q: Queue, run: seq<Action>)
    requires q.list == [] && CanRun(q, run) && OnlyCompletes(run)
    ensures run == []
  {
  }

  // ----- The queue as it runs -----------------------------------------------

  class Device {
    var list: seq<Request>
    var up: bool
    /** The tasks whose state is TASK_BLOCKED. */
    var asleep: set<nat>

    function State(): Queue
      reads this
    {
      Queue(list, asleep, up)
    }

    /** list_insert_sort of a request. */
    method InsertSort(r: Request)
      modifies this`list
      ensures list == Inserted(old(list), Place(Sectors(old(list)), r.idx), r)
    {
      var p := 0;
      while p < |list| && list[p].idx <= r.idx
        invariant p <= |list| && forall i :: 0 <= i < p ==> list[i].idx <= r.idx
      {
        p := p + 1;
      }
      PlaceIs(Sectors(list), r.idx, p);
      list := Inserted(list, p, r);
    }

    /** device_request up to do_request; runs tells that the caller need not sleep. */
    method Submit(idx: int, current: nat) returns (runs: bool)
      requires current !in asleep
      modifies this
      ensures State() == Arrive(old(State()), idx, current) && (runs <==> old(list) == [])
    {
      var empty := list == [];
      InsertSort(Request(idx, current, if empty then None else Some(current)));
      if !empty {
        asleep := asleep + {current};
      }
      return empty;
    }

    /** request_nextreq. */
    method NextRequest(i: nat) returns (next: Option<Request>)
      requires i < |list|
      modifies this`up
      ensures up == Turned(|list|, i, old(up))
      ensures next == match NextPlace(|list|, i, old(up)) case None => None case Some(p) => Some(list[p])
    {
      if up && i + 1 == |list| {
        up := false;
      } else if !up && i == 0 {
        up := true;
      }
      if up {
        return if i + 1 < |list| then Some(list[i + 1]) else None;
      }
      return if i > 0 then Some(list[i - 1]) else None;
    }

    /** device_request after do_request, by the task of request i; it fails if the next
        request has no task that sleeps. */
    method Finish(i: nat) returns (ok: bool)
      requires i < |list|
      modifies this
      ensures ok <==> CanUnblock(old(State()), i)
      ensures ok ==> State() == Complete(old(State()), i)
    {
      var next := NextRequest(i);
      list := Without(list, i);
      match next
      case None => return true;
      case Some(r) =>
        if r.task == None || r.task.value !in asleep {
          return false;
        }
        asleep := asleep - {r.task.value};
        return true;
    }
  }
}
