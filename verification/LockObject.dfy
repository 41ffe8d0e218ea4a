/** mutex_t and lock_t as they run, with the waiters on a list that is threaded through the
    tasks. The other tasks come in wherever a task sleeps or may be preempted: a schedule
    says which of their steps are tried there. */
module LockObject {
  import opened Wrappers
  import opened LinkedList
  import opened Lock
  import opened LockRun

  /** Steps of tasks, in the order in which they are tried. */
  type Schedule = seq<(nat, Action)>

  predicate NotBy(run: Schedule, me: nat) {
    forall i :: 0 <= i < |run| ==> run[i].0 != me
  }

  /** What a task can do next depends on where it stands. */
  predicate MayDo(pc: seq<Pc>, depth: seq<nat>, t: nat, a: Action) {
    Enabled(Lock(false, [], None, 0, pc, depth), t, a)
  }

  /** The steps of others leave a task where it is, or wake it. */
  predicate Stays(l: Lock, l': Lock, me: nat) {
    && Task(l, me) && Task(l', me) && l'.depth[me] == l.depth[me]
    && (l'.pc[me] == l.pc[me] || (l.pc[me] == Asleep && l'.pc[me] == Woken))
  }

  lemma OthersLeaveMe(l: Lock, t: nat, a: Action, me: nat)
    requires Inv(l) && Enabled(l, t, a) && Task(l, me) && t != me
    ensures Stays(l, Step(l, t, a), me)
  {
    if a.Unlocks? && l.waiters != [] {
      assert l.waiters[|l.waiters| - 1] in l.waiters;
    }
  }

  lemma {:induction false} RunJoins(l: Lock, a: Schedule, b: Schedule)
    requires CanRun(l, a) && CanRun(Run(l, a), b)
    ensures CanRun(l, a + b) && Run(l, a + b) == Run(Run(l, a), b)
    decreases |a|
  {
    if a == [] {
      assert a + b == b;
    } else {
      assert (a + b)[1..] == a[1..] + b;
      RunJoins(Step(l, a[0].0, a[0].1), a[1..], b);
    }
  }

  /** One more step at the end of a run. */
  lemma RunThen(l: Lock, a: Schedule, t: nat, c: Action)
    requires CanRun(l, a) && Enabled(Run(l, a), t, c)
    ensures CanRun(l, a + [(t, c)]) && Run(l, a + [(t, c)]) == Step(Run(l, a), t, c)
  {
    var b := [(t, c)];
    assert b[1..] == [];
    assert CanRun(Run(l, a), b) && Run(Run(l, a), b) == Step(Run(l, a), t, c);
    RunJoins(l, a, b);
  }

  /** From l to l' other tasks ran, and did what done lists. */
  ghost predicate OthersRan(l: Lock, l': Lock, done: Schedule, me: nat) {
    CanRun(l, done) && l' == Run(l, done) && NotBy(done, me) && Stays(l, l', me)
  }

  lemma OthersRanOn(l: Lock, l': Lock, done: Schedule, me: nat, t: nat, a: Action)
    requires Inv(l') && OthersRan(l, l', done, me) && t != me && Enabled(l', t, a)
    ensures OthersRan(l, Step(l', t, a), done + [(t, a)], me)
  {
    OthersLeaveMe(l', t, a, me);
    RunThen(l, done, t, a);
  }

  /** mutex_unlock, field by field. */
  lemma UnlockIs(l: Lock, t: nat)
    requires Inv(l) && Enabled(l, t, Unlocks)
    ensures Inv(Unlock(l, t))
    ensures l.waiters == [] ==> Unlock(l, t) == l.(value := false, pc := l.pc[t := Idle])
    ensures l.waiters != [] ==>
              var w := l.waiters[|l.waiters| - 1];
              && w < |l.pc| && w != t
              && Unlock(l, t) ==
                  l.(value := false, waiters := l.waiters[..|l.waiters| - 1], pc := l.pc[t := Idle][w := Woken])
  {
    StepKeepsInv(l, t, Unlocks);
    assert l.waiters != [] ==> l.waiters[|l.waiters| - 1] in l.waiters;
  }

  class LockT {
    var value: bool
    const waiters: List
    var holder: Option<nat>
    var repeat: nat
    /** task_table: the list node of every task. */
    const tasks: seq<Node>
    /** Where every task goes on when it runs again, and how often it is inside. */
    var pc: seq<Pc>
    var depth: seq<nat>
    ghost var queue: seq<nat>

    ghost function State(): Lock
      reads this
    {
      Lock(value, queue, holder, repeat, pc, depth)
    }

    /** The nodes on the list are those of the tasks in the queue. */
    ghost predicate Threaded()
      reads this, waiters
    {
      && |waiters.Nodes()| == |queue|
      && forall i :: 0 <= i < |queue| ==> queue[i] < |tasks| && waiters.Nodes()[i] == tasks[queue[i]]
    }

    ghost predicate Wired()
      reads this, waiters, waiters.chain
    {
      && waiters.Valid() && Threaded()
      && Distinct(tasks)
      && waiters.head !in tasks && waiters.tail !in tasks
    }

    ghost predicate Valid()
      reads this, waiters, waiters.chain
    {
      Wired() && |tasks| == |pc| && Inv(State())
    }

    /** The nodes that a step may write. */
    ghost function Footprint(): set<Node> {
      {waiters.head, waiters.tail} + (set n | n in tasks)
    }

    /** The chain is the two sentinels with nodes of waiting tasks between them. */
    lemma ChainIs(x: Node)
      requires Wired() && x in waiters.chain
      ensures x in Footprint()
      ensures x == waiters.head || x == waiters.tail || exists i :: 0 <= i < |queue| && x == tasks[queue[i]]
    {
      var k :| 0 <= k < |waiters.chain| && waiters.chain[k] == x;
      assert 0 < k < |waiters.chain| - 1 ==> waiters.Nodes()[k - 1] == x;
    }

    lemma NotWaiting(t: nat)
      requires Valid() && t < |tasks| && !At(State(), t, Asleep)
      ensures tasks[t] !in waiters.chain
    {
      assert forall i :: 0 <= i < |queue| ==> queue[i] in queue;
      if tasks[t] in waiters.chain {
        ChainIs(tasks[t]);
      }
    }

    /** lock_init, with the tasks of the table outside. */
    constructor (tasks: seq<Node>)
      requires Distinct(tasks)
      ensures Valid() && State() == Fresh(|tasks|) && this.tasks == tasks && fresh(waiters) && fresh(waiters.chain)
    {
      value, holder, repeat := false, None, 0;
      waiters := new List();
      this.tasks := tasks;
      pc, depth, queue := seq(|tasks|, _ => Idle), seq(|tasks|, _ => 0), [];
      new;
      assert forall t: nat :: !Owns(Fresh(|tasks|), t);
    }

    // ----- The steps --------------------------------------------------------

    /** The body of the loop of mutex_lock: the caller goes to the front of the waiters. */
    method Block(t: nat)
      requires Valid() && Enabled(State(), t, Tries) && value
      modifies this, waiters`chain, Footprint()
      ensures Valid() && State() == Step(old(State()), t, Tries) && pc[t] == Asleep
    {
      StepKeepsInv(State(), t, Tries);
      NotWaiting(t);
      forall x | x in waiters.chain
        ensures x in Footprint()
      {
        ChainIs(x);
      }
      waiters.Push(tasks[t]);
      queue, pc := [t] + queue, pc[t := Asleep];
    }

    /** value++ behind the loop of mutex_lock. */
    method TakeMutex(t: nat)
      requires Valid() && Enabled(State(), t, Tries) && !value
      modifies this`value, this`pc
      ensures Valid() && State() == Step(old(State()), t, Tries) && pc[t] == Got
    {
      StepKeepsInv(State(), t, Tries);
      value, pc := true, pc[t := Got];
    }

    /** The test of lock_acquire, and its whole work for the holder. */
    method AcquireTest(t: nat) returns (inside: bool)
      requires Valid() && Enabled(State(), t, Acquires)
      modifies this`repeat, this`pc, this`depth
      ensures Valid() && State() == Step(old(State()), t, Acquires) && (inside <==> old(holder) == Some(t))
    {
      StepKeepsInv(State(), t, Acquires);
      if holder != Some(t) {
        pc := pc[t := Wants];
        return false;
      }
      repeat, depth := repeat + 1, depth[t := depth[t] + 1];
      return true;
    }

    /** holder = current. */
    method SetHolder(t: nat)
      requires Valid() && Enabled(State(), t, Names)
      modifies this`holder, this`pc
      ensures Valid() && State() == Step(old(State()), t, Names)
    {
      StepKeepsInv(State(), t, Names);
      holder, pc := Some(t), pc[t := Named];
    }

    /** repeat = 1, after which the caller is inside. */
    method SetRepeat(t: nat)
      requires Valid() && Enabled(State(), t, Counts)
      modifies this`repeat, this`pc, this`depth
      ensures Valid() && State() == Step(old(State()), t, Counts)
    {
      StepKeepsInv(State(), t, Counts);
      repeat, pc, depth := 1, pc[t := Idle], depth[t := 1];
    }

    /** lock_release up to the write of holder; out tells that the lock is given up. */
    method ReleaseTest(t: nat) returns (out: bool)
      requires Valid() && Enabled(State(), t, Releases)
      modifies this`holder, this`repeat, this`pc, this`depth
      ensures Valid() && State() == Step(old(State()), t, Releases) && (out <==> old(repeat) <= 1)
    {
      StepKeepsInv(State(), t, Releases);
      if repeat > 1 {
        repeat, depth := repeat - 1, depth[t := depth[t] - 1];
        return false;
      }
      holder, pc, depth := None, pc[t := Dropped], depth[t := 0];
      return true;
    }

    /** repeat = 0. */
    method ClearRepeat(t: nat)
      requires Valid() && Enabled(State(), t, Clears)
      modifies this`repeat, this`pc
      ensures Valid() && State() == Step(old(State()), t, Clears)
    {
      StepKeepsInv(State(), t, Clears);
      repeat, pc := 0, pc[t := Cleared];
    }

    /** mutex_unlock up to its task_yield: the node in front of the tail is unblocked. */
    method MutexUnlock(t: nat) returns (woken: Node?)
      requires Valid() && Enabled(State(), t, Unlocks)
      modifies this, waiters`chain, Footprint()
      ensures Valid() && State() == Step(old(State()), t, Unlocks)
      ensures t < |pc| && pc[t] == Idle && depth == old(depth)
      ensures woken == if old(queue) == [] then null else tasks[old(queue)[|old(queue)| - 1]]
    {
      ghost var l := State();
      UnlockIs(l, t);
      value := false;
      var empty := waiters.Empty();
      if empty {
        assert queue == [];
        pc := pc[t := Idle];
        return null;
      }
      var u;
      woken, u := Unblock();
      pc := pc[t := Idle][u := Woken];
      assert State() == Unlock(l, t);
    }

    /** task_unblock of the task in front of the tail, which has slept longest. */
    method Unblock() returns (node: Node, u: nat)
      requires Wired() && queue != []
      modifies this`queue, waiters`chain, Footprint()
      ensures Wired() && queue == old(queue)[..|old(queue)| - 1]
      ensures u == old(queue)[|old(queue)| - 1] < |tasks| && node == tasks[u]
    {
      ghost var w := queue[|queue| - 1];
      forall x | x in waiters.chain
        ensures x in Footprint()
      {
        ChainIs(x);
      }
      node := waiters.PopBack();
      u := TaskOf(node, w);
      queue := queue[..|queue| - 1];
    }

    /** element_entry: the task that a node belongs to. */
    method TaskOf(node: Node, ghost w: nat) returns (t: nat)
      requires w < |tasks| && tasks[w] == node && Distinct(tasks)
      ensures t == w
    {
      t := 0;
      while tasks[t] != node
        invariant t <= w
        decreases w - t
      {
        t := t + 1;
      }
    }

    /** The step that task t can take where it stands. */
    method Perform(t: nat, a: Action)
      requires Valid() && Enabled(State(), t, a)
      modifies this, waiters`chain, Footprint()
      ensures Valid() && State() == Step(old(State()), t, a)
    {
      match a {
        case Acquires =>
          var inside := AcquireTest(t);
        case Tries =>
          if value {
            Block(t);
          } else {
            TakeMutex(t);
          }
        case Names =>
          SetHolder(t);
        case Counts =>
          SetRepeat(t);
        case Releases =>
          var out := ReleaseTest(t);
        case Clears =>
          ClearRepeat(t);
        case Unlocks =>
          var woken := MutexUnlock(t);
      }
    }

    // ----- Whole calls ------------------------------------------------------

    /** Other tasks run: those steps of the schedule that are possible when their turn comes. */
    method Others(me: nat, steps: Schedule) returns (ghost done: Schedule)
      requires Valid() && me < |pc|
      modifies this, waiters`chain, Footprint()
      ensures Valid() && OthersRan(old(State()), State(), done, me)
    {
      ghost var l := State();
      done := [];
      for i := 0 to |steps|
        invariant Valid() && OthersRan(l, State(), done, me)
      {
        var (t, a) := steps[i];
        if t != me && MayDo(pc, depth, t, a) {
          OthersRanOn(l, State(), done, me, t, a);
          Perform(t, a);
          done := done + [(t, a)];
        }
      }
    }

    /** mutex_lock; rounds says what the others do each time the caller has gone to sleep.
        got is false when the caller still sleeps after the last of them. */
    method MutexLock(me: nat, rounds: seq<Schedule>) returns (got: bool, ghost done: Schedule)
      requires Valid() && me < |pc| && pc[me] in {Wants, Woken}
      modifies this, waiters`chain, Footprint()
      ensures Valid() && CanRun(old(State()), done) && State() == Run(old(State()), done)
      ensures me < |pc| && |depth| == |pc| == old(|pc|) && depth[me] == old(depth[me])
      ensures pc[me] == if got then Got else Asleep
    {
      ghost var l := State();
      done := [];
      var r := 0;
      while value
        invariant Valid() && me < |pc| == |depth| == |l.pc| && pc[me] in {Wants, Woken} && depth[me] == l.depth[me]
        invariant CanRun(l, done) && State() == Run(l, done)
        invariant r <= |rounds|
        decreases |rounds| - r
      {
        RunThen(l, done, me, Tries);
        Block(me);
        done := done + [(me, Tries)];
        if r == |rounds| {
          return false, done;
        }
        ghost var others := Others(me, rounds[r]);
        RunJoins(l, done, others);
        done, r := done + others, r + 1;
        if pc[me] == Asleep {
          return false, done;
        }
      }
      RunThen(l, done, me, Tries);
      TakeMutex(me);
      done := done + [(me, Tries)];
      return true, done;
    }

    /** lock_acquire. early, rounds, late and last say what the others do between the test and
        the mutex, while the caller sleeps, and before and after holder is set. */
    method LockAcquire(me: nat, early: Schedule, rounds: seq<Schedule>, late: Schedule, last: Schedule)
      returns (got: bool, ghost done: Schedule)
      requires Valid() && me < |pc| && pc[me] == Idle
      modifies this, waiters`chain, Footprint()
      ensures Valid() && CanRun(old(State()), done) && State() == Run(old(State()), done)
      ensures me < |pc| == |depth| && old(|pc| == |depth|)
      ensures got ==> pc[me] == Idle && depth[me] == old(depth[me]) + 1 == repeat && holder == Some(me) && value
      ensures !got ==> pc[me] == Asleep && me in queue
    {
      ghost var l := State();
      done := [(me, Acquires)];
      RunThen(l, [], me, Acquires);
      assert [] + done == done;
      var inside := AcquireTest(me);
      if inside {
        assert Owns(State(), me);
        return true, done;
      }
      ghost var more := Others(me, early);
      RunJoins(l, done, more);
      done := done + more;
      got, more := MutexLock(me, rounds);
      RunJoins(l, done, more);
      done := done + more;
      if !got {
        assert At(State(), me, Asleep);
        return;
      }
      more := Enter(me, late, last);
      RunJoins(l, done, more);
      done := done + more;
    }

    /** lock_acquire behind mutex_lock; the assertion that repeat is 0 holds. */
    method Enter(me: nat, late: Schedule, last: Schedule) returns (ghost done: Schedule)
      requires Valid() && me < |pc| && pc[me] == Got
      modifies this, waiters`chain, Footprint()
      ensures Valid() && CanRun(old(State()), done) && State() == Run(old(State()), done)
      ensures me < |pc| == |depth| && pc[me] == Idle && depth[me] == 1 == repeat && holder == Some(me) && value
    {
      ghost var l := State();
      done := Others(me, late);
      StepKeepsInv(State(), me, Names);
      assert repeat == 0;
      RunThen(l, done, me, Names);
      SetHolder(me);
      done := done + [(me, Names)];
      ghost var more := Others(me, last);
      RunJoins(l, done, more);
      done := done + more;
      RunThen(l, done, me, Counts);
      SetRepeat(me);
      done := done + [(me, Counts)];
      assert Owns(State(), me);
    }

    /** lock_release by a task that is inside: its assertions hold, and it is inside once less. */
    method LockRelease(me: nat, early: Schedule, late: Schedule) returns (ghost done: Schedule)
      requires Valid() && me < |pc| == |depth| && pc[me] == Idle && depth[me] > 0
      modifies this, waiters`chain, Footprint()
      ensures Valid() && CanRun(old(State()), done) && State() == Run(old(State()), done)
      ensures me < |pc| == |depth| && pc[me] == Idle && depth[me] == old(depth[me]) - 1
      ensures depth[me] == 0 ==> holder != Some(me)
    {
      ghost var l := State();
      StepKeepsInv(l, me, Releases);
      assert holder == Some(me) && repeat >= 1;
      done := [(me, Releases)];
      RunThen(l, [], me, Releases);
      assert [] + done == done;
      var out := ReleaseTest(me);
      if out {
        ghost var more := Leave(me, early, late);
        RunJoins(l, done, more);
        done := done + more;
      }
    }

    /** lock_release behind the write of holder. */
    method Leave(me: nat, early: Schedule, late: Schedule) returns (ghost done: Schedule)
      requires Valid() && me < |pc| == |depth| && pc[me] == Dropped && depth[me] == 0
      modifies this, waiters`chain, Footprint()
      ensures Valid() && CanRun(old(State()), done) && State() == Run(old(State()), done)
      ensures me < |pc| == |depth| && pc[me] == Idle && depth[me] == 0 && holder != Some(me)
    {
      ghost var l := State();
      done := LeaveCount(me, early, late);
      RunThen(l, done, me, Unlocks);
      var woken := MutexUnlock(me);
      done := done + [(me, Unlocks)];
      assert !Owns(State(), me);
    }

    /** lock_release from the write of holder to mutex_unlock. */
    method LeaveCount(me: nat, early: Schedule, late: Schedule) returns (ghost done: Schedule)
      requires Valid() && me < |pc| == |depth| && pc[me] == Dropped && depth[me] == 0
      modifies this, waiters`chain, Footprint()
      ensures Valid() && CanRun(old(State()), done) && State() == Run(old(State()), done)
      ensures me < |pc| == |depth| && pc[me] == Cleared && depth[me] == 0
    {
      ghost var l := State();
      done := Others(me, early);
      RunThen(l, done, me, Clears);
      ClearRepeat(me);
      done := done + [(me, Clears)];
      ghost var more := Others(me, late);
      RunJoins(l, done, more);
      done := done + more;
    }
  }
}
