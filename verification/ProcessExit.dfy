/** What happens when schedule() is called in the middle of task_exit, behind TASK_DIED, and
    exactly when it is not. */
module ProcessExit {
  import opened Wrappers
  import opened ProcessTree
  import opened ProcessRun

  /** What lets a dying task through: an empty request list, a free lock, a port that is ready,
      nobody to hand the lock to. The wait for a sector does not stop a task that is not running. */
  lemma DyingPassesIff(op: TailOp, env: Env)
    ensures TailOutcome(op, env, Died) == GoesOn <==>
            && (op == Request ==> env.requests == 0) && (op == Acquire ==> !env.locked)
            && (op == Send ==> env.ready) && (op == Release ==> env.waiters == 0)
    ensures TailOutcome(op, env, Died) == Yields <==> op == Release && env.waiters > 0
  {
  }

  // ----- The claims hold exactly without such a call ------------------------

  /** After the first j steps of the run and any further quiet ones, the claims hold when no
      task is in the middle of task_exit. */
  ghost predicate ClaimsKept(s: Sys, run: seq<Action>, j: nat, f: seq<Action>) {
    j <= |run| && CanRun(s, run[..j]) && CanRun(Run(s, run[..j]), f) && AllQuiet(Run(s, run[..j]), f)
    && !Leaving(Run(Run(s, run[..j]), f)) ==>
      Claims(Run(Run(s, run[..j]), f))
  }

  lemma {:induction false} PrefixIsQuiet(s: Sys, run: seq<Action>, j: nat)
    requires CanRun(s, run) && j <= |run|
    ensures CanRun(s, run[..j]) && (AllQuiet(s, run) ==> AllQuiet(s, run[..j]))
    decreases |run|
  {
    if j == 0 {
    } else {
      assert run[..j][1..] == run[1..][..j - 1];
      PrefixIsQuiet(Step(s, run[0]), run[1..], j - 1);
    }
  }

  lemma {:induction false} QuietEnds(s: Sys, f: seq<Action>)
    requires Sound(s) && CanRun(s, f) && AllQuiet(s, f) && !Leaving(Run(s, f))
    ensures Claims(Run(s, f))
  {
    RunKeepsInv(s, f);
    InvClaims(Run(s, f));
  }

  lemma {:induction false} QuietPrefix(s: Sys, run: seq<Action>, j: nat)
    requires Sound(s) && CanRun(s, run) && AllQuiet(s, run) && j <= |run|
    ensures CanRun(s, run[..j]) && Sound(Run(s, run[..j]))
  {
    PrefixIsQuiet(s, run, j);
    RunKeepsInv(s, run[..j]);
  }

  lemma {:induction false} QuietRunKeeps(s: Sys, run: seq<Action>, j: nat, f: seq<Action>)
    requires Sound(s) && CanRun(s, run) && AllQuiet(s, run)
    ensures ClaimsKept(s, run, j, f)
  {
    if j <= |run| {
      QuietPrefix(s, run, j);
      var m := Run(s, run[..j]);
      if CanRun(m, f) && AllQuiet(m, f) && !Leaving(Run(m, f)) {
        QuietEnds(m, f);
      }
    }
  }

  /** mutex_unlock yields: the task is dead and never runs again, its exit unfinished. */
  lemma YieldBreaks(s: Sys, op: TailOp, to: nat)
    requires Sound(s) && Enabled(s, Tail(op, to)) && TailAt(s, op) == Yields
    ensures var e := Step(s, Tail(op, to)); !Leaving(e) && Dead(e.table, s.current) && !Claims(e)
  {
    var d, e := s.current, Step(s, Tail(op, to));
    assert Taken(Revived(s).table, d) && !Dead(Revived(s).table, d);
    assert Taken(e.table, d) && e.table[d].value.serial == s.table[d].value.serial;
  }

  /** Slot d holds the task that was there in s, in a certain state; its parent is there. */
  ghost predicate Stands(s: Sys, e: Sys, d: nat, x: State) {
    && Taken(s.table, d) && Taken(e.table, d) && e.table[d].value == s.table[d].value.(state := x)
    && e.exiting == s.exiting && e.exits == s.exits
    && e.table[d].value.ppid != d && Taken(e.table, e.table[d].value.ppid)
    && Taken(e.table, 0) && Taken(e.table, e.current)
  }

  /** The task blocks, and another runs. */
  lemma {:induction false} SleepLeaves(s: Sys, op: TailOp, to: nat)
    requires Sound(s) && Enabled(s, Tail(op, to)) && TailAt(s, op) == Sleeps
    ensures var d, e := s.current, Step(s, Tail(op, to)); e.current == to != d && d != 0 && Stands(s, e, d, Blocked)
  {
    var d, r := s.current, Revived(s);
    assert Taken(r.table, d) && d != 0;
    var p := r.table[d].value.ppid;
    assert Taken(r.table, p) && r.table[p].value.serial < r.table[d].value.serial;
  }

  /** It is unblocked and scheduled, and goes on in task_exit as running. */
  lemma {:induction false} SleepComesBack(s: Sys, e: Sys, d: nat)
    requires Stands(s, e, d, Blocked) && e.current != d && d != 0 && e.current !in e.exiting
    ensures var f := [Unblocks(d), Gives(d)];
            && Enabled(e, f[0]) && Stands(s, Step(e, f[0]), d, Ready) && Step(e, f[0]).current == e.current
            && Enabled(Step(e, f[0]), f[1]) && Stands(s, Step(Step(e, f[0]), f[1]), d, Running)
            && Step(Step(e, f[0]), f[1]).current == d
  {
  }

  /** A task that finishes task_exit while it is running is made ready by schedule(). */
  lemma {:induction false} FinishRunningBreaks(s: Sys)
    requires Taken(s.table, s.current) && s.current != 0 && s.table[s.current].value.state == Running && Leaving(s)
    requires Taken(s.table, 0) && Taken(s.table, s.table[s.current].value.ppid)
    requires s.table[s.current].value.ppid != s.current
    requires s.exiting == {s.current}
    ensures var e, d := Step(s, Finishes(0)), s.current;
            && Enabled(s, Finishes(0)) && !Leaving(e) && !Claims(e)
            && Taken(e.table, d) && e.table[d].value.state == Ready && e.table[d].value.serial in e.exits
  {
    var e, d := Step(s, Finishes(0)), s.current;
    assert e.table[d].value.serial == s.table[d].value.serial;
    assert !Dead(e.table, d);
  }

  lemma {:induction false} SleepBreaks(s: Sys, op: TailOp, to: nat) returns (f: seq<Action>)
    requires Sound(s) && Enabled(s, Tail(op, to)) && TailAt(s, op) == Sleeps
    ensures var e := Step(s, Tail(op, to));
            CanRun(e, f) && AllQuiet(e, f) && !Leaving(Run(e, f)) && !Claims(Run(e, f))
  {
    var d, e0 := s.current, Step(s, Tail(op, to));
    SleepLeaves(s, op, to);
    SleepComesBack(s, e0, d);
    var e1 := Step(e0, Unblocks(d));
    var e2 := Step(e1, Gives(d));
    FinishRunningBreaks(e2);
    var e3 := Step(e2, Finishes(0));
    OneStep(e2, Finishes(0));
    StepThen(e1, Gives(d), [Finishes(0)]);
    StepThen(e0, Unblocks(d), [Gives(d)] + [Finishes(0)]);
    f := [Unblocks(d)] + ([Gives(d)] + [Finishes(0)]);
  }

  lemma {:induction false} OneStep(s: Sys, a: Action)
    requires Enabled(s, a)
    ensures CanRun(s, [a]) && Run(s, [a]) == Step(s, a) && (AllQuiet(s, [a]) <==> Quiet(s, a))
  {
    assert [a][1..] == [];
  }

  lemma {:induction false} StepThen(s: Sys, a: Action, f: seq<Action>)
    requires Enabled(s, a) && CanRun(Step(s, a), f)
    ensures CanRun(s, [a] + f) && Run(s, [a] + f) == Run(Step(s, a), f)
    ensures AllQuiet(s, [a] + f) <==> Quiet(s, a) && AllQuiet(Step(s, a), f)
  {
    assert ([a] + f)[1..] == f;
  }

  lemma {:induction false} TailBreaks(s: Sys, a: Action) returns (f: seq<Action>)
    requires Sound(s) && Enabled(s, a) && !Quiet(s, a)
    ensures var e := Step(s, a);
            CanRun(e, f) && AllQuiet(e, f) && !Leaving(Run(e, f)) && !Claims(Run(e, f))
  {
    if TailAt(s, a.op) == Yields {
      YieldBreaks(s, a.op, a.to);
      f := [];
    } else {
      f := SleepBreaks(s, a.op, a.to);
    }
  }

  lemma {:induction false} PrefixStep(s: Sys, run: seq<Action>, j: nat)
    requires 1 <= j <= |run| && Enabled(s, run[0])
    ensures CanRun(s, run[..j]) <==> CanRun(Step(s, run[0]), run[1..][..j - 1])
    ensures CanRun(s, run[..j]) ==> Run(s, run[..j]) == Run(Step(s, run[0]), run[1..][..j - 1])
  {
    assert run[..j][1..] == run[1..][..j - 1] && run[..j][0] == run[0];
  }

  lemma {:induction false} TailRunBreaks(s: Sys, run: seq<Action>) returns (j: nat, f: seq<Action>)
    requires Sound(s) && CanRun(s, run) && !AllQuiet(s, run)
    ensures j <= |run| && !ClaimsKept(s, run, j, f)
    decreases |run|
  {
    if !Quiet(s, run[0]) {
      f := TailBreaks(s, run[0]);
      j := 1;
      PrefixStep(s, run, j);
      assert run[1..][..0] == [];
    } else {
      StepKeepsInv(s, run[0]);
      j, f := TailRunBreaks(Step(s, run[0]), run[1..]);
      j := j + 1;
      PrefixStep(s, run, j);
    }
  }

  /** The claims hold, wherever a run is broken off and however it goes on quietly, exactly when
      every task met, between TASK_DIED and the end of its task_exit, an empty request list, a
      free lock, a ready port and nobody to hand the lock to. */
  lemma {:induction false} ClaimsHoldIff(s: Sys, run: seq<Action>)
    requires Sound(s) && CanRun(s, run)
    ensures AllQuiet(s, run) <==> forall j: nat, f :: ClaimsKept(s, run, j, f)
  {
    if AllQuiet(s, run) {
      forall j: nat, f
        ensures ClaimsKept(s, run, j, f)
      {
        QuietRunKeeps(s, run, j, f);
      }
    } else {
      var j, f := TailRunBreaks(s, run);
    }
  }

  // ----- A parent that waits for ever ---------------------------------------

  /** Task p waits for its child d alone, and d has died in the middle of task_exit. */
  ghost predicate Stuck(s: Sys, p: nat, d: nat) {
    && p != 0 && d != 0 && p != d && s.current != p && s.current != d
    && Taken(s.table, p) && s.table[p].value.state == Waiting && s.table[p].value.waitpid == d
    && Dead(s.table, d) && s.table[d].value.ppid == p
  }

  lemma FinishKeepsStuck(s: Sys, to: nat, p: nat, d: nat)
    requires Stuck(s, p, d) && Enabled(s, Finishes(to))
    ensures Stuck(Step(s, Finishes(to)), p, d)
  {
  }

  lemma WaitKeepsStuck(s: Sys, pid: int, to: nat, p: nat, d: nat)
    requires Stuck(s, p, d) && Enabled(s, Waits(pid, to))
    ensures Stuck(Step(s, Waits(pid, to)), p, d)
  {
    ScanFinds(s.table, s.current, pid, 2, false);
  }

  lemma StepKeepsStuck(s: Sys, a: Action, p: nat, d: nat)
    requires Stuck(s, p, d) && Enabled(s, a)
    ensures Stuck(Step(s, a), p, d)
  {
    match a
    case Finishes(to) => FinishKeepsStuck(s, to, p, d);
    case Waits(pid, to) => WaitKeepsStuck(s, pid, to, p, d);
    case _ =>
  }

  /** Nothing that happens wakes the parent, or takes the child out of the table. */
  lemma {:induction false} StuckForEver(s: Sys, f: seq<Action>, p: nat, d: nat)
    requires Stuck(s, p, d) && CanRun(s, f)
    ensures Stuck(Run(s, f), p, d)
    decreases |f|
  {
    if f == [] {
    } else {
      StepKeepsStuck(s, f[0], p, d);
      StuckForEver(Step(s, f[0]), f[1..], p, d);
    }
  }

  /** So it is for every task that yields in task_exit while its parent waits for it alone. */
  lemma YieldStrandsParent(s: Sys, op: TailOp, to: nat)
    requires Sound(s) && Enabled(s, Tail(op, to)) && TailAt(s, op) == Yields
    requires var p := s.table[s.current].value.ppid;
             Taken(s.table, p) && s.table[p].value.state == Waiting && s.table[p].value.waitpid == s.current
    ensures Stuck(Step(s, Tail(op, to)), s.table[s.current].value.ppid, s.current)
  {
    assert Taken(Revived(s).table, 0) && Taken(Revived(s).table, s.current);
  }

  /** init forks task 3 and waits for it; task 3 exits, takes the lock of the serial port, which
      is free, while one task that was woken for it earlier still waits, and releases it. */
  function YieldingExit(): seq<Action> {
    [Gives(1), Forks, Waits(3, 3), Dies(0), Meets(Env(0, false, 1, true)), Tail(Acquire, 2), Tail(Release, 2)]
  }

  /** Idle, test, init and its child 3, in given states; the other slots are empty. */
  ghost predicate Scene(s: Sys, init: State, child: State, current: nat) {
    && |s.table| == NR_TASKS && s.current == current
    && Taken(s.table, 0) && Taken(s.table, 1) && Taken(s.table, 2) && Taken(s.table, 3)
    && (forall i :: 4 <= i < NR_TASKS ==> s.table[i] == None)
    && s.table[0].value.state == Ready && s.table[2].value.state == (if current == 2 then Running else Ready)
    && s.table[1].value.state == init && s.table[3].value.state == child
    && s.table[0].value.ppid == s.table[1].value.ppid == s.table[2].value.ppid == 0 && s.table[3].value.ppid == 1
    && s.table[3].value.call == None && s.table[3].value.serial == 3
    && s.table[1].value.call in {None, Some(3)} && (init == Waiting ==> s.table[1].value.waitpid == 3)
  }

  lemma {:induction false} InitForks()
    ensures var run := [Gives(1), Forks];
            && CanRun(Booted(), run)
            && var e := Run(Booted(), run); Scene(e, Running, Ready, 1) && e.exiting == {} && e.exits == map[]
  {
    var s := Booted();
    forall i: nat
      ensures i < NR_TASKS ==> s.table[i] == BootTask(i)
    {
    }
    var s1 := Step(s, Gives(1));
    assert s1.table[0].Some? && s1.table[1].Some? && s1.table[2].Some? && s1.table[3] == None;
    assert FreeSlot(s1.table) == 3;
    OneStep(s1, Forks);
    StepThen(s, Gives(1), [Forks]);
    assert [Gives(1)] + [Forks] == [Gives(1), Forks];
  }

  /** init goes to sleep in waitpid(3). */
  lemma {:induction false} InitWaits(s: Sys, child: State, to: nat)
    requires Scene(s, Running, child, 1) && 1 !in s.exiting && child in {Ready, Blocked}
    requires to == 2 || (to == 3 && child == Ready)
    ensures Enabled(s, Waits(3, to))
    ensures var e := Step(s, Waits(3, to));
            Scene(e, Waiting, if to == 3 then Running else child, to) && e == s.(table := e.table, current := to)
  {
    ScanFinds(s.table, 1, 3, 2, false);
    assert AliveMatch(s.table, 1, 3, 3);
    assert forall j :: !DeadMatch(s.table, 1, 3, j);
  }

  lemma {:induction false} RunJoins(s: Sys, a: seq<Action>, b: seq<Action>)
    requires CanRun(s, a) && CanRun(Run(s, a), b)
    ensures CanRun(s, a + b) && Run(s, a + b) == Run(Run(s, a), b)
    decreases |a|
  {
    if a == [] {
      assert a + b == b;
    } else {
      assert (a + b)[1..] == a[1..] + b;
      RunJoins(Step(s, a[0]), a[1..], b);
    }
  }

  /** Task 3 dies and yields in mutex_unlock. */
  lemma {:induction false} ChildYields(s: Sys)
    requires Scene(s, Waiting, Running, 3) && s.exiting == {}
    ensures var f := [Dies(0), Meets(Env(0, false, 1, true)), Tail(Acquire, 2), Tail(Release, 2)];
            CanRun(s, f) && Stuck(Run(s, f), 1, 3)
  {
    var env := Env(0, false, 1, true);
    var s1 := Step(s, Dies(0));
    var s2 := Step(s1, Meets(env));
    var s3 := Step(s2, Tail(Acquire, 2));
    OneStep(s3, Tail(Release, 2));
    StepThen(s2, Tail(Acquire, 2), [Tail(Release, 2)]);
    StepThen(s1, Meets(env), [Tail(Acquire, 2)] + [Tail(Release, 2)]);
    StepThen(s, Dies(0), [Meets(env)] + ([Tail(Acquire, 2)] + [Tail(Release, 2)]));
    assert [Dies(0)] + ([Meets(env)] + ([Tail(Acquire, 2)] + [Tail(Release, 2)])) ==
           [Dies(0), Meets(env), Tail(Acquire, 2), Tail(Release, 2)];
  }

  /** From the table that task_init leaves: after this run init sleeps in waitpid for a child
      that is dead, and whatever happens then, it sleeps on. */
  lemma {:induction false} ParentWaitsForEver(f: seq<Action>)
    ensures CanRun(Booted(), YieldingExit()) && Stuck(Run(Booted(), YieldingExit()), 1, 3)
    ensures CanRun(Run(Booted(), YieldingExit()), f) ==> Stuck(Run(Run(Booted(), YieldingExit()), f), 1, 3)
  {
    InitForks();
    var a, b := [Gives(1), Forks], [Waits(3, 3)];
    var c := [Dies(0), Meets(Env(0, false, 1, true)), Tail(Acquire, 2), Tail(Release, 2)];
    var s := Run(Booted(), a);
    InitWaits(s, Ready, 3);
    OneStep(s, Waits(3, 3));
    ChildYields(Step(s, Waits(3, 3)));
    RunJoins(s, b, c);
    RunJoins(Booted(), a, b + c);
    assert a + (b + c) == YieldingExit();
    if CanRun(Run(Booted(), YieldingExit()), f) {
      StuckForEver(Run(Booted(), YieldingExit()), f, 1, 3);
    }
  }

  // ----- A child that is not seen to be dead --------------------------------

  /** Task 3 blocks in device_request while it exits; init begins to wait for it; task 3 goes
      on, ends its task_exit, wakes init, and is made ready; init looks again. */
  function BlockingExit(): seq<Action> {
    [Gives(1), Forks, Gives(3), Dies(0), Meets(Env(1, false, 0, true)), Tail(Request, 1),
     Waits(3, 2), Unblocks(3), Gives(3), Finishes(1), Waits(3, 2)]
  }

  /** The child blocks, and init runs. */
  lemma {:induction false} ChildBlocks(s: Sys)
    requires Scene(s, Running, Ready, 1) && s.exiting == {} && s.exits == map[]
    ensures var f := [Gives(3), Dies(0), Meets(Env(1, false, 0, true)), Tail(Request, 1)];
            && CanRun(s, f)
            && var e := Run(s, f); Scene(e, Running, Blocked, 1) && e.exiting == {3} && e.exits == map[]
  {
    var env := Env(1, false, 0, true);
    var s1 := Step(s, Gives(3));
    var s2 := Step(s1, Dies(0));
    var s3 := Step(s2, Meets(env));
    OneStep(s3, Tail(Request, 1));
    StepThen(s2, Meets(env), [Tail(Request, 1)]);
    StepThen(s1, Dies(0), [Meets(env)] + [Tail(Request, 1)]);
    StepThen(s, Gives(3), [Dies(0)] + ([Meets(env)] + [Tail(Request, 1)]));
    assert [Gives(3)] + ([Dies(0)] + ([Meets(env)] + [Tail(Request, 1)])) ==
           [Gives(3), Dies(0), Meets(env), Tail(Request, 1)];
  }

  /** The child goes on to the end of its task_exit, and init is woken. */
  lemma {:induction false} ChildFinishes(s: Sys)
    requires Scene(s, Waiting, Blocked, 2) && s.exiting == {3} && s.exits == map[]
    ensures var f := [Unblocks(3), Gives(3), Finishes(1)];
            && CanRun(s, f)
            && var e := Run(s, f); Scene(e, Running, Ready, 1) && e.exiting == {} && 3 in e.exits
  {
    var s1 := Step(s, Unblocks(3));
    var s2 := Step(s1, Gives(3));
    assert {3} - {3} == {};
    OneStep(s2, Finishes(1));
    StepThen(s1, Gives(3), [Finishes(1)]);
    StepThen(s, Unblocks(3), [Gives(3)] + [Finishes(1)]);
    assert [Unblocks(3)] + ([Gives(3)] + [Finishes(1)]) == [Unblocks(3), Gives(3), Finishes(1)];
  }

  /** init begins to wait, is woken, looks, and sleeps again. */
  lemma {:induction false} InitLooksTwice(s: Sys)
    requires Scene(s, Running, Blocked, 1) && s.exiting == {3} && s.exits == map[]
    ensures var f := [Waits(3, 2)] + ([Unblocks(3), Gives(3), Finishes(1)] + [Waits(3, 2)]);
            && CanRun(s, f)
            && var e := Run(s, f); Scene(e, Waiting, Ready, 2) && e.exiting == {} && 3 in e.exits
  {
    var c, d := [Waits(3, 2)], [Unblocks(3), Gives(3), Finishes(1)];
    InitWaits(s, Blocked, 2);
    OneStep(s, Waits(3, 2));
    var s2 := Run(s, c);
    ChildFinishes(s2);
    var s3 := Run(s2, d);
    InitWaits(s3, Ready, 2);
    OneStep(s3, Waits(3, 2));
    RunJoins(s2, d, c);
    RunJoins(s, c, d + c);
  }

  /** After this run init sleeps in waitpid for task 3, which has exited and is ready, not dead. */
  lemma {:induction false} ChildIsNotSeen()
    ensures CanRun(Booted(), BlockingExit())
    ensures var e := Run(Booted(), BlockingExit());
            Scene(e, Waiting, Ready, 2) && e.exiting == {} && e.table[3].value.serial in e.exits && !Dead(e.table, 3)
  {
    var a, b := [Gives(1), Forks], [Gives(3), Dies(0), Meets(Env(1, false, 0, true)), Tail(Request, 1)];
    var c := [Waits(3, 2)] + ([Unblocks(3), Gives(3), Finishes(1)] + [Waits(3, 2)]);
    InitForks();
    ChildBlocks(Run(Booted(), a));
    InitLooksTwice(Run(Run(Booted(), a), b));
    RunJoins(Run(Booted(), a), b, c);
    RunJoins(Booted(), a, b + c);
    BlockingExitIs();
  }

  lemma BlockingExitIs()
    ensures [Gives(1), Forks] + ([Gives(3), Dies(0), Meets(Env(1, false, 0, true)), Tail(Request, 1)] +
            ([Waits(3, 2)] + ([Unblocks(3), Gives(3), Finishes(1)] + [Waits(3, 2)]))) == BlockingExit()
  {
  }
}
