/** What a parent gets from its child: fork makes the child its own, and waitpid returns the number
    that the child gave to exit (src/kernel/task.c). */
module ProcessChild {
  import opened Wrappers
  import opened ProcessTree
  import opened ProcessRun

  // ----- fork ---------------------------------------------------------------

  /** Slot f was empty, and holds a ready copy of task p, a child of p; no other slot changes. */
  ghost predicate NewChild(s: Sys, e: Sys, p: nat, f: nat) {
    && 2 <= f < |s.table| && |e.table| == |s.table| && !Taken(s.table, f) && Taken(s.table, p) && Taken(e.table, f)
    && (forall i :: 0 <= i < |s.table| && i != f ==> e.table[i] == s.table[i])
    && var x, c := s.table[p].value, e.table[f].value;
       c.ppid == p && c.state == Ready && c.call == None && c.waitpid == x.waitpid && c.status == x.status
  }

  lemma ForkMakesChild(s: Sys, f: nat)
    requires Sound(s) && Enabled(s, Forks) && f == FreeSlot(s.table)
    ensures NewChild(s, Step(s, Forks), s.current, f)
    ensures Step(s, Forks).current == s.current
  {
    assert Taken(s.table, 0) && Taken(s.table, 1);
  }

  /** The forker may wait for it: it is there, and has not exited. */
  lemma ForkerCanWait(s: Sys, f: nat)
    requires Sound(s) && Enabled(s, Forks) && f == FreeSlot(s.table)
    ensures ScanFrom(Step(s, Forks).table, s.current, f, 2, false) == Sleep
  {
    ForkMakesChild(s, f);
    var t := Step(s, Forks).table;
    ScanFinds(t, s.current, f, 2, false);
    assert AliveMatch(t, s.current, f, f);
    assert forall j :: !DeadMatch(t, s.current, f, j);
  }

  /** Nobody else may. */
  lemma OthersCannotWait(s: Sys, f: nat, q: nat)
    requires Sound(s) && Enabled(s, Forks) && f == FreeSlot(s.table) && q != s.current
    ensures ScanFrom(Step(s, Forks).table, q, f, 2, false) == NoChild
  {
    ForkMakesChild(s, f);
    ScanFinds(Step(s, Forks).table, q, f, 2, false);
  }

  /** fork panics exactly when the table is full. */
  lemma ForkFailsIff(s: Sys)
    requires Taken(s.table, s.current)
    ensures Fork(s) == None <==> forall i :: 0 <= i < |s.table| ==> Taken(s.table, i)
  {
    var f := FreeSlot(s.table);
    if f < |s.table| {
      assert !Taken(s.table, f);
    }
  }

  // ----- exit and waitpid ---------------------------------------------------

  /** Task k gave x to exit: as long as it is in the table it is dead with that status, and so it is
      recorded when it ends its task_exit, and when it is collected. */
  ghost predicate Gave(s: Sys, k: nat, x: int) {
    && k < s.next
    && (forall i: nat :: Holds(s.table, i, k) ==> Dead(s.table, i) && s.table[i].value.status == x)
    && (k in s.exits ==> s.exits[k] == x) && (k in s.reaped ==> s.reaped[k] == x)
  }

  /** Who runs is alive, or in the middle of its task_exit; idle is alive. */
  ghost predicate Awake(s: Sys) {
    Taken(s.table, s.current) && (Leaving(s) || !Dead(s.table, s.current)) && !Dead(s.table, 0)
  }

  lemma SoundIsAwake(s: Sys)
    requires Sound(s)
    ensures Awake(s)
  {
    if Leaving(s) {
      assert Taken(Revived(s).table, 0);
    }
  }

  lemma SwitchKeepsGave(s: Sys, t: nat, k: nat, x: int)
    requires Gave(s, k, x) && CanSwitch(s, t) && !Dead(s.table, t)
    ensures Gave(Switch(s, t), k, x)
  {
  }

  /** A change of one task that is not the one in question, or keeps it dead with its status. */
  lemma OneKeepsGave(s: Sys, e: Sys, i: nat, k: nat, x: int)
    requires Gave(s, k, x) && Taken(s.table, i) && Taken(e.table, i) && e.exits == s.exits && e.reaped == s.reaped
    requires e.table == s.table[i := e.table[i]] && e.table[i].value.serial == s.table[i].value.serial
    requires e.next == s.next && !Dead(s.table, i)
    ensures Gave(e, k, x)
  {
    forall j: nat | Holds(e.table, j, k)
      ensures Dead(e.table, j) && e.table[j].value.status == x
    {
      assert Holds(s.table, j, k);
    }
  }

  lemma FinishKeepsGave(s: Sys, k: nat, x: int)
    requires Gave(s, k, x) && Taken(s.table, s.current) && Taken(s.table, s.table[s.current].value.ppid)
    ensures Gave(Finish(s), k, x) && |Finish(s).table| == |s.table|
    ensures forall i: nat :: Dead(Finish(s).table, i) <==> Dead(s.table, i)
  {
    var e := Finish(s);
    assert Holds(s.table, s.current, s.table[s.current].value.serial);
    forall j: nat
      ensures Holds(e.table, j, k) <==> Holds(s.table, j, k)
      ensures Taken(s.table, j) ==> e.table[j].value.status == s.table[j].value.status
    {
    }
  }

  lemma ReapKeepsGave(s: Sys, pid: int, slot: nat, k: nat, x: int)
    requires Gave(s, k, x) && Awake(s) && !Leaving(s) && DeadMatch(s.table, s.current, pid, slot)
    ensures Gave(Reaped(s, slot), k, x)
  {
    var e := Reaped(s, slot);
    assert Holds(s.table, slot, s.table[slot].value.serial);
    forall j: nat | Holds(e.table, j, k)
      ensures Holds(s.table, j, k) && j != slot
    {
    }
  }

  lemma ForkKeepsGave(s: Sys, k: nat, x: int)
    requires Gave(s, k, x) && Taken(s.table, s.current) && FreeSlot(s.table) < |s.table|
    ensures Gave(Fork(s).value, k, x)
  {
    var e := Fork(s).value;
    forall j: nat | Holds(e.table, j, k)
      ensures Holds(s.table, j, k)
    {
    }
  }

  lemma WaitsKeepsGave(s: Sys, pid: int, to: nat, k: nat, x: int)
    requires Gave(s, k, x) && Awake(s) && Enabled(s, Waits(pid, to))
    ensures Gave(Step(s, Waits(pid, to)), k, x)
  {
    ScanFinds(s.table, s.current, pid, 2, false);
    match ScanFrom(s.table, s.current, pid, 2, false)
    case Reap(slot) => ReapKeepsGave(s, pid, slot, k, x);
    case Sleep =>
      OneKeepsGave(s, FallAsleep(s, pid), s.current, k, x);
      SwitchKeepsGave(FallAsleep(s, pid), to, k, x);
    case NoChild =>
  }

  lemma StepKeepsGave(s: Sys, a: Action, k: nat, x: int)
    requires Gave(s, k, x) && Awake(s) && Enabled(s, a) && Quiet(s, a)
    ensures Gave(Step(s, a), k, x)
  {
    match a
    case Forks => ForkKeepsGave(s, k, x);
    case Dies(status) => OneKeepsGave(s, Step(s, a), s.current, k, x);
    case Tail(op, to) =>
    case Finishes(to) =>
      FinishKeepsGave(s, k, x);
      SwitchKeepsGave(Finish(s), to, k, x);
    case Waits(pid, to) => WaitsKeepsGave(s, pid, to, k, x);
    case Gives(to) => SwitchKeepsGave(s, to, k, x);
    case Blocks(to) =>
      OneKeepsGave(s, BlockCurrent(s), s.current, k, x);
      SwitchKeepsGave(BlockCurrent(s), to, k, x);
    case Unblocks(t) => OneKeepsGave(s, Step(s, a), t, k, x);
    case Meets(env) =>
  }

  lemma {:induction false} RunKeepsGave(s: Sys, run: seq<Action>, k: nat, x: int)
    requires Sound(s) && Gave(s, k, x) && CanRun(s, run) && AllQuiet(s, run)
    ensures Gave(Run(s, run), k, x)
    decreases |run|
  {
    if run == [] {
    } else {
      SoundIsAwake(s);
      StepKeepsGave(s, run[0], k, x);
      StepKeepsInv(s, run[0]);
      RunKeepsGave(Step(s, run[0]), run[1..], k, x);
    }
  }

  lemma DiesGave(s: Sys, status: int)
    requires Sound(s) && Enabled(s, Dies(status))
    ensures Gave(Step(s, Dies(status)), s.table[s.current].value.serial, status)
  {
    var k, e := s.table[s.current].value.serial, Step(s, Dies(status));
    assert Holds(s.table, s.current, k) && Accounted(s, k);
    forall i: nat | Holds(e.table, i, k)
      ensures i == s.current
    {
      assert Taken(s.table, i);
    }
  }

  /** From the moment a task calls exit, over every run in which no schedule() falls into a
      task_exit: whoever collects it with waitpid is told the number that it gave. */
  lemma {:induction false} StatusArrives(s: Sys, status: int, run: seq<Action>, pid: int, slot: nat)
    requires Sound(s) && Enabled(s, Dies(status))
    requires CanRun(Step(s, Dies(status)), run) && AllQuiet(Step(s, Dies(status)), run)
    ensures var k, e := s.table[s.current].value.serial, Run(Step(s, Dies(status)), run);
            && (k in e.exits ==> e.exits[k] == status) && (k in e.reaped ==> e.reaped[k] == status)
            && (ScanFrom(e.table, e.current, pid, 2, false) == Reap(slot) && Holds(e.table, slot, k) ==>
                  e.table[slot].value.status == status)
  {
    DiesGave(s, status);
    StepKeepsInv(s, Dies(status));
    RunKeepsGave(Step(s, Dies(status)), run, s.table[s.current].value.serial, status);
  }

  // ----- Orphans ------------------------------------------------------------

  /** The end of task_exit makes the children of the dead task children of its parent, and leaves
      every other task where it was. */
  lemma ExitHandsOver(s: Sys, to: nat, i: nat)
    requires Sound(s) && Enabled(s, Finishes(to)) && Taken(s.table, i)
    ensures var e, g := Step(s, Finishes(to)), s.table[s.current].value.ppid;
            && Taken(e.table, i)
            && e.table[i].value.ppid == if s.table[i].value.ppid == s.current then g else s.table[i].value.ppid
  {
  }

  /** So the parent can wait for them from then on. */
  lemma ParentCanWait(s: Sys, to: nat, i: nat)
    requires Sound(s) && Enabled(s, Finishes(to)) && 2 <= i && Taken(s.table, i)
    requires s.table[i].value.ppid == s.current
    ensures var e, g := Step(s, Finishes(to)), s.table[s.current].value.ppid;
            ScanFrom(e.table, g, i, 2, false) == if Dead(e.table, i) then Reap(i) else Sleep
  {
    ExitHandsOver(s, to, i);
    var e, g := Step(s, Finishes(to)), s.table[s.current].value.ppid;
    ScanFinds(e.table, g, i, 2, false);
    assert Matches(e.table, g, i, i);
    assert forall j :: Matches(e.table, g, i, j) ==> j == i;
    assert Dead(e.table, i) ==> DeadMatch(e.table, g, i, i);
    assert !Dead(e.table, i) ==> AliveMatch(e.table, g, i, i);
  }
}
