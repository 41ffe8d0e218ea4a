/** task_table as it runs: an array of slots that fork, waitpid and exit change in place. */
module ProcessTable {
  import opened Wrappers
  import opened ProcessTree
  import opened ProcessRun

  /** What one round of the loop of task_waitpid comes to; Faults is a null pointer. */
  datatype Outcome = Returns(pid: nat, status: int) | Sleeping | Faults

  lemma FreeSlotFrom(table: Table, f: nat)
    requires f <= |table| && (forall i :: 0 <= i < f ==> table[i].Some?) && (f < |table| ==> table[f] == None)
    ensures FreeSlot(table) == f
  {
  }

  /** next, exits and reaped only record what happened; the kernel has no such fields. */
  class Tasks {
    const table: array<Option<Task>>
    var current: nat
    var next: nat
    var exits: map<nat, int>
    var reaped: map<nat, int>
    /** The tasks whose saved eip is in task_exit, and what devices and locks are like. */
    var exiting: set<nat>
    var env: Env

    ghost function State(): Sys
      reads this, table
    {
      Sys(table[..], current, next, exits, reaped, exiting, env)
    }

    /** The search of get_free_task. */
    method FindFree() returns (f: nat)
      ensures f == FreeSlot(table[..])
    {
      f := 0;
      while f < table.Length && table[f].Some?
        invariant f <= table.Length && forall i :: 0 <= i < f ==> table[i].Some?
      {
        f := f + 1;
      }
      FreeSlotFrom(table[..], f);
    }

    /** task_fork; a full table is a panic. */
    method ForkTask() returns (ok: bool, pid: nat)
      requires Taken(table[..], current)
      modifies this`next, table
      ensures ok <==> Fork(old(State())).Some?
      ensures ok ==> Fork(old(State())) == Some(State()) && pid == FreeSlot(old(table[..]))
    {
      ghost var s := State();
      pid := FindFree();
      if pid == table.Length {
        return false, 0;
      }
      table[pid] := Some(table[current].value.(ppid := current, state := Ready, serial := next));
      next := next + 1;
      ok := true;
      assert table[..] == With(s.table, pid, Child(s.table[current].value, current, s.next));
    }

    /** The loop of task_exit that gives the children of p to g. */
    method Adoption(p: nat, g: nat)
      modifies table
      ensures table[..] == Adopted(old(table[..]), p, g)
    {
      for i := 0 to table.Length
        invariant forall j :: 0 <= j < table.Length ==>
            table[j] == if j < i then Adopt(old(table[j]), p, g) else old(table[j])
      {
        if table[i].Some? && table[i].value.ppid == p {
          table[i] := Some(table[i].value.(ppid := g));
        }
      }
    }

    /** The first writes of task_exit. */
    method Die(status: int)
      requires Taken(table[..], current)
      modifies this`exiting, table
      ensures State() == ProcessTree.Die(old(State()), status)
    {
      ghost var s := State();
      table[current] := Some(table[current].value.(state := Died, status := status));
      exiting := exiting + {current};
      assert table[..] == With(s.table, current, s.table[current].value.(state := Died, status := status));
    }

    /** The end of task_exit, up to its schedule(). */
    method Finish()
      requires Taken(table[..], current) && Taken(table[..], table[current].value.ppid)
      modifies this`exits, this`exiting, table
      ensures State() == ProcessTree.Finish(old(State()))
    {
      var t := table[current].value;
      exits, exiting := exits[t.serial := t.status], exiting - {current};
      Adoption(current, t.ppid);
      ghost var adopted := table[..];
      var parent := table[t.ppid].value;
      if parent.state == Waiting && (parent.waitpid == ANY || parent.waitpid == current) {
        table[t.ppid] := Some(parent.(state := Ready));
      }
      assert table[..] == With(adopted, t.ppid, Woken(adopted[t.ppid].value, current));
    }

    /** task_exit, up to its schedule(); stops says for each device, lock and port that it comes
        to what it finds. gone is false when one of them makes it call schedule() on the way. */
    method ExitTask(status: int, stops: seq<(TailOp, Env)>) returns (gone: bool)
      requires ProcessRun.Sound(State()) && Enabled(State(), Dies(status))
      modifies this`exits, this`exiting, this`env, table
      ensures gone <==> forall i :: 0 <= i < |stops| ==> TailOutcome(stops[i].0, stops[i].1, Died) == GoesOn
      ensures gone ==> State() == Exit(old(State()), status).(env := env)
      ensures !gone ==> State() == ProcessTree.Die(old(State()), status).(env := env)
    {
      ghost var s := State();
      Die(status);
      gone := Pass(stops);
      if gone {
        ExitAtOnce(s, status, env);
        Finish();
      }
    }

    /** What a dead task comes to on its way to the end. */
    method Pass(stops: seq<(TailOp, Env)>) returns (through: bool)
      requires Dead(table[..], current)
      modifies this`env
      ensures through <==> forall i :: 0 <= i < |stops| ==> TailOutcome(stops[i].0, stops[i].1, Died) == GoesOn
    {
      for i := 0 to |stops|
        invariant forall j :: 0 <= j < i ==> TailOutcome(stops[j].0, stops[j].1, Died) == GoesOn
      {
        env := stops[i].1;
        if TailOutcome(stops[i].0, env, table[current].value.state) != GoesOn {
          return false;
        }
      }
      return true;
    }

    /** One round of the loop of task_waitpid: it frees the slot of a dead child, or blocks
        for a living one; without a child it reads through a null pointer. */
    method WaitRound(pid: int) returns (r: Outcome)
      requires Taken(table[..], current) && table.Length == NR_TASKS
      modifies this`reaped, table
      ensures match ScanFrom(old(table[..]), current, pid, 2, false)
              case Reap(slot) =>
                && Taken(old(table[..]), slot) && State() == Reaped(old(State()), slot)
                && r == Returns(slot, old(table[..])[slot].value.status)
              case Sleep => r == Sleeping && State() == FallAsleep(old(State()), pid)
              case NoChild => r == Faults && State() == old(State())
    {
      ghost var s := State();
      var me := table[current].value;
      var seen, i := false, 2;
      while i < NR_TASKS
        invariant 2 <= i <= NR_TASKS && State() == s
        invariant ScanFrom(s.table, current, pid, i, seen) == ScanFrom(s.table, current, pid, 2, false)
      {
        if table[i].Some? && table[i].value.ppid == current && (pid == ANY || pid == i) {
          if table[i].value.state == Died {
            var child := table[i].value;
            assert DeadMatch(s.table, current, pid, i);
            table[i] := None;
            table[current] := Some(me.(call := None));
            reaped := reaped[child.serial := child.status];
            assert table[..] == s.table[i := None][current := Some(s.table[current].value.(call := None))];
            return Returns(i, child.status);
          }
          seen := true;
        }
        i := i + 1;
      }
      if seen {
        table[current] := Some(me.(state := Waiting, waitpid := pid, call := Some(pid)));
        assert table[..] == FallAsleep(s, pid).table;
        return Sleeping;
      }
      return Faults;
    }
  }
}
