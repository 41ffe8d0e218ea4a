/** Every run keeps the process tree, loses no wakeup, and returns each exited child once. */
module ProcessRun {
  import opened Wrappers
  import opened ProcessTree

  type Table = seq<Option<Task>>

  // ----- fork: a task in an empty slot --------------------------------------

  lemma AddKeepsTree(table: Table, f: nat, c: Task)
    requires f < |table| && table[f] == None && c.state != Died
    requires Taken(table, 0) && ParentsAlive(table) && ParentsOlder(table)
    requires Taken(table, c.ppid) && !Dead(table, c.ppid) && table[c.ppid].value.serial < c.serial
    ensures ParentsAlive(With(table, f, c)) && ParentsOlder(With(table, f, c))
  {
    var t' := With(table, f, c);
    forall i: nat | Taken(t', i) && i != 0
      ensures Taken(t', t'[i].value.ppid) && !Dead(t', t'[i].value.ppid)
      ensures t'[t'[i].value.ppid].value.serial < t'[i].value.serial
    {
      if i != f {
        assert Taken(table, i);
        assert Taken(table, table[i].value.ppid) && !Dead(table, table[i].value.ppid);
      }
    }
  }

  lemma AddKeepsMatches(table: Table, f: nat, c: Task, t: nat, pid: int, i: nat)
    requires f < |table| && table[f] == None && c.state != Died
    ensures DeadMatch(With(table, f, c), t, pid, i) <==> DeadMatch(table, t, pid, i)
    ensures AliveMatch(table, t, pid, i) ==> AliveMatch(With(table, f, c), t, pid, i)
  {
  }

  lemma AddKeepsWaiters(table: Table, f: nat, c: Task)
    requires f < |table| && table[f] == None && c.state == Ready
    requires WaitersJustified(table)
    ensures WaitersJustified(With(table, f, c))
  {
    var t' := With(table, f, c);
    forall t: nat | Taken(t', t) && t'[t].value.state == Waiting
      ensures Justified(t', t)
    {
      assert Taken(table, t) && Justified(table, t);
      var w := table[t].value.waitpid;
      var i :| AliveMatch(table, t, w, i);
      AddKeepsMatches(table, f, c, t, w, i);
      forall j
        ensures !DeadMatch(t', t, w, j)
      {
        AddKeepsMatches(table, f, c, t, w, j);
      }
    }
  }

  lemma AddKeepsCalls(table: Table, f: nat, c: Task)
    requires f < |table| && table[f] == None && c.state == Ready && c.call == None
    requires WokenServed(table) && CallsOpen(table)
    ensures WokenServed(With(table, f, c)) && CallsOpen(With(table, f, c))
  {
    var t' := With(table, f, c);
    forall t: nat | Taken(t', t) && t'[t].value.call.Some? && t'[t].value.state in {Ready, Running}
      ensures Served(t', t, t'[t].value.call.value)
    {
      assert Taken(table, t) && Served(table, t, table[t].value.call.value);
      var i :| DeadMatch(table, t, table[t].value.call.value, i);
      AddKeepsMatches(table, f, c, t, table[t].value.call.value, i);
    }
  }

  lemma SerialsBelow(s: Sys)
    requires Recorded(s)
    ensures forall i: nat :: Taken(s.table, i) ==> s.table[i].value.serial < s.next
  {
    forall i: nat | Taken(s.table, i)
      ensures s.table[i].value.serial < s.next
    {
      assert Holds(s.table, i, s.table[i].value.serial) && Accounted(s, s.table[i].value.serial);
    }
  }

  lemma AddKeepsRecord(s: Sys, f: nat, c: Task)
    requires f < |s.table| && s.table[f] == None && c.state == Ready && c.serial == s.next
    requires SerialsDiffer(s.table) && Recorded(s)
    ensures SerialsDiffer(With(s.table, f, c)) && Recorded(s.(table := With(s.table, f, c), next := s.next + 1))
  {
    SerialsBelow(s);
    assert !Accounted(s, s.next);
    var s' := s.(table := With(s.table, f, c), next := s.next + 1);
    forall k: nat
      ensures k < s'.next <==> Accounted(s', k)
    {
      assert k < s.next <==> Accounted(s, k);
      assert Holds(s'.table, f, s.next);
      forall i: nat | i != f
        ensures Holds(s'.table, i, k) <==> Holds(s.table, i, k)
      {
      }
    }
  }

  lemma ForkKeepsInv(s: Sys, s': Sys)
    requires Inv(s) && Enabled(s, Forks) && s' == Step(s, Forks)
    ensures Inv(s')
  {
    var f, c := FreeSlot(s.table), Child(s.table[s.current].value, s.current, s.next);
    assert s' == s.(table := With(s.table, f, c), next := s.next + 1);
    assert s.table[f] == None && f != s.current;
    assert ParentsAlive(s'.table) && ParentsOlder(s'.table) by {
      SerialsBelow(s);
      AddKeepsTree(s.table, f, c);
    }
    AddKeepsWaiters(s.table, f, c);
    AddKeepsCalls(s.table, f, c);
    AddKeepsRecord(s, f, c);
    assert Rooted(s'.table) && AtMostRuns(s'.table, s'.current);
  }

  // ----- exit ---------------------------------------------------------------

  /** The table after task p, a child of g, exited and its children went to g: what
      schedule() finds, but for the wakeup of g. */
  function Orphaned(table: Table, p: nat, g: nat, status: int): Table
    requires Taken(table, p)
  {
    Adopted(With(table, p, table[p].value.(state := Died, status := status)), p, g)
  }

  lemma OrphanedAt(table: Table, p: nat, g: nat, status: int, i: nat)
    requires Taken(table, p) && table[p].value.ppid == g != p
    ensures var t' := Orphaned(table, p, g, status);
            && |t'| == |table| && (Taken(t', i) <==> Taken(table, i))
            && (Taken(table, i) ==>
                  var x, x' := table[i].value, t'[i].value;
                  && x'.ppid == (if x.ppid == p then g else x.ppid) && x'.serial == x.serial
                  && x'.waitpid == x.waitpid && x'.call == x.call
                  && x'.state == (if i == p then Died else x.state)
                  && x'.status == (if i == p then status else x.status))
  {
  }

  lemma OrphanedKeepsTree(table: Table, p: nat, g: nat, status: int)
    requires Taken(table, p) && p != 0 && table[p].value.ppid == g != p && ParentsAlive(table) && ParentsOlder(table)
    ensures ParentsAlive(Orphaned(table, p, g, status)) && ParentsOlder(Orphaned(table, p, g, status))
  {
    var t' := Orphaned(table, p, g, status);
    forall i: nat | Taken(t', i) && i != 0
      ensures Taken(t', t'[i].value.ppid) && !Dead(t', t'[i].value.ppid)
      ensures t'[t'[i].value.ppid].value.serial < t'[i].value.serial
    {
      OrphanedAt(table, p, g, status, i);
      OrphanedAt(table, p, g, status, g);
      OrphanedAt(table, p, g, status, table[i].value.ppid);
      assert Taken(table, i) && Taken(table, p);
    }
  }

  /** Of the children of a task other than p and g, nothing changes; of those of g, p has died. */
  lemma OrphanedMatches(table: Table, p: nat, g: nat, status: int, t: nat, pid: int, i: nat)
    requires Taken(table, p) && table[p].value.ppid == g != p && t != p
    ensures var t' := Orphaned(table, p, g, status);
            && (t != g ==> (DeadMatch(t', t, pid, i) <==> DeadMatch(table, t, pid, i)))
            && (t != g ==> (AliveMatch(t', t, pid, i) <==> AliveMatch(table, t, pid, i)))
            && (DeadMatch(table, t, pid, i) ==> DeadMatch(t', t, pid, i))
            && (AliveMatch(table, t, pid, i) && i != p ==> AliveMatch(t', t, pid, i))
  {
    OrphanedAt(table, p, g, status, i);
  }

  lemma OrphanedJustified(table: Table, p: nat, g: nat, status: int, t: nat)
    requires Taken(table, p) && table[p].value.ppid == g != p && t != p
    requires Justified(table, t) && (t == g ==> table[g].value.waitpid != ANY && table[g].value.waitpid != p)
    ensures Justified(Orphaned(table, p, g, status), t)
  {
    var t', w := Orphaned(table, p, g, status), table[t].value.waitpid;
    OrphanedAt(table, p, g, status, t);
    var i :| AliveMatch(table, t, w, i);
    OrphanedMatches(table, p, g, status, t, w, i);
    forall j
      ensures !DeadMatch(t', t, w, j)
    {
      OrphanedMatches(table, p, g, status, t, w, j);
      if t == g && j == i {
        assert !Dead(t', i);
      }
    }
  }

  lemma OrphanedServed(table: Table, p: nat, g: nat, status: int, t: nat, pid: int)
    requires Taken(table, p) && table[p].value.ppid == g != p && t != p && Served(table, t, pid)
    ensures Served(Orphaned(table, p, g, status), t, pid)
  {
    var i :| DeadMatch(table, t, pid, i);
    OrphanedMatches(table, p, g, status, t, pid, i);
  }

  // ----- Changes of state that kill nobody ----------------------------------

  /** The same tasks with the same parents, and the same of them dead. */
  ghost predicate SameTree(table: Table, table': Table) {
    && |table'| == |table|
    && forall i: nat ::
         && (Taken(table', i) <==> Taken(table, i)) && (Dead(table', i) <==> Dead(table, i))
         && (Taken(table, i) ==>
             table'[i].value.ppid == table[i].value.ppid && table'[i].value.serial == table[i].value.serial)
         && (Dead(table, i) ==> table'[i].value.status == table[i].value.status)
  }

  lemma SameTreeMatches(table: Table, table': Table, t: nat, pid: int, i: nat)
    requires SameTree(table, table')
    ensures DeadMatch(table', t, pid, i) <==> DeadMatch(table, t, pid, i)
    ensures AliveMatch(table', t, pid, i) <==> AliveMatch(table, t, pid, i)
  {
    assert Taken(table', i) <==> Taken(table, i);
  }

  lemma SameTreeKeepsTree(table: Table, table': Table)
    requires SameTree(table, table') && ParentsAlive(table) && ParentsOlder(table) && SerialsDiffer(table)
    ensures ParentsAlive(table') && ParentsOlder(table') && SerialsDiffer(table')
  {
    forall i: nat | Taken(table', i) && i != 0
      ensures Taken(table', table'[i].value.ppid) && !Dead(table', table'[i].value.ppid)
      ensures table'[table'[i].value.ppid].value.serial < table'[i].value.serial
    {
      assert Taken(table, i);
      assert Taken(table, table[i].value.ppid) && !Dead(table, table[i].value.ppid);
    }
  }

  lemma SameTreeJustified(table: Table, table': Table, t: nat)
    requires SameTree(table, table') && Justified(table, t)
    requires table'[t].Some? ==>
        table'[t].value.call == table[t].value.call && table'[t].value.waitpid == table[t].value.waitpid
    ensures Justified(table', t)
  {
    var w := table[t].value.waitpid;
    assert Taken(table', t);
    var i :| AliveMatch(table, t, w, i);
    SameTreeMatches(table, table', t, w, i);
    forall j
      ensures !DeadMatch(table', t, w, j)
    {
      SameTreeMatches(table, table', t, w, j);
    }
  }

  lemma SameTreeServed(table: Table, table': Table, t: nat, pid: int)
    requires SameTree(table, table') && Served(table, t, pid)
    ensures Served(table', t, pid)
  {
    var i :| DeadMatch(table, t, pid, i);
    SameTreeMatches(table, table', t, pid, i);
  }

  lemma SameTreeKeepsRecord(s: Sys, s': Sys)
    requires Recorded(s) && SameTree(s.table, s'.table) && s' == s.(table := s'.table, current := s'.current)
    ensures Recorded(s')
  {
    forall i, k: nat
      ensures Holds(s'.table, i, k) <==> Holds(s.table, i, k)
    {
      assert Taken(s'.table, i) <==> Taken(s.table, i);
    }
    forall k: nat
      ensures Accounted(s', k) <==> Accounted(s, k)
    {
      if i :| Holds(s.table, i, k) {
        assert Holds(s'.table, i, k);
      }
    }
  }

  /** Only the state of one task changes, and it neither dies, starts nor stops waiting. */
  ghost predicate OneState(table: Table, table': Table, i: nat) {
    && SameTree(table, table') && Taken(table, i)
    && (forall j: nat :: j < |table| && j != i ==> table'[j] == table[j])
    && (table'[i].Some? ==>
          var x, x' := table[i].value, table'[i].value;
          && x'.call == x.call && x'.waitpid == x.waitpid
          && x.state in {Running, Ready, Blocked} && x'.state in {Running, Ready, Blocked}
          && (x.call.Some? ==> x.state in {Running, Ready} && x'.state in {Running, Ready}))
  }

  lemma OneStateKeepsWaits(table: Table, table': Table, i: nat)
    requires OneState(table, table', i) && WaitersJustified(table) && WokenServed(table) && CallsOpen(table)
    ensures WaitersJustified(table') && WokenServed(table') && CallsOpen(table')
  {
    forall t: nat | Taken(table', t) && table'[t].value.state == Waiting
      ensures Justified(table', t)
    {
      assert t != i && Taken(table, t) && Justified(table, t);
      SameTreeJustified(table, table', t);
    }
    forall t: nat | Taken(table', t) && table'[t].value.call.Some? && table'[t].value.state in {Ready, Running}
      ensures Served(table', t, table'[t].value.call.value)
    {
      assert Taken(table, t) && Served(table, t, table[t].value.call.value);
      SameTreeServed(table, table', t, table[t].value.call.value);
    }
    forall t: nat | Taken(table', t) && table'[t].value.call.Some?
      ensures table'[t].value.state in {Ready, Running, Waiting}
    {
      assert Taken(table, t);
    }
  }

  lemma OneStateKeepsStable(s: Sys, s': Sys, i: nat)
    requires Stable(s) && OneState(s.table, s'.table, i) && s' == s.(table := s'.table, current := s'.current)
    requires i == 0 ==> s'.table[0].Some? && s'.table[0].value.state in {Ready, Running}
    requires AtMostRuns(s'.table, s'.current)
    ensures Stable(s')
  {
    SameTreeKeepsTree(s.table, s'.table);
    OneStateKeepsWaits(s.table, s'.table, i);
    SameTreeKeepsRecord(s, s');
    assert Taken(s'.table, 0) && Taken(s'.table, 1) && Taken(s.table, 0);
  }

  lemma SetState(table: Table, i: nat, x: State)
    requires Taken(table, i) && CallsOpen(table) && x in {Running, Ready, Blocked}
    requires table[i].value.state in {Running, Ready, Blocked} && (table[i].value.call.Some? ==> x != Blocked)
    ensures OneState(table, With(table, i, table[i].value.(state := x)), i)
  {
  }

  /** schedule() after a stable state. */
  lemma SwitchKeeps(s: Sys, to: nat)
    requires Stable(s) && CanSwitch(s, to)
    ensures Inv(Switch(s, to))
  {
    var c := s.table[s.current].value;
    var left := With(s.table, s.current, if c.state == Running then c.(state := Ready) else c);
    var m := s.(table := left);
    if c.state == Running {
      SetState(s.table, s.current, Ready);
      OneStateKeepsStable(s, m, s.current);
    } else {
      assert left == s.table;
    }
    SetState(left, to, Running);
    OneStateKeepsStable(m, Switch(s, to), to);
  }

  lemma BlocksKeeps(s: Sys, to: nat)
    requires Inv(s) && Enabled(s, Blocks(to))
    ensures Inv(Step(s, Blocks(to)))
  {
    SetState(s.table, s.current, Blocked);
    OneStateKeepsStable(s, BlockCurrent(s), s.current);
    SwitchKeeps(BlockCurrent(s), to);
  }

  lemma UnblocksKeeps(s: Sys, t: nat)
    requires Inv(s) && Enabled(s, Unblocks(t))
    ensures Inv(Step(s, Unblocks(t)))
  {
    SetState(s.table, t, Ready);
    OneStateKeepsStable(s, Step(s, Unblocks(t)), t);
  }

  // ----- waitpid ------------------------------------------------------------

  /** The scan returns the first dead child that matches; without one it tells whether
      there is a child at all. */
  lemma {:induction false} ScanFinds(table: Table, p: nat, pid: int, i: nat, seen: bool)
    requires 2 <= i && forall j: nat :: j < i ==> !DeadMatch(table, p, pid, j)
    ensures match ScanFrom(table, p, pid, i, seen)
            case Reap(slot) =>
              DeadMatch(table, p, pid, slot) && forall j: nat :: j < slot ==> !DeadMatch(table, p, pid, j)
            case Sleep =>
              (forall j :: !DeadMatch(table, p, pid, j)) && (seen || exists j :: j >= i && AliveMatch(table, p, pid, j))
            case NoChild => !seen && forall j :: j >= i ==> !Matches(table, p, pid, j)
    decreases |table| - i
  {
    if i >= |table| || DeadMatch(table, p, pid, i) {
    } else {
      ScanFinds(table, p, pid, i + 1, seen || Matches(table, p, pid, i));
      if Matches(table, p, pid, i) {
        assert AliveMatch(table, p, pid, i);
      }
    }
  }

  lemma SleepKeepsWaits(table: Table, p: nat, pid: int)
    requires Taken(table, p) && table[p].value.state == Running
    requires WaitersJustified(table) && WokenServed(table) && CallsOpen(table)
    requires forall j :: !DeadMatch(table, p, pid, j)
    requires exists j :: AliveMatch(table, p, pid, j)
    ensures var t' := With(table, p, table[p].value.(state := Waiting, waitpid := pid, call := Some(pid)));
            SameTree(table, t') && WaitersJustified(t') && WokenServed(t') && CallsOpen(t')
  {
    var t' := With(table, p, table[p].value.(state := Waiting, waitpid := pid, call := Some(pid)));
    assert SameTree(table, t');
    forall t: nat | Taken(t', t) && t'[t].value.state == Waiting
      ensures Justified(t', t)
    {
      if t == p {
        forall j
          ensures !DeadMatch(t', p, pid, j)
          ensures AliveMatch(t', p, pid, j) <==> AliveMatch(table, p, pid, j)
        {
          SameTreeMatches(table, t', p, pid, j);
        }
      } else {
        assert Taken(table, t);
        SameTreeJustified(table, t', t);
      }
    }
    forall t: nat | Taken(t', t) && t'[t].value.call.Some? && t'[t].value.state in {Ready, Running}
      ensures Served(t', t, t'[t].value.call.value)
    {
      assert t != p && Taken(table, t);
      SameTreeServed(table, t', t, table[t].value.call.value);
    }
  }

  lemma SleepsStable(s: Sys, pid: int)
    requires Inv(s) && s.current != 0 && ScanFrom(s.table, s.current, pid, 2, false) == Sleep
    ensures Stable(FallAsleep(s, pid))
  {
    ScanFinds(s.table, s.current, pid, 2, false);
    SleepKeepsWaits(s.table, s.current, pid);
    var m := FallAsleep(s, pid);
    SameTreeKeepsTree(s.table, m.table);
    SameTreeKeepsRecord(s, m);
  }

  /** The table after waitpid by task p took the dead child in a slot. */
  function Collected(table: Table, p: nat, slot: nat): Table
    requires Taken(table, p) && slot < |table|
  {
    table[slot := None][p := Some(table[p].value.(call := None))]
  }

  lemma ReapMatches(table: Table, p: nat, slot: nat, t: nat, pid: int, i: nat)
    requires Taken(table, p) && Dead(table, slot) && !Dead(table, p)
    ensures DeadMatch(Collected(table, p, slot), t, pid, i) <==> DeadMatch(table, t, pid, i) && i != slot
    ensures AliveMatch(Collected(table, p, slot), t, pid, i) <==> AliveMatch(table, t, pid, i)
  {
  }

  lemma ReapKeepsTree(table: Table, p: nat, slot: nat)
    requires Taken(table, p) && Dead(table, slot) && !Dead(table, p)
    requires ParentsAlive(table) && ParentsOlder(table) && SerialsDiffer(table)
    ensures var t' := Collected(table, p, slot);
            ParentsAlive(t') && ParentsOlder(t') && SerialsDiffer(t')
  {
    var t' := Collected(table, p, slot);
    forall i: nat | Taken(t', i) && i != 0
      ensures Taken(t', t'[i].value.ppid) && !Dead(t', t'[i].value.ppid)
      ensures t'[t'[i].value.ppid].value.serial < t'[i].value.serial
    {
      assert Taken(table, i);
      assert Taken(table, table[i].value.ppid) && !Dead(table, table[i].value.ppid);
    }
    forall i: nat | Taken(t', i)
      ensures Taken(table, i) && t'[i].value.serial == table[i].value.serial
    {
    }
  }

  lemma ReapKeepsWaits(table: Table, p: nat, slot: nat)
    requires Taken(table, p) && Dead(table, slot) && table[p].value.state == Running && table[slot].value.ppid == p
    requires WaitersJustified(table) && WokenServed(table) && CallsOpen(table)
    ensures var t' := Collected(table, p, slot);
            WaitersJustified(t') && WokenServed(t') && CallsOpen(t')
  {
    var t' := Collected(table, p, slot);
    forall t: nat | Taken(t', t) && t'[t].value.state == Waiting
      ensures Justified(t', t)
    {
      assert Taken(table, t) && Justified(table, t);
      var w := table[t].value.waitpid;
      var i :| AliveMatch(table, t, w, i);
      ReapMatches(table, p, slot, t, w, i);
      forall j
        ensures !DeadMatch(t', t, w, j)
      {
        ReapMatches(table, p, slot, t, w, j);
      }
    }
    forall t: nat | Taken(t', t) && t'[t].value.call.Some? && t'[t].value.state in {Ready, Running}
      ensures Served(t', t, t'[t].value.call.value)
    {
      assert t != p && Taken(table, t) && Served(table, t, table[t].value.call.value);
      var i :| DeadMatch(table, t, table[t].value.call.value, i);
      ReapMatches(table, p, slot, t, table[t].value.call.value, i);
    }
    forall t: nat | Taken(t', t) && t'[t].value.call.Some?
      ensures t'[t].value.state in {Ready, Running, Waiting}
    {
      assert Taken(table, t);
    }
  }

  lemma ReapKeepsRecord(s: Sys, slot: nat)
    requires Taken(s.table, s.current) && Dead(s.table, slot) && !Dead(s.table, s.current)
    requires SerialsDiffer(s.table) && Recorded(s)
    ensures Recorded(Reaped(s, slot))
  {
    var s', serial := Reaped(s, slot), s.table[slot].value.serial;
    assert Holds(s.table, slot, serial) && Accounted(s, serial);
    forall k: nat
      ensures Accounted(s', k) <==> Accounted(s, k)
    {
      forall i: nat
        ensures Holds(s'.table, i, k) <==> Holds(s.table, i, k) && i != slot
      {
      }
      if i :| Holds(s.table, i, k) && i != slot {
        assert Holds(s'.table, i, k);
      }
    }
    forall i: nat | Taken(s'.table, i)
      ensures s'.table[i].value.serial != serial && s'.table[i].value.serial == s.table[i].value.serial
      ensures Dead(s'.table, i) <==> Dead(s.table, i)
      ensures Dead(s.table, i) ==> s'.table[i].value.status == s.table[i].value.status
    {
      assert Taken(s.table, i) && i != slot;
    }
  }

  lemma ReapedKeeps(s: Sys, pid: int, slot: nat)
    requires Inv(s) && s.current != 0 && ScanFrom(s.table, s.current, pid, 2, false) == Reap(slot)
    ensures Taken(s.table, slot) && Inv(Reaped(s, slot))
  {
    ScanFinds(s.table, s.current, pid, 2, false);
    var s' := Reaped(s, slot);
    assert s'.table == Collected(s.table, s.current, slot);
    assert Rooted(s'.table) && AtMostRuns(s'.table, s'.current);
    ReapKeepsTree(s.table, s.current, slot);
    ReapKeepsWaits(s.table, s.current, slot);
    assert Recorded(s') by {
      ReapKeepsRecord(s, slot);
    }
  }

  // ----- exit, all of it ----------------------------------------------------

  lemma WokenKeepsTree(o: Table, g: nat, p: nat)
    requires Taken(o, g)
    ensures SameTree(o, With(o, g, Woken(o[g].value, p)))
  {
  }

  lemma ExitTable(s: Sys, status: int)
    requires Inv(s) && s.current != 0
    ensures var p, g := s.current, s.table[s.current].value.ppid;
            var o := Orphaned(s.table, p, g, status);
            && g != p && Taken(s.table, g) && Taken(o, g) && o[g].value.state == s.table[g].value.state
            && Exit(s, status).table == With(o, g, Woken(o[g].value, p))
            && SameTree(o, Exit(s, status).table)
  {
    var p, g := s.current, s.table[s.current].value.ppid;
    assert Taken(s.table, p) && Taken(s.table, g);
    OrphanedAt(s.table, p, g, status, g);
    WokenKeepsTree(Orphaned(s.table, p, g, status), g, p);
  }

  /** Is the parent woken by the exit of p? */
  predicate Wakes(x: Task, p: nat) {
    x.state == Waiting && (x.waitpid == ANY || x.waitpid == p)
  }

  lemma ExitJustified(s: Sys, status: int, t: nat)
    requires Inv(s) && s.current != 0 && Taken(Exit(s, status).table, t)
        && Exit(s, status).table[t].value.state == Waiting
    ensures Justified(Exit(s, status).table, t)
  {
    var p, g, t' := s.current, s.table[s.current].value.ppid, Exit(s, status).table;
    var o := Orphaned(s.table, p, g, status);
    ExitTable(s, status);
    OrphanedAt(s.table, p, g, status, t);
    assert t != p && Taken(s.table, t) && s.table[t].value.state == Waiting;
    OrphanedJustified(s.table, p, g, status, t);
    SameTreeJustified(o, t', t);
  }

  lemma ExitServed(s: Sys, status: int, t: nat)
    requires Inv(s) && s.current != 0 && Taken(Exit(s, status).table, t) && s.table[s.current].value.call == None
    requires var x := Exit(s, status).table[t].value; x.call.Some? && x.state in {Ready, Running}
    ensures Served(Exit(s, status).table, t, Exit(s, status).table[t].value.call.value)
  {
    var p, g, t' := s.current, s.table[s.current].value.ppid, Exit(s, status).table;
    var o := Orphaned(s.table, p, g, status);
    ExitTable(s, status);
    OrphanedAt(s.table, p, g, status, t);
    OrphanedAt(s.table, p, g, status, p);
    assert t != p && Taken(s.table, t);
    var w := t'[t].value.call.value;
    if t == g && Wakes(s.table[g].value, p) {
      assert Justified(s.table, g);
      assert DeadMatch(o, g, w, p);
    } else {
      OrphanedServed(s.table, p, g, status, t, w);
    }
    SameTreeServed(o, t', t, w);
  }

  lemma ExitEntries(s: Sys, status: int, i: nat)
    requires Inv(s) && s.current != 0
    ensures var t' := Exit(s, status).table;
            && (Taken(t', i) <==> Taken(s.table, i)) && (Dead(t', i) <==> Dead(s.table, i) || i == s.current)
            && (Taken(s.table, i) ==>
                  && t'[i].value.serial == s.table[i].value.serial
                  && t'[i].value.status == if i == s.current then status else s.table[i].value.status)
  {
    ExitTable(s, status);
    OrphanedAt(s.table, s.current, s.table[s.current].value.ppid, status, i);
  }

  lemma ExitRecorded(s: Sys, t': Table, status: int)
    requires Recorded(s) && SerialsDiffer(s.table) && Taken(s.table, s.current) && !Dead(s.table, s.current)
    requires forall i: nat ::
               && (Taken(t', i) <==> Taken(s.table, i)) && (Dead(t', i) <==> Dead(s.table, i) || i == s.current)
               && (Taken(s.table, i) ==>
                     && t'[i].value.serial == s.table[i].value.serial
                     && t'[i].value.status == if i == s.current then status else s.table[i].value.status)
    ensures Recorded(s.(table := t', exits := s.exits[s.table[s.current].value.serial := status]))
  {
    var s' := s.(table := t', exits := s.exits[s.table[s.current].value.serial := status]);
    SerialsBelow(s);
    forall i: nat, k: nat
      ensures Holds(t', i, k) <==> Holds(s.table, i, k)
    {
      assert Taken(t', i) <==> Taken(s.table, i);
    }
    forall k: nat
      ensures Accounted(s', k) <==> Accounted(s, k)
    {
      if i :| Holds(s.table, i, k) {
        assert Holds(t', i, k);
      }
    }
  }

  lemma ExitKeepsRecord(s: Sys, status: int)
    requires Inv(s) && s.current != 0
    ensures Recorded(Exit(s, status))
  {
    forall i: nat
      ensures var t' := Exit(s, status).table;
              && (Taken(t', i) <==> Taken(s.table, i)) && (Dead(t', i) <==> Dead(s.table, i) || i == s.current)
              && (Taken(s.table, i) ==>
                    && t'[i].value.serial == s.table[i].value.serial
                    && t'[i].value.status == if i == s.current then status else s.table[i].value.status)
    {
      ExitEntries(s, status, i);
    }
    ExitRecorded(s, Exit(s, status).table, status);
  }

  lemma ExitStable(s: Sys, status: int)
    requires Inv(s) && s.current != 0 && s.table[s.current].value.call == None
    ensures Stable(Exit(s, status))
  {
    var p, g, s' := s.current, s.table[s.current].value.ppid, Exit(s, status);
    var o := Orphaned(s.table, p, g, status);
    ExitTable(s, status);
    assert Rooted(s'.table) && AtMostRuns(s'.table, p) && CallsOpen(s'.table) && SerialsDiffer(o) by {
      forall i: nat
        ensures Taken(o, i) <==> Taken(s.table, i)
        ensures Taken(o, i) ==> o[i].value.serial == s.table[i].value.serial && o[i].value.call == s.table[i].value.call
        ensures Taken(o, i) ==> o[i].value.state == if i == p then Died else s.table[i].value.state
      {
        OrphanedAt(s.table, p, g, status, i);
      }
    }
    OrphanedKeepsTree(s.table, p, g, status);
    SameTreeKeepsTree(o, s'.table);
    forall t: nat | Taken(s'.table, t) && s'.table[t].value.state == Waiting
      ensures Justified(s'.table, t)
    {
      ExitJustified(s, status, t);
    }
    forall t: nat | Taken(s'.table, t) && s'.table[t].value.call.Some? && s'.table[t].value.state in {Ready, Running}
      ensures Served(s'.table, t, s'.table[t].value.call.value)
    {
      ExitServed(s, status, t);
    }
    ExitKeepsRecord(s, status);
  }

  // ----- exit in steps ------------------------------------------------------

  /** The system as it was before the running task set TASK_DIED, but for its status. */
  function Revived(s: Sys): Sys
    requires Taken(s.table, s.current)
  {
    s.(table := With(s.table, s.current, s.table[s.current].value.(state := Running)),
       exiting := s.exiting - {s.current})
  }

  /** Between two calls of schedule() a task may be in the middle of task_exit; no other is,
      and but for its death the table is sound. */
  ghost predicate Sound(s: Sys) {
    Taken(s.table, s.current) &&
    if Leaving(s) then
      && s.exiting == {s.current} && s.current != 0 && Dead(s.table, s.current)
      && s.table[s.current].value.call == None && Inv(Revived(s))
    else
      s.exiting == {} && Inv(s)
  }

  lemma DieKeeps(s: Sys, status: int)
    requires Sound(s) && Enabled(s, Dies(status))
    ensures Sound(Die(s, status))
  {
    var d, p := Die(s, status), s.current;
    var r := Revived(d);
    assert d.exiting - {p} == {};
    assert r.table == With(s.table, p, s.table[p].value.(status := status));
    StatusIsFree(s, r, status);
  }

  /** The status of a living task says nothing. */
  lemma StatusIsFree(s: Sys, r: Sys, status: int)
    requires Inv(s) && r == s.(table := With(s.table, s.current, s.table[s.current].value.(status := status)))
    ensures Inv(r)
  {
    SameTreeKeepsTree(s.table, r.table);
    SameTreeKeepsRecord(s, r);
    OneStateKeepsWaits(s.table, r.table, s.current);
  }

  /** The end of a task_exit that nothing interrupted is the whole of it at once. */
  lemma FinishIsExit(s: Sys)
    requires Sound(s) && Leaving(s) && Taken(s.table, s.table[s.current].value.ppid)
    ensures Finish(s) == Exit(Revived(s), s.table[s.current].value.status)
  {
    var t, r := s.table[s.current].value, Revived(s);
    assert With(r.table, s.current, r.table[s.current].value.(state := Died, status := t.status)) == s.table;
  }

  /** Dying, meeting some state of the devices, and finishing comes to the whole of task_exit. */
  lemma ExitAtOnce(s: Sys, status: int, env: Env)
    requires Sound(s) && Enabled(s, Dies(status))
    ensures Taken(s.table, s.table[s.current].value.ppid)
    ensures var d := Die(s, status).(env := env);
            && Taken(d.table, d.table[d.current].value.ppid)
            && Finish(d) == Exit(s, status).(env := env)
  {
    assert Taken(s.table, s.table[s.current].value.ppid);
    var d := Die(s, status).(env := env);
    assert d.exiting - {s.current} == s.exiting;
  }

  lemma FinishKeeps(s: Sys, to: nat)
    requires Sound(s) && Enabled(s, Finishes(to))
    ensures Sound(Step(s, Finishes(to)))
  {
    FinishIsExit(s);
    ExitStable(Revived(s), s.table[s.current].value.status);
    SwitchKeeps(Finish(s), to);
  }

  lemma UnblocksKeepsSound(s: Sys, t: nat)
    requires Sound(s) && Enabled(s, Unblocks(t))
    ensures Sound(Step(s, Unblocks(t)))
  {
    var u := Step(s, Unblocks(t));
    if Leaving(s) {
      var r := Revived(s);
      UnblocksKeeps(r, t);
      assert Revived(u).table == Step(r, Unblocks(t)).table;
      assert Revived(u) == Step(r, Unblocks(t));
    } else {
      UnblocksKeeps(s, t);
    }
  }

  // ----- Runs ---------------------------------------------------------------

  lemma StepKeepsInv(s: Sys, a: Action)
    requires Sound(s) && Enabled(s, a) && Quiet(s, a)
    ensures Sound(Step(s, a))
  {
    match a
    case Forks => ForkKeepsInv(s, Step(s, a));
    case Dies(status) => DieKeeps(s, status);
    case Tail(op, to) =>
    case Finishes(to) => FinishKeeps(s, to);
    case Waits(pid, to) =>
      if ScanFrom(s.table, s.current, pid, 2, false).Reap? {
        ReapedKeeps(s, pid, ScanFrom(s.table, s.current, pid, 2, false).slot);
      } else {
        SleepsStable(s, pid);
        SwitchKeeps(FallAsleep(s, pid), to);
      }
    case Gives(to) => SwitchKeeps(s, to);
    case Blocks(to) => BlocksKeeps(s, to);
    case Unblocks(t) => UnblocksKeepsSound(s, t);
    case Meets(env) => MeetsKeeps(s, env);
  }

  lemma MeetsKeeps(s: Sys, env: Env)
    requires Sound(s)
    ensures Sound(s.(env := env))
  {
    var u := s.(env := env);
    if Leaving(s) {
      EnvIsFree(Revived(s), Revived(u));
    } else {
      EnvIsFree(s, u);
    }
  }

  lemma EnvIsFree(s: Sys, u: Sys)
    requires Inv(s) && u == s.(env := u.env)
    ensures Inv(u)
  {
    SameTreeKeepsRecord(s, s);
    forall k: nat
      ensures Accounted(u, k) <==> Accounted(s, k)
    {
    }
  }

  ghost predicate CanRun(s: Sys, run: seq<Action>)
    decreases |run|
  {
    run == [] || (Enabled(s, run[0]) && CanRun(Step(s, run[0]), run[1..]))
  }

  ghost function Run(s: Sys, run: seq<Action>): Sys
    requires CanRun(s, run)
    decreases |run|
  {
    if run == [] then s else Run(Step(s, run[0]), run[1..])
  }

  /** No schedule() of the run falls into a task_exit. */
  ghost predicate AllQuiet(s: Sys, run: seq<Action>)
    requires CanRun(s, run)
    decreases |run|
  {
    run == [] || (Quiet(s, run[0]) && AllQuiet(Step(s, run[0]), run[1..]))
  }

  lemma {:induction false} RunKeepsInv(s: Sys, run: seq<Action>)
    requires Sound(s) && CanRun(s, run) && AllQuiet(s, run)
    ensures Sound(Run(s, run))
    decreases |run|
  {
    if run == [] {
    } else {
      StepKeepsInv(s, run[0]);
      RunKeepsInv(Step(s, run[0]), run[1..]);
    }
  }

  /** What waitpid has returned for a task stays what it returned. */
  lemma StepReturnsOnce(s: Sys, a: Action, k: nat)
    requires Sound(s) && Enabled(s, a) && k in s.reaped
    ensures k in Step(s, a).reaped && Step(s, a).reaped[k] == s.reaped[k]
  {
    if a.Waits? && ScanFrom(s.table, s.current, a.pid, 2, false).Reap? {
      var slot := ScanFrom(s.table, s.current, a.pid, 2, false).slot;
      assert Taken(s.table, slot);
    }
  }

  // ----- What callers rely on -----------------------------------------------

  /** A dead child waits to be collected for every task that has not been woken, none of the
      others has one; a dead task has finished its task_exit, and one that has is dead or was
      collected; parents are there and alive. */
  ghost predicate Claims(s: Sys) {
    && (forall t: nat, i: nat :: Taken(s.table, t) && s.table[t].value.state == Waiting ==>
          !DeadMatch(s.table, t, s.table[t].value.waitpid, i))
    && (forall t: nat :: InCall(s, t) ==> ScanFrom(s.table, t, s.table[t].value.call.value, 2, false).Reap?)
    && (forall i: nat :: Taken(s.table, i) ==> (Dead(s.table, i) <==> s.table[i].value.serial in s.exits))
    && ParentsAlive(s.table)
  }

  /** Task t is in waitpid and not asleep. */
  predicate InCall(s: Sys, t: nat) {
    Taken(s.table, t) && s.table[t].value.call.Some? && s.table[t].value.state in {Ready, Running}
  }

  lemma InvClaims(s: Sys)
    requires Inv(s)
    ensures Claims(s)
  {
    forall t: nat, i: nat | Taken(s.table, t) && s.table[t].value.state == Waiting
      ensures !DeadMatch(s.table, t, s.table[t].value.waitpid, i)
    {
      assert Justified(s.table, t);
    }
    forall t: nat | InCall(s, t)
      ensures ScanFrom(s.table, t, s.table[t].value.call.value, 2, false).Reap?
    {
      assert Served(s.table, t, s.table[t].value.call.value);
      ScanFinds(s.table, t, s.table[t].value.call.value, 2, false);
    }
  }

  /** Over every run from a sound table in which no schedule() falls into a task_exit, whenever
      no task is in the middle of one: no waiting task has a dead child that it waits for, a
      woken one has, the dead are those that exited, parents live; each exited task was returned
      at most once and with its own status, and every task ever made was returned or is in the
      table. */
  lemma {:induction false} NoLostWakeup(s: Sys, run: seq<Action>)
    requires Sound(s) && CanRun(s, run) && AllQuiet(s, run) && !Leaving(Run(s, run))
    ensures var e := Run(s, run);
            && Claims(e)
            && (forall k :: k in s.reaped ==> k in e.reaped && e.reaped[k] == s.reaped[k])
            && (forall k :: k in e.reaped ==>
                              k in e.exits && e.reaped[k] == e.exits[k] && !exists i :: Holds(e.table, i, k))
            && (forall k: nat :: k < e.next ==> k in e.reaped || exists i :: Holds(e.table, i, k))
  {
    RunKeepsInv(s, run);
    RunReturnsOnce(s, run);
    var e := Run(s, run);
    InvClaims(e);
    forall k: nat | k < e.next
      ensures k in e.reaped || exists i :: Holds(e.table, i, k)
    {
      assert Accounted(e, k);
    }
  }

  lemma {:induction false} RunReturnsOnce(s: Sys, run: seq<Action>)
    requires Sound(s) && CanRun(s, run) && AllQuiet(s, run)
    ensures forall k :: k in s.reaped ==> k in Run(s, run).reaped && Run(s, run).reaped[k] == s.reaped[k]
    decreases |run|
  {
    if run == [] {
    } else {
      StepKeepsInv(s, run[0]);
      RunReturnsOnce(Step(s, run[0]), run[1..]);
      forall k | k in s.reaped
        ensures k in Step(s, run[0]).reaped && Step(s, run[0]).reaped[k] == s.reaped[k]
      {
        StepReturnsOnce(s, run[0], k);
      }
    }
  }

  /** The task that waitpid returns had exited with that status and was not returned before. */
  lemma WaitpidReturns(s: Sys, pid: int, slot: nat)
    requires Inv(s) && ScanFrom(s.table, s.current, pid, 2, false) == Reap(slot)
    ensures Taken(s.table, slot) && s.table[slot].value.ppid == s.current && (pid == ANY || pid == slot)
    ensures var child := s.table[slot].value;
            child.serial !in s.reaped && child.serial in s.exits && s.exits[child.serial] == child.status
  {
    ScanFinds(s.table, s.current, pid, 2, false);
  }

  /** waitpid reads through a null pointer exactly when the caller has no such child. */
  lemma WaitpidFaultsIff(table: Table, p: nat, pid: int)
    ensures ScanFrom(table, p, pid, 2, false) == NoChild <==> forall i :: !Matches(table, p, pid, i)
  {
    ScanFinds(table, p, pid, 2, false);
  }

  /** The n-th ancestor of a task. */
  function Up(table: Table, i: nat, n: nat): nat
    decreases n
  {
    if n == 0 || !Taken(table, i) then i else Up(table, table[i].value.ppid, n - 1)
  }

  /** The parent links form a tree with idle at its root. */
  lemma {:induction false} EveryTaskDescendsFromIdle(table: Table, i: nat) returns (n: nat)
    requires ParentsAlive(table) && ParentsOlder(table) && Taken(table, i)
    ensures Up(table, i, n) == 0
    decreases table[i].value.serial
  {
    if i == 0 {
      n := 0;
    } else {
      n := EveryTaskDescendsFromIdle(table, table[i].value.ppid);
      n := n + 1;
    }
  }

  function BootTask(i: nat): Option<Task> {
    if i == 0 then Some(Task(0, Running, 0, 0, 0, None))
    else if i < 3 then Some(Task(0, Ready, 0, 0, i, None)) else None
  }

  /** The table that task_init leaves: idle, init and test. */
  function Booted(): Sys {
    Sys(seq(NR_TASKS, i requires i >= 0 => BootTask(i)), 0, 3, map[], map[], {}, Env(0, false, 0, true))
  }

  lemma BootTaken(i: nat)
    ensures Taken(Booted().table, i) <==> i < 3
    ensures i < 3 ==> Booted().table[i] == BootTask(i) && Holds(Booted().table, i, i)
  {
  }

  lemma BootRecorded()
    ensures Recorded(Booted()) && SerialsDiffer(Booted().table)
  {
    var s := Booted();
    forall i: nat
      ensures Taken(s.table, i) <==> i < 3
      ensures i < 3 ==> s.table[i] == BootTask(i) && Holds(s.table, i, i)
    {
      BootTaken(i);
    }
    forall k: nat
      ensures k < 3 <==> Accounted(s, k)
    {
      assert k < 3 ==> Holds(s.table, k, k);
      if i :| Holds(s.table, i, k) {
        assert i == k;
      }
    }
  }

  lemma BootedInv()
    ensures Inv(Booted())
  {
    var s := Booted();
    BootRecorded();
    forall i: nat
      ensures Taken(s.table, i) <==> i < 3
      ensures i < 3 ==> s.table[i] == BootTask(i)
    {
      BootTaken(i);
    }
  }
}
