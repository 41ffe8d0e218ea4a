/** fork, exit and waitpid over the task table (src/kernel/task.c): who is whose parent,
    who waits for whom, and what each waitpid returns. */
module ProcessTree {
  import opened Wrappers

  const NR_TASKS: nat := 64
  const ANY: int := -1

  datatype State = Running | Ready | Blocked | Waiting | Died

  /** A task; its pid is its slot. serial numbers the tasks in the order of their creation.
      call is the argument of a waitpid that the task has begun and not finished. */
  datatype Task = Task(ppid: nat, state: State, waitpid: int, status: int, serial: nat, call: Option<int>)

  /** What a task that closes files and writes to the console meets: the requests on the list
      of the device, whether the mutex of the lock is taken, how many tasks wait for it, and
      whether the serial port takes a byte. */
  datatype Env = Env(requests: nat, locked: bool, waiters: nat, ready: bool)

  /** The table, the running task, the next serial, and what has happened: the status of each
      serial whose task_exit came to its last schedule(), and what waitpid returned for it.
      exiting holds the tasks that are in task_exit behind TASK_DIED and not at its end. */
  datatype Sys = Sys(table: seq<Option<Task>>, current: nat, next: nat, exits: map<nat, int>, reaped: map<nat, int>,
                     exiting: set<nat>, env: Env)

  predicate Taken(table: seq<Option<Task>>, i: nat) {
    i < |table| && table[i].Some?
  }

  predicate Dead(table: seq<Option<Task>>, i: nat) {
    Taken(table, i) && table[i].value.state == Died
  }

  /** Slot i holds a child of p that waitpid(pid) would look at. */
  predicate Matches(table: seq<Option<Task>>, p: nat, pid: int, i: nat) {
    2 <= i && Taken(table, i) && table[i].value.ppid == p && (pid == ANY || pid == i)
  }

  predicate DeadMatch(table: seq<Option<Task>>, p: nat, pid: int, i: nat) {
    Matches(table, p, pid, i) && Dead(table, i)
  }

  predicate AliveMatch(table: seq<Option<Task>>, p: nat, pid: int, i: nat) {
    Matches(table, p, pid, i) && !Dead(table, i)
  }

  // ----- The invariant ------------------------------------------------------

  /** Every parent is in the table, is not dead, and is older than its child. */
  ghost predicate ParentsAlive(table: seq<Option<Task>>) {
    forall i: nat :: Taken(table, i) && i != 0 ==>
                  Taken(table, table[i].value.ppid) && !Dead(table, table[i].value.ppid)
  }

  ghost predicate ParentsOlder(table: seq<Option<Task>>) {
    forall i: nat :: Taken(table, i) && i != 0 && Taken(table, table[i].value.ppid) ==>
                  table[table[i].value.ppid].value.serial < table[i].value.serial
  }

  /** Idle and init stay where they are; idle neither waits nor dies. */
  ghost predicate Rooted(table: seq<Option<Task>>) {
    && |table| == NR_TASKS && Taken(table, 0) && Taken(table, 1)
    && table[0].value.state in {Ready, Running} && table[1].value.ppid == 0
    && table[0].value.call == None
  }

  ghost predicate Served(table: seq<Option<Task>>, t: nat, pid: int) {
    exists i :: DeadMatch(table, t, pid, i)
  }

  ghost predicate Justified(table: seq<Option<Task>>, t: nat) {
    && Taken(table, t) && table[t].value.call == Some(table[t].value.waitpid)
    && (forall i :: !DeadMatch(table, t, table[t].value.waitpid, i))
    && (exists i :: AliveMatch(table, t, table[t].value.waitpid, i))
  }

  /** A waiting task has a child to wait for, and none that is dead already. */
  ghost predicate WaitersJustified(table: seq<Option<Task>>) {
    forall t: nat :: Taken(table, t) && table[t].value.state == Waiting ==> Justified(table, t)
  }

  /** A task that was woken out of waitpid has a dead child to collect. */
  ghost predicate WokenServed(table: seq<Option<Task>>) {
    forall t: nat :: Taken(table, t) && table[t].value.call.Some? && table[t].value.state in {Ready, Running} ==>
                       Served(table, t, table[t].value.call.value)
  }

  ghost predicate CallsOpen(table: seq<Option<Task>>) {
    forall t: nat :: Taken(table, t) && table[t].value.call.Some? ==> table[t].value.state in {Ready, Running, Waiting}
  }

  ghost predicate AtMostRuns(table: seq<Option<Task>>, current: nat) {
    Taken(table, current) && forall t: nat :: Taken(table, t) && table[t].value.state == Running ==> t == current
  }

  ghost predicate SerialsDiffer(table: seq<Option<Task>>) {
    forall i: nat, j: nat ::
      Taken(table, i) && Taken(table, j) && table[i].value.serial == table[j].value.serial ==> i == j
  }

  predicate Holds(table: seq<Option<Task>>, i: nat, serial: nat) {
    Taken(table, i) && table[i].value.serial == serial
  }

  ghost predicate Accounted(s: Sys, k: nat) {
    k in s.reaped || exists i :: Holds(s.table, i, k)
  }

  /** Every task ever made is in the table or was returned by waitpid, not both; the dead
      ones in the table have exited, with their status. */
  ghost predicate Recorded(s: Sys) {
    && (forall k: nat :: k < s.next <==> Accounted(s, k))
    && (forall i: nat :: Taken(s.table, i) ==> s.table[i].value.serial !in s.reaped)
    && (forall i: nat :: Taken(s.table, i) ==> (Dead(s.table, i) <==> s.table[i].value.serial in s.exits))
    && (forall i: nat :: Dead(s.table, i) ==> s.exits[s.table[i].value.serial] == s.table[i].value.status)
    && (forall k :: k in s.reaped ==> k in s.exits && s.exits[k] == s.reaped[k])
    && (forall k :: k in s.exits ==> k < s.next)
  }

  /** What holds also between a state change of the running task and the schedule() after it. */
  ghost predicate Stable(s: Sys) {
    && Rooted(s.table) && ParentsAlive(s.table) && ParentsOlder(s.table) && AtMostRuns(s.table, s.current)
    && WaitersJustified(s.table) && WokenServed(s.table) && CallsOpen(s.table)
    && SerialsDiffer(s.table) && Recorded(s)
  }

  ghost predicate Inv(s: Sys) {
    Stable(s) && s.table[s.current].value.state == Running
  }

  // ----- Operations ---------------------------------------------------------

  /** get_free_task: the first empty slot. */
  function FreeSlot(table: seq<Option<Task>>): (f: nat)
    ensures f <= |table| && (f < |table| ==> table[f] == None)
    ensures forall i :: 0 <= i < f ==> table[i].Some?
    decreases |table|
  {
    if table == [] || table[0] == None then 0 else
    var f := FreeSlot(table[1..]);
    assert forall i :: 1 <= i < 1 + f ==> table[i] == table[1..][i - 1];
    1 + f
  }

  function With(table: seq<Option<Task>>, i: nat, t: Task): seq<Option<Task>>
    requires i < |table|
  {
    table[i := Some(t)]
  }

  /** The child is a copy of its parent, but for its pid, its parent and its state. */
  function Child(t: Task, ppid: nat, serial: nat): Task {
    t.(ppid := ppid, state := Ready, serial := serial)
  }

  /** task_fork; None is the panic for a full table. */
  function Fork(s: Sys): Option<Sys>
    requires Taken(s.table, s.current)
  {
    var f := FreeSlot(s.table);
    if f == |s.table| then None
    else Some(s.(table := With(s.table, f, Child(s.table[s.current].value, s.current, s.next)), next := s.next + 1))
  }

  function Adopt(x: Option<Task>, p: nat, g: nat): Option<Task> {
    if x.Some? && x.value.ppid == p then Some(x.value.(ppid := g)) else x
  }

  /** The children of p become children of g. */
  function Adopted(table: seq<Option<Task>>, p: nat, g: nat): seq<Option<Task>> {
    seq(|table|, i requires 0 <= i < |table| => Adopt(table[i], p, g))
  }

  /** The parent is made ready if it waits for this pid or for any. */
  function Woken(t: Task, pid: nat): Task {
    if t.state == Waiting && (t.waitpid == ANY || t.waitpid == pid) then t.(state := Ready) else t
  }

  /** task_exit, up to its schedule(), if nothing comes between. */
  function Exit(s: Sys, status: int): Sys
    requires Taken(s.table, s.current) && Taken(s.table, s.table[s.current].value.ppid)
  {
    var t := s.table[s.current].value;
    var died := With(s.table, s.current, t.(state := Died, status := status));
    var adopted := Adopted(died, s.current, t.ppid);
    s.(table := With(adopted, t.ppid, Woken(adopted[t.ppid].value, s.current)), exits := s.exits[t.serial := status])
  }

  /** The first two writes of task_exit. */
  function Die(s: Sys, status: int): Sys
    requires Taken(s.table, s.current)
  {
    s.(table := With(s.table, s.current, s.table[s.current].value.(state := Died, status := status)),
       exiting := s.exiting + {s.current})
  }

  /** The end of task_exit up to its schedule(): children handed over, the parent woken. */
  function Finish(s: Sys): Sys
    requires Taken(s.table, s.current) && Taken(s.table, s.table[s.current].value.ppid)
  {
    var t := s.table[s.current].value;
    var adopted := Adopted(s.table, s.current, t.ppid);
    s.(table := With(adopted, t.ppid, Woken(adopted[t.ppid].value, s.current)),
       exits := s.exits[t.serial := t.status], exiting := s.exiting - {s.current})
  }

  /** What the scan of the table by waitpid comes to. */
  datatype Scan = Reap(slot: nat) | Sleep | NoChild

  /** The scan, from slot i on; seen tells whether a living child was passed. */
  function ScanFrom(table: seq<Option<Task>>, p: nat, pid: int, i: nat, seen: bool): Scan
    decreases |table| - i
  {
    if i >= |table| then (if seen then Sleep else NoChild)
    else if DeadMatch(table, p, pid, i) then Reap(i)
    else ScanFrom(table, p, pid, i + 1, seen || Matches(table, p, pid, i))
  }

  /** waitpid finds a dead child and gives its slot free. */
  function Reaped(s: Sys, slot: nat): Sys
    requires Taken(s.table, s.current) && Taken(s.table, slot)
  {
    var child, t := s.table[slot].value, s.table[s.current].value;
    s.(table := s.table[slot := None][s.current := Some(t.(call := None))],
       reaped := s.reaped[child.serial := child.status])
  }

  /** waitpid finds only living children, and blocks. */
  function FallAsleep(s: Sys, pid: int): Sys
    requires Taken(s.table, s.current)
  {
    var t := s.table[s.current].value;
    s.(table := With(s.table, s.current, t.(state := Waiting, waitpid := pid, call := Some(pid))))
  }

  /** schedule() picks a ready task, or idle. */
  predicate CanSwitch(s: Sys, t: nat) {
    Taken(s.table, t) && Taken(s.table, s.current) && (s.table[t].value.state == Ready || t == 0)
  }

  function Switch(s: Sys, t: nat): Sys
    requires CanSwitch(s, t)
  {
    var c := s.table[s.current].value;
    var left := With(s.table, s.current, if c.state == Running then c.(state := Ready) else c);
    s.(table := With(left, t, left[t].value.(state := Running)), current := t)
  }

  // ----- Steps --------------------------------------------------------------

  /** What task_exit does between TASK_DIED and its end that may call schedule(): a request to
      a block device, the wait for a sector in ide_pio_write, a lock of the console or of the
      disk taken, a byte sent to the serial port, a lock released. */
  datatype TailOp = Request | Transfer | Acquire | Send | Release

  datatype Outcome = GoesOn | Sleeps | Yields

  /** task_block behind the guards of device_request, ide_pio_write, mutex_lock and
      serial_write; task_yield behind that of mutex_unlock. */
  function TailOutcome(op: TailOp, env: Env, state: State): Outcome {
    match op
    case Request => if env.requests > 0 then Sleeps else GoesOn
    case Transfer => if state == Running then Sleeps else GoesOn
    case Acquire => if env.locked then Sleeps else GoesOn
    case Send => if !env.ready then Sleeps else GoesOn
    case Release => if env.waiters > 0 then Yields else GoesOn
  }

  /** What the running task does, and to which task schedule() then goes. Unblocks is the
      end of some other wait, of I/O or of sleep; Meets is a change of devices and locks. */
  datatype Action =
    | Forks
    | Dies(status: int)
    | Tail(op: TailOp, to: nat)
    | Finishes(to: nat)
    | Waits(pid: int, to: nat)
    | Gives(to: nat)
    | Blocks(to: nat)
    | Unblocks(t: nat)
    | Meets(env: Env)

  function BlockCurrent(s: Sys): Sys
    requires Taken(s.table, s.current)
  {
    s.(table := With(s.table, s.current, s.table[s.current].value.(state := Blocked)))
  }

  predicate Leaving(s: Sys) {
    s.current in s.exiting
  }

  function TailAt(s: Sys, op: TailOp): Outcome
    requires Taken(s.table, s.current)
  {
    TailOutcome(op, s.env, s.table[s.current].value.state)
  }

  ghost predicate Enabled(s: Sys, a: Action) {
    && Taken(s.table, s.current)
    && (a.Tail? || a.Finishes? ==> Leaving(s))
    && (a.Forks? || a.Dies? || a.Waits? || a.Gives? || a.Blocks? ==> !Leaving(s))
    && (a.Forks? || a.Dies? || a.Blocks? ==> s.current != 0 && s.table[s.current].value.call == None)
    && match a
       case Forks => FreeSlot(s.table) < |s.table|
       case Dies(status) => true
       case Tail(op, to) =>
         (match TailAt(s, op)
          case GoesOn => true
          case Sleeps => CanSwitch(BlockCurrent(s), to)
          case Yields => CanSwitch(s, to))
       case Finishes(to) => Taken(s.table, s.table[s.current].value.ppid) && CanSwitch(Finish(s), to)
       case Waits(pid, to) =>
         && s.current != 0 && s.table[s.current].value.call in {None, Some(pid)}
         && (match ScanFrom(s.table, s.current, pid, 2, false)
             case Reap(slot) => Taken(s.table, slot)
             case Sleep => CanSwitch(FallAsleep(s, pid), to)
             case NoChild => false)
       case Gives(to) => CanSwitch(s, to)
       case Blocks(to) => CanSwitch(BlockCurrent(s), to)
       case Unblocks(t) => Taken(s.table, t) && s.table[t].value.state == Blocked
       case Meets(env) => true
  }

  ghost function Step(s: Sys, a: Action): Sys
    requires Enabled(s, a)
  {
    match a
    case Forks => Fork(s).value
    case Dies(status) => Die(s, status)
    case Tail(op, to) =>
      (match TailAt(s, op)
       case GoesOn => s
       case Sleeps => Switch(BlockCurrent(s), to)
       case Yields => Switch(s, to))
    case Finishes(to) => Switch(Finish(s), to)
    case Waits(pid, to) =>
      (match ScanFrom(s.table, s.current, pid, 2, false)
       case Reap(slot) => Reaped(s, slot)
       case _ => Switch(FallAsleep(s, pid), to))
    case Gives(to) => Switch(s, to)
    case Blocks(to) => Switch(BlockCurrent(s), to)
    case Unblocks(t) => s.(table := With(s.table, t, s.table[t].value.(state := Ready)))
    case Meets(env) => s.(env := env)
  }

  /** The step does not call schedule() in the middle of task_exit: the request list is empty,
      the lock free and nobody waits for it, the port ready. */
  predicate Quiet(s: Sys, a: Action)
    requires Taken(s.table, s.current)
  {
    a.Tail? ==> TailAt(s, a.op) == GoesOn
  }
}
