/** The re-entrant lock (src/kernel/mutex.c) as steps of any number of tasks, which may be
    preempted wherever interrupts are on. */
module Lock {
  import opened Wrappers

  /** Where a task stands. Idle: in no lock call. Wants: lock_acquire saw another holder.
      Asleep: on the list of waiters. Woken: taken off it, about to test value again.
      Got: mutex_lock returned. Named: holder is set. Dropped: lock_release has cleared
      holder. Cleared: it has cleared repeat and is about to unlock the mutex. */
  datatype Pc = Idle | Wants | Asleep | Woken | Got | Named | Dropped | Cleared

  /** depth counts the acquires of a task less its releases. The front of waiters is the
      task that went to sleep last. */
  datatype Lock = Lock(value: bool, waiters: seq<nat>, holder: Option<nat>, repeat: nat, pc: seq<Pc>, depth: seq<nat>)

  predicate Task(l: Lock, t: nat) {
    t < |l.pc| && t < |l.depth|
  }

  predicate At(l: Lock, t: nat, p: Pc) {
    Task(l, t) && l.pc[t] == p
  }

  /** Task t has the mutex. */
  predicate Owns(l: Lock, t: nat) {
    Task(l, t) && (l.pc[t] in {Got, Named, Dropped, Cleared} || l.depth[t] > 0)
  }

  // ----- The steps ----------------------------------------------------------

  function Moved(l: Lock, t: nat, p: Pc): Lock
    requires Task(l, t)
  {
    l.(pc := l.pc[t := p])
  }

  /** The test of lock_acquire: one level more for the holder, else on to the mutex. */
  function Acquire(l: Lock, t: nat): Lock
    requires Task(l, t)
  {
    if l.holder == Some(t) then l.(repeat := l.repeat + 1, depth := l.depth[t := l.depth[t] + 1])
    else Moved(l, t, Wants)
  }

  /** One round of the loop of mutex_lock, with interrupts off. */
  function Try(l: Lock, t: nat): Lock
    requires Task(l, t)
  {
    if l.value then Moved(l, t, Asleep).(waiters := [t] + l.waiters)
    else Moved(l, t, Got).(value := true)
  }

  function Name(l: Lock, t: nat): Lock
    requires Task(l, t)
  {
    Moved(l, t, Named).(holder := Some(t))
  }

  function Count(l: Lock, t: nat): Lock
    requires Task(l, t)
  {
    Moved(l, t, Idle).(repeat := 1, depth := l.depth[t := 1])
  }

  /** lock_release: one level less, or the first of three writes that give the lock up. */
  function Release(l: Lock, t: nat): Lock
    requires Task(l, t) && l.depth[t] > 0
  {
    if l.repeat > 1 then l.(repeat := l.repeat - 1, depth := l.depth[t := l.depth[t] - 1])
    else Moved(l, t, Dropped).(holder := None, depth := l.depth[t := 0])
  }

  function Clear(l: Lock, t: nat): Lock
    requires Task(l, t)
  {
    Moved(l, t, Cleared).(repeat := 0)
  }

  /** mutex_unlock: the task that has slept longest is made ready. */
  function Unlock(l: Lock, t: nat): Lock
    requires Task(l, t)
  {
    var u := Moved(l, t, Idle).(value := false);
    if l.waiters == [] || !Task(l, l.waiters[|l.waiters| - 1]) then u
    else Moved(u, l.waiters[|l.waiters| - 1], Woken).(waiters := l.waiters[..|l.waiters| - 1])
  }

  datatype Action = Acquires | Tries | Names | Counts | Releases | Clears | Unlocks

  /** What task t can do next; lock_release is called only by a task that holds the lock. */
  predicate Enabled(l: Lock, t: nat, a: Action) {
    && Task(l, t)
    && match a
       case Acquires => l.pc[t] == Idle
       case Tries => l.pc[t] in {Wants, Woken}
       case Names => l.pc[t] == Got
       case Counts => l.pc[t] == Named
       case Releases => l.pc[t] == Idle && l.depth[t] > 0
       case Clears => l.pc[t] == Dropped
       case Unlocks => l.pc[t] == Cleared
  }

  function Step(l: Lock, t: nat, a: Action): Lock
    requires Enabled(l, t, a)
  {
    match a
    case Acquires => Acquire(l, t)
    case Tries => Try(l, t)
    case Names => Name(l, t)
    case Counts => Count(l, t)
    case Releases => Release(l, t)
    case Clears => Clear(l, t)
    case Unlocks => Unlock(l, t)
  }

  /** The assertions of the code, at the places where they stand. */
  predicate AssertionsHold(l: Lock, t: nat, a: Action)
    requires Enabled(l, t, a)
  {
    match a
    case Names => l.repeat == 0
    case Releases => l.holder == Some(t) && l.repeat >= 1
    case Unlocks => l.value
    case _ => true
  }

  // ----- The invariant ------------------------------------------------------

  ghost predicate OneOwner(l: Lock) {
    && |l.pc| == |l.depth|
    && (forall t, u :: Owns(l, t) && Owns(l, u) ==> t == u)
    && (l.value <==> exists t :: Owns(l, t))
    && (forall t: nat :: Task(l, t) && l.depth[t] > 0 ==> l.pc[t] == Idle)
  }

  /** holder and repeat say who is inside, and how deep. */
  ghost predicate Counted(l: Lock) {
    && (forall t: nat :: l.holder == Some(t) <==> Owns(l, t) && l.pc[t] in {Idle, Named})
    && (forall t: nat :: Owns(l, t) ==>
                           l.repeat == match l.pc[t] case Idle => l.depth[t] case Dropped => 1 case _ => 0)
    && (!l.value ==> l.repeat == 0)
  }

  ghost predicate NoDup(s: seq<nat>) {
    forall i, j :: 0 <= i < j < |s| ==> s[i] != s[j]
  }

  ghost predicate Queued(l: Lock) {
    NoDup(l.waiters) && forall t: nat :: t in l.waiters <==> At(l, t, Asleep)
  }

  /** While tasks wait, somebody has the mutex or is about to ask for it again. */
  ghost predicate WakeupPending(l: Lock) {
    l.waiters != [] ==> l.value || exists t :: At(l, t, Woken)
  }

  ghost predicate Inv(l: Lock) {
    OneOwner(l) && Counted(l) && Queued(l) && WakeupPending(l)
  }
}
