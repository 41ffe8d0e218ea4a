/** Every interleaving keeps the lock exclusive and loses no wakeup. */
module LockRun {
  import opened Wrappers
  import opened Lock

  /** The tasks that own the lock after a step are those before it, but for t. */
  lemma OthersOwn(l: Lock, l': Lock, t: nat, u: nat)
    requires |l'.pc| == |l.pc| && |l'.depth| == |l.depth| && u != t
    requires Task(l, u) ==>
        l'.depth[u] == l.depth[u] && (l'.pc[u] == l.pc[u] || (l.pc[u] == Asleep && l'.pc[u] == Woken))
    ensures Owns(l', u) <==> Owns(l, u)
  {
  }

  lemma AcquireKeepsInv(l: Lock, t: nat)
    requires Inv(l) && Enabled(l, t, Acquires)
    ensures Inv(Acquire(l, t))
  {
    var l' := Acquire(l, t);
    forall u: nat
      ensures Owns(l', u) <==> Owns(l, u)
    {
      if u != t {
        OthersOwn(l, l', t, u);
      }
    }
    assert forall u: nat :: At(l', u, Asleep) <==> At(l, u, Asleep);
    assert forall u: nat :: At(l, u, Woken) ==> At(l', u, Woken);
  }

  lemma TryTakes(l: Lock, t: nat)
    requires Inv(l) && Enabled(l, t, Tries) && !l.value
    ensures Inv(Try(l, t))
  {
    var l' := Try(l, t);
    assert !Owns(l, t) && Owns(l', t);
    forall u: nat
      ensures Owns(l', u) <==> u == t
    {
      if u != t {
        OthersOwn(l, l', t, u);
      }
    }
    assert forall u: nat :: At(l', u, Asleep) <==> At(l, u, Asleep);
  }

  lemma TrySleeps(l: Lock, t: nat)
    requires Inv(l) && Enabled(l, t, Tries) && l.value
    ensures Inv(Try(l, t))
  {
    var l' := Try(l, t);
    assert !At(l, t, Asleep);
    forall u: nat
      ensures Owns(l', u) <==> Owns(l, u)
    {
      if u != t {
        OthersOwn(l, l', t, u);
      }
    }
    assert forall u: nat :: At(l', u, Asleep) <==> At(l, u, Asleep) || u == t;
  }

  /** A step inside the lock: the owner moves, and goes on owning it. */
  lemma OwnerKeeps(l: Lock, l': Lock, t: nat)
    requires Inv(l) && Owns(l, t) && l'.value == l.value && l'.waiters == l.waiters
    requires |l'.pc| == |l.pc| && |l'.depth| == |l.depth| && Owns(l', t)
    requires l'.pc[t] !in {Asleep, Woken} && l.pc[t] !in {Asleep, Woken}
    requires forall u: nat :: Task(l, u) && u != t ==> l'.pc[u] == l.pc[u] && l'.depth[u] == l.depth[u]
    requires l'.depth[t] > 0 ==> l'.pc[t] == Idle
    requires l'.holder == if l'.pc[t] in {Idle, Named} then Some(t) else None
    requires l'.repeat == match l'.pc[t] case Idle => l'.depth[t] case Dropped => 1 case _ => 0
    ensures Inv(l')
  {
    forall u: nat
      ensures Owns(l', u) <==> Owns(l, u)
    {
      if u != t {
        OthersOwn(l, l', t, u);
      }
    }
    assert forall u: nat :: At(l', u, Asleep) <==> At(l, u, Asleep);
    assert forall u: nat :: At(l', u, Woken) <==> At(l, u, Woken);
  }

  lemma UnlockFrees(l: Lock, t: nat)
    requires Inv(l) && Enabled(l, t, Unlocks)
    ensures OneOwner(Unlock(l, t)) && Counted(Unlock(l, t))
  {
    var l' := Unlock(l, t);
    assert Owns(l, t);
    if l.waiters != [] {
      assert l.waiters[|l.waiters| - 1] in l.waiters && At(l, l.waiters[|l.waiters| - 1], Asleep);
    }
    forall u: nat
      ensures !Owns(l', u)
    {
      if u != t {
        OthersOwn(l, l', t, u);
      }
      if At(l, u, Asleep) {
        assert !Owns(l, u);
      }
    }
  }

  lemma UnlockWakes(l: Lock, t: nat)
    requires Inv(l) && Enabled(l, t, Unlocks)
    ensures Queued(Unlock(l, t)) && WakeupPending(Unlock(l, t))
  {
    var l', n := Unlock(l, t), |l.waiters|;
    if l.waiters != [] {
      var w := l.waiters[n - 1];
      assert w in l.waiters && At(l, w, Asleep) && At(l', w, Woken);
      forall u: nat
        ensures u in l'.waiters <==> At(l', u, Asleep)
      {
        assert l.waiters == l'.waiters + [w];
        assert u in l.waiters <==> u in l'.waiters || u == w;
        assert u in l.waiters <==> At(l, u, Asleep);
      }
    } else {
      assert forall u: nat :: At(l', u, Asleep) <==> At(l, u, Asleep);
    }
  }

  lemma StepKeepsInv(l: Lock, t: nat, a: Action)
    requires Inv(l) && Enabled(l, t, a)
    ensures Inv(Step(l, t, a))
    ensures AssertionsHold(l, t, a)
  {
    match a
    case Acquires => AcquireKeepsInv(l, t);
    case Tries => if l.value { TrySleeps(l, t); } else { TryTakes(l, t); }
    case Unlocks => assert Owns(l, t); UnlockFrees(l, t); UnlockWakes(l, t);
    case _ => assert Owns(l, t); OwnerKeeps(l, Step(l, t, a), t);
  }

  // ----- Runs ---------------------------------------------------------------

  predicate CanRun(l: Lock, run: seq<(nat, Action)>)
    decreases |run|
  {
    run == [] || (Enabled(l, run[0].0, run[0].1) && CanRun(Step(l, run[0].0, run[0].1), run[1..]))
  }

  function Run(l: Lock, run: seq<(nat, Action)>): Lock
    requires CanRun(l, run)
    decreases |run|
  {
    if run == [] then l else Run(Step(l, run[0].0, run[0].1), run[1..])
  }

  /** lock_init, with n tasks that have not called it yet. */
  function Fresh(n: nat): Lock {
    Lock(false, [], None, 0, seq(n, _ => Idle), seq(n, _ => 0))
  }

  lemma {:induction false} RunKeepsInv(l: Lock, run: seq<(nat, Action)>)
    requires Inv(l) && CanRun(l, run)
    ensures Inv(Run(l, run))
    decreases |run|
  {
    if run == [] {
    } else {
      StepKeepsInv(l, run[0].0, run[0].1);
      RunKeepsInv(Step(l, run[0].0, run[0].1), run[1..]);
    }
  }

  /** Over every interleaving of any number of tasks: no assertion of the code fails, at
      most one task is inside, repeat is how deep it is, and while tasks wait the mutex is
      taken or a woken task is about to try. */
  lemma LockIsSafe(n: nat, run: seq<(nat, Action)>)
    requires CanRun(Fresh(n), run)
    ensures var l := Run(Fresh(n), run);
            && (forall t, a :: Enabled(l, t, a) ==> AssertionsHold(l, t, a))
            && (forall t: nat, u: nat :: Task(l, t) && Task(l, u) && l.depth[t] > 0 && l.depth[u] > 0 ==> t == u)
            && (forall t: nat :: Task(l, t) && l.depth[t] > 0 ==> l.holder == Some(t) && l.repeat == l.depth[t])
            && (l.waiters != [] ==> l.value || exists t :: At(l, t, Woken))
  {
    assert Inv(Fresh(n)) by {
      assert forall t: nat :: !Owns(Fresh(n), t);
    }
    RunKeepsInv(Fresh(n), run);
    var l := Run(Fresh(n), run);
    forall t, a | Enabled(l, t, a)
      ensures AssertionsHold(l, t, a)
    {
      StepKeepsInv(l, t, a);
    }
    assert forall t: nat :: Task(l, t) && l.depth[t] > 0 ==> Owns(l, t);
  }

  /** A sleeper is never stuck for want of a step: the owner, or a woken task, can move,
      and neither of them waits for anybody. */
  lemma SleepersAreServed(l: Lock, t: nat) returns (u: nat, a: Action)
    requires Inv(l) && At(l, t, Asleep)
    ensures u != t && Enabled(l, u, a) && a != Acquires
    ensures Owns(l, u) || (a == Tries && !l.value)
  {
    assert t in l.waiters;
    if l.value {
      u :| Owns(l, u);
      a := match l.pc[u]
        case Got => Names
        case Named => Counts
        case Dropped => Clears
        case Cleared => Unlocks
        case _ => Releases;
    } else {
      u :| At(l, u, Woken);
      a := Tries;
    }
  }

  /** The queue is served in the order of arrival: whoever sleeps before another is woken
      before it. */
  lemma FirstAsleepFirstWoken(l: Lock, t: nat, i: nat, j: nat)
    requires Inv(l) && Enabled(l, t, Unlocks) && i < j < |l.waiters|
    ensures At(Unlock(l, t), l.waiters[i], Asleep) && l.waiters[i] in Unlock(l, t).waiters
    ensures l.waiters[j] in Unlock(l, t).waiters <==> j < |l.waiters| - 1
  {
    var n := |l.waiters|;
    assert l.waiters[i] in l.waiters && l.waiters[j] in l.waiters && l.waiters[n - 1] in l.waiters;
    assert Unlock(l, t).waiters == l.waiters[..n - 1];
    assert Unlock(l, t).waiters[i] == l.waiters[i];
    if j < n - 1 {
      assert Unlock(l, t).waiters[j] == l.waiters[j];
    }
  }
}
