/** Runs of task_sleep and of the clock interrupt, against a clock that does not wrap round:
    a sleeper is to be woken by the first interrupt at or after the time it asked for. */
module SleepRun {
  import opened LinkedList
  import opened SleepQueue

  /** A task and the jiffy, counted from boot on, at which its sleep is over. */
  datatype Sleeper = Sleeper(task: nat, due: nat)

  /** The jiffies since boot, of which the kernel keeps 32 bits, and the sleep list. */
  datatype Queue = Queue(clock: nat, list: seq<Sleeper>)

  function Low(t: nat): u32 {
    t % TWO_32
  }

  /** What the kernel keeps of a time in an int. */
  function Key(due: nat): (k: int)
    ensures -TWO_31 <= k < TWO_31 && Unsigned(k) == Low(due)
  {
    SignedUnsigned(Low(due));
    Signed(Low(due))
  }

  function KeysOf(list: seq<Sleeper>): (ks: seq<int>)
    ensures |ks| == |list| && Ints(ks) && forall i :: 0 <= i < |ks| ==> ks[i] == Key(list[i].due)
  {
    seq(|list|, i requires 0 <= i < |list| => Key(list[i].due))
  }

  // ----- The steps ----------------------------------------------------------

  /** list_insert_sort of a sleeper. */
  function Enqueued(list: seq<Sleeper>, s: Sleeper): seq<Sleeper> {
    Inserted(list, Place(KeysOf(list), Key(s.due)), s)
  }

  function NewSleeper(q: Queue, task: nat, ticks: nat): Sleeper {
    Sleeper(task, q.clock + ticks)
  }

  /** task_sleep of so many jiffies. */
  function Asleep(q: Queue, task: nat, ticks: nat): Queue {
    q.(list := Enqueued(q.list, NewSleeper(q, task, ticks)))
  }

  /** The sleepers at the front that task_wakeup takes off. */
  function Front(q: Queue): (n: nat)
    ensures n <= |q.list|
  {
    Due(KeysOf(q.list), Low(q.clock))
  }

  /** The sleepers that it leaves. */
  function Left(list: seq<Sleeper>, now: u32): seq<Sleeper> {
    if list == [] || Unsigned(Key(list[0].due)) > now then list else Left(list[1..], now)
  }

  /** clock_handler: task_wakeup, and then jiffies++. */
  function Interrupt(q: Queue): Queue {
    Queue(q.clock + 1, Left(q.list, Low(q.clock)))
  }

  datatype Action = Sleeps(task: nat, ticks: nat) | Interrupts

  predicate Enabled(a: Action) {
    a.Sleeps? ==> 1 <= a.ticks < TWO_32
  }

  function Step(q: Queue, a: Action): Queue {
    match a
    case Sleeps(task, ticks) => Asleep(q, task, ticks)
    case Interrupts => Interrupt(q)
  }

  /** The interrupt wakes those whose time has come, and no other. */
  ghost predicate OnTime(q: Queue) {
    forall i :: 0 <= i < |q.list| ==> (i < Front(q) <==> q.list[i].due <= q.clock)
  }

  /** The new time lies before the next multiple of 2^32, and on the same side of 2^31 as the
      times that are still pending. */
  ghost predicate Safe(q: Queue, a: Action) {
    a.Sleeps? ==>
      var due := q.clock + a.ticks;
      && due / TWO_32 == q.clock / TWO_32
      && forall i :: 0 <= i < |q.list| ==> q.list[i].due / TWO_31 == due / TWO_31
  }

  // ----- The invariants -----------------------------------------------------

  /** Whatever happens, the list is sorted by what the kernel keeps. */
  ghost predicate Ordered(list: seq<Sleeper>) {
    Sorted(KeysOf(list))
  }

  lemma {:induction false} LeftIs(list: seq<Sleeper>, now: u32)
    ensures Left(list, now) == list[Due(KeysOf(list), now)..]
  {
    var ks := KeysOf(list);
    if list == [] || Unsigned(ks[0]) > now {
    } else {
      LeftIs(list[1..], now);
      assert KeysOf(list[1..]) == ks[1..];
    }
  }

  /** The pending times are not over, lie in the span of 32 bits that the clock is in, and all
      in one half of it. */
  ghost predicate Spans(clock: nat, list: seq<Sleeper>) {
    && (forall i :: 0 <= i < |list| ==> clock <= list[i].due && list[i].due / TWO_32 == clock / TWO_32)
    && forall i, j :: 0 <= i < |list| && 0 <= j < |list| ==> list[i].due / TWO_31 == list[j].due / TWO_31
  }

  ghost predicate Good(q: Queue) {
    Ordered(q.list) && Spans(q.clock, q.list)
  }

  lemma EnqueuedKeys(list: seq<Sleeper>, s: Sleeper)
    ensures KeysOf(Enqueued(list, s)) == EnqueuedKey(KeysOf(list), Key(s.due))
  {
    var a, b := KeysOf(Enqueued(list, s)), EnqueuedKey(KeysOf(list), Key(s.due));
    assert |a| == |b| && forall i :: 0 <= i < |a| ==> a[i] == b[i];
  }

  lemma EnqueuedIs(list: seq<Sleeper>, s: Sleeper)
    ensures multiset(Enqueued(list, s)) == multiset(list) + multiset{s}
  {
    var p := Place(KeysOf(list), Key(s.due));
    assert list == list[..p] + list[p..];
  }

  lemma EnqueuedHas(list: seq<Sleeper>, s: Sleeper, x: Sleeper)
    ensures x in Enqueued(list, s) <==> x == s || x in list
  {
    EnqueuedIs(list, s);
    assert x in Enqueued(list, s) <==> x in multiset(Enqueued(list, s));
    assert x in list <==> x in multiset(list);
  }

  lemma EnqueueKeepsOrder(list: seq<Sleeper>, s: Sleeper)
    requires Ordered(list)
    ensures Ordered(Enqueued(list, s))
  {
    PlaceSorts(KeysOf(list), Key(s.due));
    EnqueuedKeys(list, s);
  }

  lemma SuffixOrdered(list: seq<Sleeper>, n: nat)
    requires n <= |list| && Ordered(list)
    ensures Ordered(list[n..])
  {
    assert KeysOf(list[n..]) == KeysOf(list)[n..];
    SuffixSorted(KeysOf(list), n);
  }

  lemma TickKeepsOrder(q: Queue)
    requires Ordered(q.list)
    ensures Ordered(Interrupt(q).list)
  {
    LeftIs(q.list, Low(q.clock));
    SuffixOrdered(q.list, Front(q));
  }

  /** In one span of 32 bits the low bits are in the order of the times; in one half of it,
      the signed keys all have one sign. */
  lemma LowIsOrdered(a: nat, b: nat)
    requires a / TWO_32 == b / TWO_32
    ensures Low(a) <= Low(b) <==> a <= b
  {
    assert a == a / TWO_32 * TWO_32 + Low(a) && b == b / TWO_32 * TWO_32 + Low(b);
  }

  lemma HalfIsSign(a: nat)
    ensures Key(a) >= 0 <==> (a / TWO_31) % 2 == 0
  {
    var h := a / TWO_31;
    assert a == h * TWO_31 + a % TWO_31;
  }

  lemma GoodIsOnTime(q: Queue)
    requires Good(q)
    ensures OnTime(q)
  {
    var ks := KeysOf(q.list);
    forall i, j | 0 <= i < |ks| && 0 <= j < |ks|
      ensures ks[i] >= 0 <==> ks[j] >= 0
    {
      HalfIsSign(q.list[i].due);
      HalfIsSign(q.list[j].due);
    }
    assert OneSide(ks) by {
      assert ks == [] || ks[0] >= 0 || ks[0] < 0;
    }
    WakeupIsRightIff(ks);
    assert WakesExactly(ks, Low(q.clock));
    forall i | 0 <= i < |q.list|
      ensures i < Front(q) <==> q.list[i].due <= q.clock
    {
      LowIsOrdered(q.list[i].due, q.clock);
    }
  }

  lemma EnqueueKeepsSpan(clock: nat, list: seq<Sleeper>, s: Sleeper)
    requires Spans(clock, list) && clock <= s.due && s.due / TWO_32 == clock / TWO_32
    requires forall i :: 0 <= i < |list| ==> list[i].due / TWO_31 == s.due / TWO_31
    ensures Spans(clock, Enqueued(list, s))
  {
    var l := Enqueued(list, s);
    forall i | 0 <= i < |l|
      ensures clock <= l[i].due && l[i].due / TWO_32 == clock / TWO_32 && l[i].due / TWO_31 == s.due / TWO_31
    {
      EnqueuedHas(list, s, l[i]);
    }
  }

  lemma Between(a: nat, b: nat, c: nat)
    requires a <= b <= c && a / TWO_32 == c / TWO_32
    ensures b / TWO_32 == c / TWO_32
  {
  }

  lemma TickKeepsSpan(q: Queue)
    requires Good(q) && OnTime(q)
    ensures Spans(q.clock + 1, Interrupt(q).list)
  {
    LeftIs(q.list, Low(q.clock));
    var l, n := Interrupt(q).list, Front(q);
    forall i | 0 <= i < |l|
      ensures l[i] == q.list[n + i] && q.clock + 1 <= l[i].due && l[i].due / TWO_32 == (q.clock + 1) / TWO_32
    {
      Between(q.clock, q.clock + 1, q.list[n + i].due);
    }
  }

  lemma TickKeepsGood(q: Queue)
    requires Good(q)
    ensures Good(Interrupt(q))
  {
    GoodIsOnTime(q);
    TickKeepsOrder(q);
    TickKeepsSpan(q);
  }

  lemma StepKeepsGood(q: Queue, a: Action)
    requires Good(q) && Enabled(a) && Safe(q, a)
    ensures Good(Step(q, a))
  {
    match a
    case Sleeps(task, ticks) =>
      EnqueueKeepsOrder(q.list, NewSleeper(q, task, ticks));
      EnqueueKeepsSpan(q.clock, q.list, NewSleeper(q, task, ticks));
    case Interrupts => TickKeepsGood(q);
  }

  // ----- Runs ---------------------------------------------------------------

  predicate AllEnabled(run: seq<Action>) {
    forall i :: 0 <= i < |run| ==> Enabled(run[i])
  }

  function Run(q: Queue, run: seq<Action>): Queue
    decreases |run|
  {
    if run == [] then q else Run(Step(q, run[0]), run[1..])
  }

  ghost predicate AllSafe(q: Queue, run: seq<Action>)
    decreases |run|
  {
    run == [] || (Safe(q, run[0]) && AllSafe(Step(q, run[0]), run[1..]))
  }

  /** Every interrupt of the run wakes those whose time has come, and no other. */
  ghost predicate AllOnTime(q: Queue, run: seq<Action>)
    decreases |run|
  {
    run == [] || ((run[0].Interrupts? ==> OnTime(q)) && AllOnTime(Step(q, run[0]), run[1..]))
  }

  /** The sleepers that a step, and that a run, adds. */
  function Added(q: Queue, a: Action): multiset<Sleeper> {
    if a.Sleeps? then multiset{NewSleeper(q, a.task, a.ticks)} else multiset{}
  }

  function Slept(q: Queue, run: seq<Action>): multiset<Sleeper>
    decreases |run|
  {
    if run == [] then multiset{} else Added(q, run[0]) + Slept(Step(q, run[0]), run[1..])
  }

  /** The list holds those of the sleepers whose time is not over, each of them once. */
  ghost predicate Pending(q: Queue, all: multiset<Sleeper>) {
    forall s :: multiset(q.list)[s] == if s.due >= q.clock then all[s] else 0
  }

  lemma SleepKeepsPending(q: Queue, all: multiset<Sleeper>, task: nat, ticks: nat)
    requires Pending(q, all)
    ensures Pending(Asleep(q, task, ticks), all + multiset{NewSleeper(q, task, ticks)})
  {
    EnqueuedIs(q.list, NewSleeper(q, task, ticks));
  }

  /** What an interrupt that is on time leaves of one sleeper. */
  lemma TickLeaves(q: Queue, s: Sleeper)
    requires OnTime(q)
    ensures multiset(Interrupt(q).list)[s] == if s.due > q.clock then multiset(q.list)[s] else 0
  {
    var n := Front(q);
    LeftIs(q.list, Low(q.clock));
    assert q.list == q.list[..n] + q.list[n..];
    assert s in q.list[..n] ==> s.due <= q.clock;
    assert s in q.list[n..] ==> s.due > q.clock;
  }

  lemma TickKeepsPending(q: Queue, all: multiset<Sleeper>)
    requires OnTime(q) && Pending(q, all)
    ensures Pending(Interrupt(q), all)
  {
    forall s
      ensures multiset(Interrupt(q).list)[s] == if s.due >= q.clock + 1 then all[s] else 0
    {
      TickLeaves(q, s);
    }
  }

  lemma StepKeepsPending(q: Queue, a: Action, all: multiset<Sleeper>)
    requires Pending(q, all) && (a.Interrupts? ==> OnTime(q))
    ensures Pending(Step(q, a), all + Added(q, a))
  {
    match a
    case Sleeps(task, ticks) => SleepKeepsPending(q, all, task, ticks);
    case Interrupts =>
      TickKeepsPending(q, all);
      assert all + multiset{} == all;
  }

  lemma {:induction false} RunKeepsGood(q: Queue, run: seq<Action>)
    requires Good(q) && AllEnabled(run) && AllSafe(q, run)
    ensures Good(Run(q, run)) && AllOnTime(q, run)
    decreases |run|
  {
    if run == [] {
    } else {
      StepKeepsGood(q, run[0]);
      RunKeepsGood(Step(q, run[0]), run[1..]);
      GoodIsOnTime(q);
    }
  }

  lemma SumsJoin(a: multiset<Sleeper>, b: multiset<Sleeper>, c: multiset<Sleeper>)
    ensures a + b + c == a + (b + c)
  {
  }

  lemma {:induction false} RunKeepsPending(q: Queue, run: seq<Action>, all: multiset<Sleeper>)
    requires Pending(q, all) && AllOnTime(q, run)
    ensures Pending(Run(q, run), all + Slept(q, run))
    decreases |run|
  {
    if run == [] {
      assert all + multiset{} == all;
    } else {
      StepKeepsPending(q, run[0], all);
      RunKeepsPending(Step(q, run[0]), run[1..], all + Added(q, run[0]));
      SumsJoin(all, Added(q, run[0]), Slept(Step(q, run[0]), run[1..]));
    }
  }

  /** Over every run of safe sleeps and of interrupts: each interrupt wakes exactly those whose
      time has come, so that after the run those sleep whose time is not over, and nobody else. */
  lemma {:induction false} RunWakesOnTime(q: Queue, run: seq<Action>, all: multiset<Sleeper>)
    requires Good(q) && Pending(q, all) && AllEnabled(run) && AllSafe(q, run)
    ensures AllOnTime(q, run) && Pending(Run(q, run), all + Slept(q, run))
  {
    RunKeepsGood(q, run);
    RunKeepsPending(q, run, all);
  }

  // ----- Sleeps that are not safe -------------------------------------------

  /** Each of n interrupts, with nothing in between, is on time. */
  ghost predicate Punctual(q: Queue, n: nat)
    decreases n
  {
    n == 0 || (OnTime(q) && Punctual(Interrupt(q), n - 1))
  }

  lemma {:induction false} LaterFails(q: Queue, n: nat)
    requires OnTime(q) ==> !Punctual(Interrupt(q), n)
    ensures !Punctual(q, n + 1)
  {
  }

  /** An interrupt on time leaves a sleeper whose time has not come. */
  lemma LaterStays(q: Queue, s: Sleeper)
    requires OnTime(q) && s in q.list && s.due > q.clock
    ensures s in Interrupt(q).list
  {
    var i :| 0 <= i < |q.list| && q.list[i] == s;
    LeftIs(q.list, Low(q.clock));
    assert q.list[Front(q)..][i - Front(q)] == s;
  }

  lemma {:induction false} AllAreDue(ks: seq<int>)
    requires Ints(ks)
    ensures Due(ks, TWO_32 - 1) == |ks|
  {
    if ks == [] {
    } else {
      AllAreDue(ks[1..]);
    }
  }

  /** The last jiffy before the next multiple of 2^32. */
  function LastOf(t: nat): (m: nat)
    ensures m >= t && Low(m) == TWO_32 - 1 && m / TWO_32 == t / TWO_32
  {
    t / TWO_32 * TWO_32 + (TWO_32 - 1)
  }

  lemma LastIsLast(t: nat, d: nat)
    requires t <= d && d / TWO_32 != t / TWO_32
    ensures d > LastOf(t)
  {
  }

  lemma EndOfSpan(r: Queue, s: Sleeper)
    requires s in r.list && s.due > r.clock && Low(r.clock) == TWO_32 - 1
    ensures !OnTime(r)
  {
    AllAreDue(KeysOf(r.list));
    var i :| 0 <= i < |r.list| && r.list[i] == s;
    assert i < Front(r);
  }

  /** A time past the next multiple of 2^32: the sleeper is woken before it. */
  lemma {:induction false} PastWrapIsEarly(q: Queue, s: Sleeper, n: nat)
    requires s in q.list && s.due > q.clock + n && Low(q.clock + n) == TWO_32 - 1
    ensures !Punctual(q, n + 1)
    decreases n
  {
    if n == 0 {
      EndOfSpan(q, s);
    } else if OnTime(q) {
      LaterStays(q, s);
      PastWrapIsEarly(Interrupt(q), s, n - 1);
    }
    LaterFails(q, n);
  }

  /** Two times in one span, in different halves of it. */
  ghost predicate Across(l: nat, u: nat) {
    l < u && Key(u) < 0 <= Key(l) && Low(u) > Low(l)
  }

  lemma HalvesAcross(l: nat, u: nat)
    requires l < u && l / TWO_32 == u / TWO_32 && l / TWO_31 != u / TWO_31
    ensures Across(l, u)
  {
    HalfIsSign(l);
    HalfIsSign(u);
    LowIsOrdered(u, l);
    TwoHalves(l);
    TwoHalves(u);
  }

  lemma TwoHalves(t: nat)
    ensures t / TWO_31 == 2 * (t / TWO_32) || t / TWO_31 == 2 * (t / TWO_32) + 1
  {
  }

  lemma {:induction false} AcrossNotOnTime(r: Queue, l: Sleeper, u: Sleeper)
    requires Ordered(r.list) && l in r.list && u in r.list && r.clock == l.due && Across(l.due, u.due)
    ensures !OnTime(r)
  {
    var ks := KeysOf(r.list);
    var i :| 0 <= i < |r.list| && r.list[i] == l;
    var j :| 0 <= j < |r.list| && r.list[j] == u;
    assert ks[j] < 0 <= ks[i];
    DueIsPrefix(ks, Low(r.clock));
    SortedIs(ks);
    assert j >= Front(r) && j < i;
  }

  /** Two times on different sides of 2^31: the first sleeper is not woken at its time. */
  lemma {:induction false} AcrossHalfIsLate(q: Queue, l: Sleeper, u: Sleeper, n: nat)
    requires Ordered(q.list) && l in q.list && u in q.list && q.clock + n == l.due && Across(l.due, u.due)
    ensures !Punctual(q, n + 1)
    decreases n
  {
    if n == 0 {
      AcrossNotOnTime(q, l, u);
    } else if OnTime(q) {
      LaterStays(q, l);
      LaterStays(q, u);
      TickKeepsOrder(q);
      AcrossHalfIsLate(Interrupt(q), l, u, n - 1);
    }
    LaterFails(q, n);
  }

  /** A pending sleeper and a new one in the other half. */
  lemma {:induction false} CrossingFails(q: Queue, e: Queue, p: Sleeper, s: Sleeper) returns (n: nat)
    requires Ordered(e.list) && e.clock == q.clock && p in e.list && s in e.list && q.clock <= p.due && q.clock <= s.due
    requires p.due / TWO_32 == s.due / TWO_32 && p.due / TWO_31 != s.due / TWO_31
    ensures !Punctual(e, n)
  {
    if p.due < s.due {
      n := p.due - q.clock + 1;
      HalvesAcross(p.due, s.due);
      AcrossHalfIsLate(e, p, s, p.due - q.clock);
    } else {
      n := s.due - q.clock + 1;
      HalvesAcross(s.due, p.due);
      AcrossHalfIsLate(e, s, p, s.due - q.clock);
    }
  }

  /** After a sleep that is not safe the interrupts alone come to one that is not on time. */
  lemma {:induction false} UnsafeSleepFails(q: Queue, a: Action) returns (n: nat)
    requires Good(q) && Enabled(a) && !Safe(q, a)
    ensures !Punctual(Step(q, a), n)
  {
    var s, e := NewSleeper(q, a.task, a.ticks), Step(q, a);
    EnqueuedHas(q.list, s, s);
    EnqueueKeepsOrder(q.list, s);
    if s.due / TWO_32 != q.clock / TWO_32 {
      n := LastOf(q.clock) - q.clock + 1;
      LastIsLast(q.clock, s.due);
      PastWrapIsEarly(e, s, LastOf(q.clock) - q.clock);
    } else {
      var i :| 0 <= i < |q.list| && q.list[i].due / TWO_31 != s.due / TWO_31;
      EnqueuedHas(q.list, s, q.list[i]);
      n := CrossingFails(q, e, q.list[i], s);
    }
  }

  // ----- Both directions ----------------------------------------------------

  lemma {:induction false} GoodIsPunctual(q: Queue, n: nat)
    requires Good(q)
    ensures Punctual(q, n)
    decreases n
  {
    if n == 0 {
    } else {
      GoodIsOnTime(q);
      TickKeepsGood(q);
      GoodIsPunctual(Interrupt(q), n - 1);
    }
  }

  lemma {:induction false} PrefixIsGood(q: Queue, run: seq<Action>, j: nat)
    requires Good(q) && AllEnabled(run) && AllSafe(q, run) && j <= |run|
    ensures Good(Run(q, run[..j]))
    decreases |run|
  {
    if j == 0 {
    } else {
      StepKeepsGood(q, run[0]);
      PrefixIsGood(Step(q, run[0]), run[1..], j - 1);
      assert run[..j][1..] == run[1..][..j - 1];
    }
  }

  lemma {:induction false} UnsafeRunFails(q: Queue, run: seq<Action>) returns (j: nat, n: nat)
    requires Good(q) && AllEnabled(run) && !AllSafe(q, run)
    ensures j <= |run| && !Punctual(Run(q, run[..j]), n)
    decreases |run|
  {
    if Safe(q, run[0]) {
      StepKeepsGood(q, run[0]);
      j, n := UnsafeRunFails(Step(q, run[0]), run[1..]);
      j := j + 1;
    } else {
      n := UnsafeSleepFails(q, run[0]);
      j := 1;
      assert run[1..][..0] == [];
    }
    assert run[..j][1..] == run[1..][..j - 1];
  }

  /** Wherever a run is broken off, all interrupts that follow are on time, exactly when no
      sleep of the run went past the next multiple of 2^32, or to the other side of 2^31 from a
      sleep that was pending. */
  lemma {:induction false} WakesOnTimeIff(q: Queue, run: seq<Action>)
    requires Good(q) && AllEnabled(run)
    ensures AllSafe(q, run) <==> forall j: nat, n: nat :: j <= |run| ==> Punctual(Run(q, run[..j]), n)
  {
    if AllSafe(q, run) {
      forall j: nat, n: nat | j <= |run|
        ensures Punctual(Run(q, run[..j]), n)
      {
        PrefixIsGood(q, run, j);
        GoodIsPunctual(Run(q, run[..j]), n);
      }
    } else {
      var j, n := UnsafeRunFails(q, run);
    }
  }

  // ----- Two runs that fail -------------------------------------------------

  lemma KeyIs(due: nat, k: int)
    requires -TWO_31 <= k < TWO_31 && (due - k) % TWO_32 == 0
    ensures Key(due) == k
  {
    var h := (due - k) / TWO_32;
    assert due == h * TWO_32 + k;
  }

  /** The first sleep goes into an empty list. */
  lemma FirstSleeps(clock: nat, task: nat, ticks: nat)
    ensures Asleep(Queue(clock, []), task, ticks) == Queue(clock, [Sleeper(task, clock + ticks)])
  {
    assert Place(KeysOf([]), Key(clock + ticks)) == 0;
    assert Inserted([], 0, Sleeper(task, clock + ticks)) == [Sleeper(task, clock + ticks)];
  }

  lemma {:induction false} LoneSleeper(clock: nat, s: Sleeper)
    requires Low(s.due) <= Low(clock)
    ensures var q := Queue(clock, [s]); Front(q) == 1 && Interrupt(q).list == [] && (OnTime(q) <==> s.due <= clock)
  {
    var ks := KeysOf([s]);
    assert ks[1..] == [] && Due(ks[1..], Low(clock)) == 0;
    LeftIs([s], Low(clock));
    assert [s][0] == s;
  }

  /** A sleep of eight jiffies, three before the clock wraps round: the next interrupt wakes
      the task, eight jiffies early. */
  lemma {:induction false} EarlySleeperIsWoken(task: nat)
    ensures var q := Asleep(Queue(TWO_32 - 3, []), task, 8);
            q.list == [Sleeper(task, TWO_32 + 5)] && Interrupt(q).list == [] && !OnTime(q)
  {
    FirstSleeps(TWO_32 - 3, task, 8);
    KeyIs(TWO_32 + 5, 5);
    LoneSleeper(TWO_32 - 3, Sleeper(task, TWO_32 + 5));
  }

  /** Two sleeps just before 2^31 jiffies: at the time of the first nobody is woken. */
  lemma {:induction false} LateSleeperSleepsOn(first: nat, second: nat)
    ensures var q := Asleep(Asleep(Queue(TWO_31 - 2, []), first, 1), second, 10);
            var r := Interrupt(q);
            && r.clock == TWO_31 - 1 && r.list == [Sleeper(second, TWO_31 + 8), Sleeper(first, TWO_31 - 1)]
            && Interrupt(r).list == r.list && !OnTime(r)
  {
    var a, b := Sleeper(first, TWO_31 - 1), Sleeper(second, TWO_31 + 8);
    FirstSleeps(TWO_31 - 2, first, 1);
    KeyIs(TWO_31 - 1, TWO_31 - 1);
    KeyIs(TWO_31 + 8, 8 - TWO_31);
    assert KeysOf([a]) == [TWO_31 - 1] && KeysOf([b, a]) == [8 - TWO_31, TWO_31 - 1];
    assert Inserted([a], 0, b) == [b, a];
    var r := Queue(TWO_31 - 1, [b, a]);
    assert [b, a][0..] == [b, a];
    assert r.list[1].due <= r.clock && Front(r) == 0;
  }

  // ----- The list in memory -------------------------------------------------

  lemma LowOfSum(t: nat, n: nat)
    ensures Deadline(Low(t), n) == Low(t + n)
  {
  }

  /** What task_sleep computes in 32 bits is what is kept of the true time. */
  lemma SleepShows(q: Queue, task: nat, ticks: nat, ks: seq<int>, k: int)
    requires ks == KeysOf(q.list) && k == Signed(Deadline(Low(q.clock), ticks))
    ensures KeysOf(Asleep(q, task, ticks).list) == EnqueuedKey(ks, k)
  {
    LowOfSum(q.clock, ticks);
    EnqueuedKeys(q.list, NewSleeper(q, task, ticks));
  }

  lemma TickShows(q: Queue, ks: seq<int>, now: u32)
    requires ks == KeysOf(q.list) && now == Low(q.clock)
    ensures Due(ks, now) == Front(q) && KeysOf(Interrupt(q).list) == ks[Front(q)..]
    ensures Low(Interrupt(q).clock) == (now + 1) % TWO_32
  {
    LeftIs(q.list, now);
  }

  /** The fields are what the kernel keeps of the queue. */
  ghost predicate Shows(s: Sleepers, q: Queue)
    reads s, s.list, s.list.chain
  {
    s.Valid() && s.jiffies == Low(q.clock) && Keys(s.list.Nodes()) == KeysOf(q.list)
  }

  /** clock_init: nobody sleeps, and the clock starts at zero. */
  method Boot(jiffy: nat) returns (s: Sleepers, ghost q: Queue)
    requires jiffy > 0
    ensures fresh(s) && fresh(s.list) && Shows(s, q) && q == Queue(0, []) && Good(q)
  {
    s := new Sleepers(jiffy);
    q := Queue(0, []);
  }

  /** task_sleep, up to its schedule(), on the list and on the queue that it shows. */
  method Sleep(s: Sleepers, ghost q: Queue, current: Node, ms: u32, ghost task: nat) returns (ghost r: Queue)
    requires Shows(s, q) && current !in s.list.chain && current.prev == null && current.next == null
    modifies s.list`chain, s.list.chain`prev, s.list.chain`next, current
    ensures Shows(s, r) && r == Asleep(q, task, Ticks(ms, s.jiffy))
    ensures s.list.Nodes() == Inserted(old(s.list.Nodes()), Place(KeysOf(q.list), current.key), current)
  {
    ghost var ks := Keys(s.list.Nodes());
    s.Sleep(current, ms);
    SleepShows(q, task, Ticks(ms, s.jiffy), ks, current.key);
    r := Asleep(q, task, Ticks(ms, s.jiffy));
  }

  /** clock_handler: the sleepers that are woken are those of the queue. */
  method Tick(s: Sleepers, ghost q: Queue) returns (woken: seq<Node>, ghost r: Queue)
    requires Shows(s, q)
    modifies s`jiffies, s.list`chain, s.list.chain
    ensures Shows(s, r) && r == Interrupt(q) && Detached(woken)
    ensures woken == old(s.list.Nodes())[..Front(q)] && s.list.Nodes() == old(s.list.Nodes())[Front(q)..]
  {
    TickShows(q, Keys(s.list.Nodes()), s.jiffies);
    woken := s.Interrupt();
    r := Interrupt(q);
  }
}
