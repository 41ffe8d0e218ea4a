/** Where the heap ends after sys_brk and after fork, and what page_fault then does below it
    (src/kernel/memory.c). */
module HeapBreak {
  import opened Paging
  import opened PagingInvariant
  import opened ForkExit
  import opened CopyOnWrite

  /** The virtual address of the first byte of a page. */
  function At(page: nat): Va {
    Va(Dir(page), Tab(page))
  }

  /** A first touch is legal exactly in the image and heap below the break, and in the stack. */
  lemma TouchableIff(m: Mem, p: nat, page: nat)
    requires p in m.procs && m.procs[p].brk <= MMAP_PAGE
    ensures Touchable(m, p, At(page)) <==>
            EXEC_PAGE <= page < m.procs[p].brk || STACK_BOTTOM_PAGE <= page < STACK_TOP_PAGE
  {
    PageNoSplits(Dir(page), Tab(page), page);
  }

  // ----- Frames left --------------------------------------------------------

  lemma FreeFrameIff(m: Mem)
    requires m.start <= |m.refs|
    ensures FirstFree(m) < |m.refs| <==> |ZeroSet(m.start, m.refs)| >= 1
  {
    if FirstFree(m) < |m.refs| {
      assert FirstFree(m) in ZeroSet(m.start, m.refs);
    } else {
      assert ZeroSet(m.start, m.refs) == {};
    }
  }

  /** link_page of an unmapped page succeeds exactly when there is a frame for the page, and
      one more for its page table if that is missing. */
  lemma CanLinkIff(m: Mem, p: nat, d: nat, t: nat)
    requires Inv(m) && HasDir(m, p, d) && t < ENTRIES && !Mapped(m, p, d, t)
    ensures CanLink(m, p, d, t) <==> |ZeroSet(m.start, m.refs)| >= if HasTable(m, p, d) then 1 else 2
  {
    FreeFrameIff(m);
    if HasTable(m, p, d) {
      TableInRange(m, p, d);
    } else if FirstFree(m) < |m.refs| {
      var f := FirstFree(m);
      var m1 := AddTable(m, p, d, f);
      assert ZeroSet(m1.start, m1.refs) == ZeroSet(m.start, m.refs) - {f};
      FreeFrameIff(m1);
    }
  }

  // ----- sys_brk ------------------------------------------------------------

  /** Where the break is afterwards, and what else of the processes changed: nothing. */
  ghost predicate BreakAt(m: Mem, m': Mem, p: nat, brk: nat) {
    && p in m.procs && m'.procs.Keys == m.procs.Keys
    && m'.procs[p].brk == brk && m'.procs[p].end == m.procs[p].end && m'.procs[p].pde == m.procs[p].pde
    && (forall q :: q in m.procs && q != p ==> m'.procs[q] == m.procs[q])
  }

  /** A page is mapped afterwards if it was and does not lie above the new break in the heap. */
  lemma BreakCuts(m: Mem, p: nat, brk: nat, q: nat, page: nat)
    requires Inv(m) && CanBrk(m, p, brk)
    ensures Mapped(Brk(m, p, brk), q, Dir(page), Tab(page)) <==>
            Mapped(m, q, Dir(page), Tab(page)) && !(q == p && brk <= page < m.procs[p].brk)
  {
    SetBrkKeepsInv(m, p, brk);
    var x := PageOf(q, Dir(page), Tab(page));
    PageNoSplits(Dir(page), Tab(page), page);
    assert x in Names(m) <==> Present(m, x);
    assert x in Names(Brk(m, p, brk)) <==> Present(Brk(m, p, brk), x);
  }

  lemma BreakMoves(m: Mem, p: nat, brk: nat)
    requires Inv(m) && CanBrk(m, p, brk)
    ensures Inv(Brk(m, p, brk)) && BreakAt(m, Brk(m, p, brk), p, brk)
    ensures forall page: nat :: Touchable(Brk(m, p, brk), p, At(page)) <==>
                                EXEC_PAGE <= page < brk || STACK_BOTTOM_PAGE <= page < STACK_TOP_PAGE
  {
    SetBrkKeepsInv(m, p, brk);
    forall page: nat
      ensures Touchable(Brk(m, p, brk), p, At(page)) <==>
              EXEC_PAGE <= page < brk || STACK_BOTTOM_PAGE <= page < STACK_TOP_PAGE
    {
      TouchableIff(Brk(m, p, brk), p, page);
    }
  }

  /** The first touch of a page between the old break and the new one is a fault that the kernel
      accepts, and has frames for exactly when there are as many as CanLinkIff says. */
  lemma GrownHeapIsThere(m: Mem, p: nat, brk: nat, page: nat)
    requires Inv(m) && CanBrk(m, p, brk) && m.procs[p].brk <= page < brk
    requires !Mapped(m, p, Dir(page), Tab(page))
    ensures var b := Brk(m, p, brk);
            && Touchable(b, p, At(page)) && !Mapped(b, p, Dir(page), Tab(page))
            && (CanLink(b, p, Dir(page), Tab(page)) <==>
                |ZeroSet(b.start, b.refs)| >= if HasTable(b, p, Dir(page)) then 1 else 2)
  {
    BreakMoves(m, p, brk);
    BreakCuts(m, p, brk, p, page);
    CanLinkIff(Brk(m, p, brk), p, Dir(page), Tab(page));
  }

  // ----- fork ---------------------------------------------------------------

  /** The child may touch what its parent may, and the parent what it could. */
  lemma ForkKeepsBreak(m: Mem, m': Mem, p: nat, c: nat, own: map<nat, nat>, v: Va)
    requires Inv(m) && Forked(m, m', p, c, own)
    ensures m'.procs[c].brk == m.procs[p].brk && m'.procs[c].end == m.procs[p].end
    ensures Touchable(m', c, v) <==> Touchable(m, p, v)
    ensures forall q :: q in m.procs ==> m'.procs[q] == m.procs[q]
  {
  }

  // ----- Runs ---------------------------------------------------------------

  /** The break of each process after an action: a new process has none, a child has that of its
      parent, and sys_brk puts it where it was asked to. */
  function BreakStep(b: map<nat, nat>, a: Action): map<nat, nat> {
    match a
    case Spawn(p) => b[p := EXEC_PAGE]
    case Fork(p, c) => if p in b then b[c := b[p]] else b
    case Exit(p) => b - {p}
    case SetBrk(p, brk, _) => b[p := brk]
    case _ => b
  }

  function BreakRun(acts: seq<Action>): map<nat, nat> {
    if acts == [] then map[] else BreakStep(BreakRun(acts[..|acts| - 1]), acts[|acts| - 1])
  }

  ghost predicate BreaksAre(m: Mem, b: map<nat, nat>) {
    m.procs.Keys == b.Keys && forall p :: p in m.procs ==> m.procs[p].brk == b[p]
  }

  lemma LinkKeepsBreaks(m: Mem, p: nat, d: nat, t: nat)
    requires CanLink(m, p, d, t)
    ensures Link(m, p, d, t).procs.Keys == m.procs.Keys
    ensures forall q :: q in m.procs ==> Link(m, p, d, t).procs[q].brk == m.procs[q].brk
  {
  }

  lemma StepBreaks(m: Mem, m': Mem, a: Action, b: map<nat, nat>)
    requires Inv(m) && Step(m, m', a) && BreaksAre(m, b)
    ensures BreaksAre(m', BreakStep(b, a))
  {
    match a
    case Touch(p, v, _) => LinkKeepsBreaks(m, p, v.d, v.t);
    case Map(p, v, _, _, _, _) => LinkKeepsBreaks(m, p, v.d, v.t);
    case SetBrk(p, brk, _) => BreakMoves(m, p, brk);
    case _ =>
  }

  lemma BreakRunStep(acts: seq<Action>, n: nat)
    requires n < |acts|
    ensures BreakRun(acts[..n + 1]) == BreakStep(BreakRun(acts[..n]), acts[n])
  {
    assert acts[..n + 1][..n] == acts[..n];
  }

  lemma RunStepBreaks(ms: seq<Mem>, acts: seq<Action>, n: nat, b: map<nat, nat>)
    requires Run(ms, acts) && n < |acts| && BreaksAre(ms[n], b)
    ensures BreaksAre(ms[n + 1], BreakStep(b, acts[n]))
  {
    RunMatches(ms, acts, n);
    RunStep(ms, acts, n);
    StepBreaks(ms[n], ms[n + 1], acts[n], b);
  }

  lemma {:induction false} RunKeepsBreaks(ms: seq<Mem>, acts: seq<Action>, n: nat)
    requires Run(ms, acts) && n <= |acts|
    ensures BreaksAre(ms[n], BreakRun(acts[..n]))
  {
    if n == 0 {
    } else {
      RunKeepsBreaks(ms, acts, n - 1);
      RunStepBreaks(ms, acts, n - 1, BreakRun(acts[..n - 1]));
      BreakRunStep(acts, n - 1);
    }
  }

  /** Over every run from boot the heap of each process ends where its last sys_brk put it, or
      where it was when the process was forked; below it, and in the stack, a first touch is legal,
      and nowhere else. */
  lemma {:induction false} RunBreaks(ms: seq<Mem>, acts: seq<Action>, n: nat, p: nat, page: nat)
    requires Run(ms, acts) && n <= |acts|
    ensures p in ms[n].procs <==> p in BreakRun(acts[..n])
    ensures p in ms[n].procs ==>
              && ms[n].procs[p].brk == BreakRun(acts[..n])[p]
              && (Touchable(ms[n], p, At(page)) <==>
                  EXEC_PAGE <= page < BreakRun(acts[..n])[p] || STACK_BOTTOM_PAGE <= page < STACK_TOP_PAGE)
  {
    RunKeepsBreaks(ms, acts, n);
    RunMatches(ms, acts, n);
    if p in ms[n].procs {
      TouchableIff(ms[n], p, page);
    }
  }
}
