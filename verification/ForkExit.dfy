/** copy_pde and free_pde: both walk a whole address space, and both keep the
    counters exact. Forking and letting the child exit gives every counter back. */
module ForkExit {
  import opened Paging
  import opened PagingInvariant

  /** The slots of the old processes after a fork: the pages of p are protected. */
  ghost predicate OldNames(ns: map<Slot, Entry>, ns': map<Slot, Entry>, p: nat, c: nat) {
    && (forall x: Slot :: x.pid != c ==> (x in ns' <==> x in ns))
    && (forall x: Slot :: x.pid != c && x in ns ==> ns'[x] == if x.pid == p && x.PageOf? then Protect(ns[x]) else ns[x])
  }

  /** The slots of the child: its own tables, the protected pages of p. */
  ghost predicate ChildNames(ns: map<Slot, Entry>, ns': map<Slot, Entry>, p: nat, c: nat, own: map<nat, nat>) {
    && (forall d :: TableOf(c, d) in ns' <==> TableOf(p, d) in ns)
    && (forall d :: d in own <==> TableOf(p, d) in ns)
    && (forall d :: d in own ==> ns'[TableOf(c, d)] == ns[TableOf(p, d)].(index := own[d]))
    && (forall d, t :: PageOf(c, d, t) in ns' <==> PageOf(p, d, t) in ns)
    && (forall d, t :: PageOf(p, d, t) in ns ==> ns'[PageOf(c, d, t)] == Protect(ns[PageOf(p, d, t)]))
  }

  ghost predicate ForkedNames(ns: map<Slot, Entry>, ns': map<Slot, Entry>, p: nat, c: nat, own: map<nat, nat>) {
    && (forall x :: x in ns ==> x.pid != c)
    && OldNames(ns, ns', p, c)
    && ChildNames(ns, ns', p, c, own)
  }

  /** Another process's table is neither a new frame nor a table of p. */
  lemma OtherTable(m: Mem, p: nat, own: map<nat, nat>, q: nat, d: nat)
    requires Inv(m) && FreshTables(m, p, own) && HasTable(m, q, d)
    ensures TableFrame(m, q, d) !in own.Values
    ensures q != p ==> !IsTableOf(m, p, TableFrame(m, q, d))
  {
    NamedIsCounted(m, TableOf(q, d));
    forall d' | HasTable(m, p, d') && TableFrame(m, p, d') == TableFrame(m, q, d)
      ensures p == q
    {
      TablesStayApart(m, q, d, p, d');
    }
  }

  ghost predicate HeldTables(m: Mem) {
    forall p: nat, d: nat :: HasTable(m, p, d) ==> TableFrame(m, p, d) < |m.tables|
  }

  lemma InvHoldsTables(m: Mem)
    requires Inv(m)
    ensures HeldTables(m)
  {
    forall p: nat, d: nat | HasTable(m, p, d)
      ensures TableFrame(m, p, d) < |m.tables|
    {
      TableInRange(m, p, d);
    }
  }

  /** Where the table of an old process ends up. */
  ghost predicate TablesFollow(m: Mem, m': Mem, p: nat)
  {
    && |m'.tables| == |m.tables|
    && forall q: nat, d: nat :: HasTable(m, q, d) && TableFrame(m, q, d) < |m.tables| ==>
                               m'.tables[TableFrame(m, q, d)] ==
                               if q == p then ProtectTable(m.tables[TableFrame(m, q, d)])
                                   else m.tables[TableFrame(m, q, d)]
  }

  lemma ForkedTablesFollow(m: Mem, m': Mem, p: nat, own: map<nat, nat>)
    requires Inv(m) && FreshTables(m, p, own) && ForkedTables(m, m', p, own)
    ensures TablesFollow(m, m', p)
  {
    forall q: nat, d: nat | HasTable(m, q, d) && TableFrame(m, q, d) < |m.tables|
      ensures m'.tables[TableFrame(m, q, d)] ==
              if q == p then ProtectTable(m.tables[TableFrame(m, q, d)]) else m.tables[TableFrame(m, q, d)]
    {
      OtherTable(m, p, own, q, d);
      if q == p {
        assert d in own;
      }
    }
  }

  lemma ForkedSlot(m: Mem, m': Mem, p: nat, c: nat, own: map<nat, nat>, x: Slot)
    requires x.pid != c && HeldTables(m)
    requires ForkedProcs(m, m', p, c, own) && TablesFollow(m, m', p)
    ensures Present(m', x) <==> Present(m, x)
    ensures Present(m, x) ==>
        EntryAt(m', x) == if x.pid == p && x.PageOf? then Protect(EntryAt(m, x)) else EntryAt(m, x)
  {
    assert HasTable(m', x.pid, x.d) <==> HasTable(m, x.pid, x.d);
  }

  lemma ForkedChildTable(m: Mem, m': Mem, p: nat, c: nat, own: map<nat, nat>, d: nat)
    requires FreshTables(m, p, own) && ForkedProcs(m, m', p, c, own)
    ensures HasTable(m', c, d) <==> HasTable(m, p, d)
    ensures HasTable(m, p, d) ==> d in own && m'.procs[c].pde[d] == m.procs[p].pde[d].(index := own[d])
  {
    if HasDir(m, p, d) {
      assert HasDir(m', c, d);
    }
  }

  lemma ForkedChildPage(m: Mem, m': Mem, p: nat, c: nat, own: map<nat, nat>, d: nat, t: nat)
    requires HeldTables(m) && |m.refs| == |m.tables|
    requires FreshTables(m, p, own) && ForkedProcs(m, m', p, c, own) && ForkedTables(m, m', p, own)
    ensures Mapped(m', c, d, t) <==> Mapped(m, p, d, t)
    ensures Mapped(m, p, d, t) ==> Pte(m', c, d, t) == Protect(Pte(m, p, d, t))
  {
    ForkedChildTable(m, m', p, c, own, d);
    if HasTable(m, p, d) {
      assert TableFrame(m', c, d) == own[d];
    }
  }

  lemma ForkOldNames(m: Mem, m': Mem, p: nat, c: nat, own: map<nat, nat>)
    requires HeldTables(m) && ForkedProcs(m, m', p, c, own) && TablesFollow(m, m', p)
    ensures OldNames(Names(m), Names(m'), p, c)
  {
    forall x: Slot | x.pid != c
      ensures x in Names(m') <==> x in Names(m)
      ensures x in Names(m) ==> Names(m')[x] == if x.pid == p && x.PageOf? then Protect(Names(m)[x]) else Names(m)[x]
    {
      ForkedSlot(m, m', p, c, own, x);
    }
  }

  lemma ForkChildTables(m: Mem, m': Mem, p: nat, c: nat, own: map<nat, nat>)
    requires FreshTables(m, p, own) && ForkedProcs(m, m', p, c, own)
    ensures forall d :: TableOf(c, d) in Names(m') <==> TableOf(p, d) in Names(m)
    ensures forall d :: d in own <==> TableOf(p, d) in Names(m)
    ensures forall d :: d in own ==> Names(m')[TableOf(c, d)] == Names(m)[TableOf(p, d)].(index := own[d])
  {
    forall d: nat
      ensures TableOf(c, d) in Names(m') <==> TableOf(p, d) in Names(m)
      ensures d in own ==> Names(m')[TableOf(c, d)] == Names(m)[TableOf(p, d)].(index := own[d])
    {
      ForkedChildTable(m, m', p, c, own, d);
    }
  }

  lemma ForkChildPages(m: Mem, m': Mem, p: nat, c: nat, own: map<nat, nat>)
    requires HeldTables(m) && |m.refs| == |m.tables|
    requires FreshTables(m, p, own) && ForkedProcs(m, m', p, c, own) && ForkedTables(m, m', p, own)
    ensures forall d, t :: PageOf(c, d, t) in Names(m') <==> PageOf(p, d, t) in Names(m)
    ensures forall d, t :: PageOf(p, d, t) in Names(m) ==>
        Names(m')[PageOf(c, d, t)] == Protect(Names(m)[PageOf(p, d, t)])
  {
    forall d: nat, t: nat
      ensures PageOf(c, d, t) in Names(m') <==> PageOf(p, d, t) in Names(m)
      ensures PageOf(p, d, t) in Names(m) ==> Names(m')[PageOf(c, d, t)] == Protect(Names(m)[PageOf(p, d, t)])
    {
      ForkedChildPage(m, m', p, c, own, d, t);
    }
  }

  lemma ForkNames(m: Mem, m': Mem, p: nat, c: nat, own: map<nat, nat>)
    requires Inv(m) && Forked(m, m', p, c, own)
    ensures ForkedNames(Names(m), Names(m'), p, c, own)
  {
    InvHoldsTables(m);
    ForkedTablesFollow(m, m', p, own);
    ForkOldNames(m, m', p, c, own);
    ForkChildTables(m, m', p, c, own);
    ForkChildPages(m, m', p, c, own);
  }

  lemma ForkKeepsTableSizes(m: Mem, m': Mem, p: nat, own: map<nat, nat>)
    requires Inv(m) && FreshTables(m, p, own) && ForkedTables(m, m', p, own)
    ensures forall f :: 0 <= f < |m'.tables| ==> |m'.tables[f]| == ENTRIES
  {
    InvHoldsTables(m);
    forall f | 0 <= f < |m'.tables|
      ensures |m'.tables[f]| == ENTRIES
    {
      if f in own.Values {
        var d :| d in own && own[d] == f;
        assert HasTable(m, p, d);
      } else if IsTableOf(m, p, f) {
        var d :| HasTable(m, p, d) && TableFrame(m, p, d) == f;
        assert d in own;
      }
    }
  }

  lemma ForkKeepsKernelFrames(m: Mem, m': Mem, p: nat, own: map<nat, nat>)
    requires Inv(m) && FreshTables(m, p, own) && ForkedRefs(m, m', p, own)
    ensures forall f :: 0 <= f < KERNEL_FRAMES ==> m'.refs[f] == 1
  {
    forall x | x in Names(m)
      ensures Names(m)[x].index >= KERNEL_FRAMES
    {
    }
  }

  lemma ForkKeepsSizes(m: Mem, m': Mem, p: nat, c: nat, own: map<nat, nat>)
    requires Inv(m) && Forked(m, m', p, c, own)
    ensures Sized(m')
  {
    ForkKeepsTableSizes(m, m', p, own);
    ForkKeepsKernelFrames(m, m', p, own);
  }

  /** The slot of the parent that a slot of the child was copied from. */
  function Origin(x: Slot, p: nat, c: nat): Slot {
    if x.pid == c then (match x case TableOf(_, d) => TableOf(p, d) case PageOf(_, d, t) => PageOf(p, d, t)) else x
  }

  /** own gives every table of p a frame that nothing names, all different. */
  ghost predicate Unnamed(ns: map<Slot, Entry>, frames: nat, own: map<nat, nat>) {
    && (forall d :: d in own ==> KERNEL_FRAMES <= own[d] < frames)
    && (forall d, x :: d in own && x in ns ==> ns[x].index != own[d])
    && (forall d, d' {:trigger own[d], own[d']} :: d in own && d' in own && own[d] == own[d'] ==> d == d')
  }

  lemma OriginOf(ns: map<Slot, Entry>, ns': map<Slot, Entry>, p: nat, c: nat, own: map<nat, nat>, x: Slot)
    requires ForkedNames(ns, ns', p, c, own) && x in ns'
    ensures Origin(x, p, c) in ns
    ensures x.TableOf? && x.pid == c ==> x.d in own && ns'[x] == ns[TableOf(p, x.d)].(index := own[x.d])
    ensures !(x.TableOf? && x.pid == c) ==>
              ns'[x] == if Origin(x, p, c).pid == p && x.PageOf? then Protect(ns[Origin(x, p, c)]) else ns[x]
  {
  }

  lemma ForkedPair(ns: map<Slot, Entry>, ns': map<Slot, Entry>, frames: nat, p: nat, c: nat, own: map<nat, nat>,
                   x: Slot, y: Slot)
    requires Isolated(ns, frames) && ForkedNames(ns, ns', p, c, own) && Unnamed(ns, frames, own)
    requires x in ns' && y in ns' && ns'[x].index == ns'[y].index
    ensures Exclusive(x, ns'[x]) ==> x == y
    ensures x.pid == y.pid ==> x == y
    ensures ns'[x].shared == ns'[y].shared
  {
    OriginOf(ns, ns', p, c, own, x);
    OriginOf(ns, ns', p, c, own, y);
  }

  lemma ForkIsIsolated(ns: map<Slot, Entry>, ns': map<Slot, Entry>, frames: nat, p: nat, c: nat, own: map<nat, nat>)
    requires Isolated(ns, frames) && ForkedNames(ns, ns', p, c, own) && Unnamed(ns, frames, own)
    ensures Isolated(ns', frames)
  {
    forall x, y | x in ns' && y in ns' && ns'[x].index == ns'[y].index
      ensures Exclusive(x, ns'[x]) ==> x == y
      ensures x.pid == y.pid ==> x == y
      ensures ns'[x].shared == ns'[y].shared
    {
      ForkedPair(ns, ns', frames, p, c, own, x, y);
    }
    forall x | x in ns'
      ensures EntriesSane(map[x := ns'[x]], frames)
    {
      OriginOf(ns, ns', p, c, own, x);
    }
    assert forall x :: x in ns' ==> x in map[x := ns'[x]];
  }

  // ----- Counting after a fork ----------------------------------------------

  /** The name of f that the child's copy of a page of p adds. */
  ghost function Inherited(ns: map<Slot, Entry>, p: nat, c: nat, f: nat): set<Slot> {
    set x | x in ns && x.pid == p && x.PageOf? && ns[x].index == f :: PageOf(c, x.d, x.t)
  }

  lemma NewTableNameSet(ns: map<Slot, Entry>, ns': map<Slot, Entry>, frames: nat, p: nat, c: nat, own: map<nat, nat>,
      d: nat)
    requires ForkedNames(ns, ns', p, c, own) && Unnamed(ns, frames, own) && d in own
    ensures NameSet(ns', own[d]) == {TableOf(c, d)}
  {
    forall x | x in NameSet(ns', own[d])
      ensures x == TableOf(c, d)
    {
      OriginOf(ns, ns', p, c, own, x);
    }
    assert TableOf(p, d) in ns;
  }

  lemma OldFrameNameSet(ns: map<Slot, Entry>, ns': map<Slot, Entry>, p: nat, c: nat, own: map<nat, nat>, f: nat)
    requires ForkedNames(ns, ns', p, c, own) && f !in own.Values
    ensures NameSet(ns', f) == NameSet(ns, f) + Inherited(ns, p, c, f)
  {
    forall z | z in NameSet(ns', f)
      ensures z in NameSet(ns, f) + Inherited(ns, p, c, f)
    {
      OriginOf(ns, ns', p, c, own, z);
      assert z.pid == c ==> z.PageOf? && z == PageOf(c, z.d, z.t) && Origin(z, p, c).PageOf?;
    }
    forall x | x in ns && x.pid == p && x.PageOf? && ns[x].index == f
      ensures PageOf(c, x.d, x.t) in NameSet(ns', f)
    {
      assert x == PageOf(p, x.d, x.t);
    }
  }

  /** p names a frame at one page at most, so the child adds one name at most. */
  lemma InheritedOnce(ns: map<Slot, Entry>, p: nat, c: nat, f: nat)
    requires MappedOnce(ns)
    ensures |Inherited(ns, p, c, f)| ==
            if exists x :: x in ns && x.pid == p && x.PageOf? && ns[x].index == f then 1 else 0
  {
    if x :| x in ns && x.pid == p && x.PageOf? && ns[x].index == f {
      assert Inherited(ns, p, c, f) == {PageOf(c, x.d, x.t)};
    } else {
      assert Inherited(ns, p, c, f) == {};
    }
  }

  lemma ForkIsExact(m: Mem, m': Mem, p: nat, c: nat, own: map<nat, nat>)
    requires Inv(m) && Forked(m, m', p, c, own) && ForkedNames(Names(m), Names(m'), p, c, own)
    requires Unnamed(Names(m), |m.refs|, own)
    ensures Exact(Names(m'), m'.refs)
  {
    var ns, ns' := Names(m), Names(m');
    forall f: nat | KERNEL_FRAMES <= f < |m'.refs|
      ensures m'.refs[f] == |NameSet(ns', f)|
    {
      if f in own.Values {
        var d :| d in own && own[d] == f;
        NewTableNameSet(ns, ns', |m.refs|, p, c, own, d);
      } else {
        OldFrameNameSet(ns, ns', p, c, own, f);
        InheritedOnce(ns, p, c, f);
        assert NameSet(ns, f) !! Inherited(ns, p, c, f);
        assert f in PageFrames(m, p) <==> exists x :: x in ns && x.pid == p && x.PageOf? && ns[x].index == f;
      }
    }
  }

  lemma ForkIsAccounted(m: Mem, m': Mem, p: nat, own: map<nat, nat>)
    requires Sized(m) && Accounted(m.start, m.refs, m.freePages) && m'.start == m.start
    requires ForkedRefs(m, m', p, own) && FreshTables(m, p, own)
    requires forall f :: f in PageFrames(m, p) && 0 <= f < |m.refs| ==> m.refs[f] >= 1
    ensures Accounted(m'.start, m'.refs, m'.freePages)
  {
    var z, z' := ZeroSet(m.start, m.refs), ZeroSet(m.start, m'.refs);
    assert own.Values <= z && z' == z - own.Values;
  }

  lemma ForkKeepsInv(m: Mem, m': Mem, p: nat, c: nat, own: map<nat, nat>)
    requires Inv(m) && Forked(m, m', p, c, own)
    ensures Inv(m')
    ensures ForkedNames(Names(m), Names(m'), p, c, own)
  {
    ForkNames(m, m', p, c, own);
    ForkKeepsSizes(m, m', p, c, own);
    forall d, x | d in own && x in Names(m)
      ensures Names(m)[x].index != own[d]
    {
      NamedIsCounted(m, x);
    }
    ForkIsIsolated(Names(m), Names(m'), |m.refs|, p, c, own);
    ForkIsExact(m, m', p, c, own);
    forall f | f in PageFrames(m, p) && 0 <= f < |m.refs|
      ensures m.refs[f] >= 1
    {
      var x :| x in Names(m) && x.pid == p && x.PageOf? && Names(m)[x].index == f;
      NamedIsCounted(m, x);
    }
    ForkIsAccounted(m, m', p, own);
  }

  // ----- Exit ---------------------------------------------------------------

  ghost function Without(ns: map<Slot, Entry>, p: nat): map<Slot, Entry> {
    map x | x in ns && x.pid != p :: ns[x]
  }

  lemma ExitSlot(m: Mem, m': Mem, p: nat, x: Slot)
    requires m'.procs == m.procs - {p} && m'.tables == m.tables
    ensures Present(m', x) <==> Present(m, x) && x.pid != p
    ensures Present(m', x) ==> EntryAt(m', x) == EntryAt(m, x)
  {
    assert HasDir(m', x.pid, x.d) <==> HasDir(m, x.pid, x.d) && x.pid != p;
  }

  lemma ExitNames(m: Mem, m': Mem, p: nat)
    requires m'.procs == m.procs - {p} && m'.tables == m.tables
    ensures Names(m') == Without(Names(m), p)
  {
    forall x: Slot
      ensures x in Names(m') <==> x in Names(m) && x.pid != p
      ensures x in Names(m') ==> Names(m')[x] == Names(m)[x]
    {
      ExitSlot(m, m', p, x);
    }
  }

  /** Exit takes one reference from each frame p held, because p named it once. */
  lemma ExitIsExact(ns: map<Slot, Entry>, frames: nat, p: nat, f: nat)
    requires Isolated(ns, frames)
    ensures |NameSet(Without(ns, p), f)| ==
            |NameSet(ns, f)| - if exists x :: x in ns && x.pid == p && ns[x].index == f then 1 else 0
  {
    if x :| x in ns && x.pid == p && ns[x].index == f {
      assert NameSet(Without(ns, p), f) == NameSet(ns, f) - {x};
    } else {
      assert NameSet(Without(ns, p), f) == NameSet(ns, f);
    }
  }

  lemma ExitKeepsInv(m: Mem, m': Mem, p: nat)
    requires Inv(m) && Exited(m, m', p)
    ensures Inv(m') && Names(m') == Without(Names(m), p)
  {
    forall f | 0 <= f < KERNEL_FRAMES
      ensures f !in Held(m, p)
    {
    }
    ExitNames(m, m', p);
    forall f: nat | KERNEL_FRAMES <= f < |m'.refs|
      ensures m'.refs[f] == |NameSet(Names(m'), f)|
    {
      ExitIsExact(Names(m), |m.refs|, p, f);
      assert f in Held(m, p) <==> exists x :: x in Names(m) && x.pid == p && Names(m)[x].index == f;
    }
  }

  lemma ForkThenExitNames(ns: map<Slot, Entry>, ns': map<Slot, Entry>, p: nat, c: nat, own: map<nat, nat>)
    requires ForkedNames(ns, ns', p, c, own)
    ensures Without(ns', c).Keys == ns.Keys
    ensures forall f :: NameSet(Without(ns', c), f) == NameSet(ns, f)
  {
  }

  lemma ForkThenExitProcs(m: Mem, m1: Mem, p: nat, c: nat, own: map<nat, nat>)
    requires ForkedProcs(m, m1, p, c, own)
    ensures m1.procs - {c} == m.procs
  {
  }

  lemma CountersAreNames(m: Mem, m': Mem)
    requires Inv(m) && Inv(m') && m'.start == m.start && |m'.refs| == |m.refs|
    requires forall f :: NameSet(Names(m'), f) == NameSet(Names(m), f)
    ensures m'.refs == m.refs && m'.freePages == m.freePages
  {
    forall f: nat | f < |m.refs|
      ensures m'.refs[f] == m.refs[f]
    {
      assert NameSet(Names(m'), f) == NameSet(Names(m), f);
    }
  }

  /** A child that exits right after the fork gives back every counter and frame. */
  lemma ForkThenExitRestores(m: Mem, m1: Mem, m2: Mem, p: nat, c: nat, own: map<nat, nat>)
    requires Inv(m) && Forked(m, m1, p, c, own) && Exited(m1, m2, c)
    ensures m2.refs == m.refs && m2.freePages == m.freePages && m2.procs == m.procs
    ensures Inv(m2) && Names(m2).Keys == Names(m).Keys
  {
    ForkKeepsInv(m, m1, p, c, own);
    ExitKeepsInv(m1, m2, c);
    ForkThenExitNames(Names(m), Names(m1), p, c, own);
    ForkThenExitProcs(m, m1, p, c, own);
    CountersAreNames(m, m2);
  }
}
