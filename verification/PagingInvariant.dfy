/** Each single step on the page tables keeps the counters exact and the
    private writable frames unshared. */
module PagingInvariant {
  import opened Paging

  /** A frame with counter zero has no name. */
  lemma FreeIsUnnamed(m: Mem, f: nat)
    requires Inv(m) && Free(m, f)
    ensures forall x :: x in Names(m) ==> Names(m)[x].index != f
  {
    var ns := Names(m);
    assert NameSet(ns, f) == {};
    forall x | x in ns
      ensures ns[x].index != f
    {
      assert x !in NameSet(ns, f);
    }
  }

  /** A counter of one means one name. */
  lemma OnlyName(m: Mem, x: Slot, y: Slot)
    requires Inv(m) && Present(m, x) && Present(m, y) && EntryAt(m, x).index == EntryAt(m, y).index
    requires m.refs[EntryAt(m, x).index] == 1
    ensures x == y
  {
    var s := NameSet(Names(m), EntryAt(m, x).index);
    assert x in s && y in s && |s - {x}| == 0;
    assert y !in s - {x};
  }

  lemma NamedIsCounted(m: Mem, x: Slot)
    requires Inv(m) && Present(m, x)
    ensures UserFrame(m, EntryAt(m, x).index) && m.refs[EntryAt(m, x).index] >= 1
  {
    assert x in NameSet(Names(m), EntryAt(m, x).index);
  }

  /** Counting: x starts or stops naming f. */
  lemma GainIsExact(ns: map<Slot, Entry>, refs: seq<u8>, x: Slot, f: nat)
    requires Exact(ns, refs) && x !in ns && KERNEL_FRAMES <= f < |refs| && refs[f] == 0
    ensures Exact(ns[x := Fresh(f)], refs[f := 1])
  {
    var ns' := ns[x := Fresh(f)];
    forall g: nat | KERNEL_FRAMES <= g < |refs|
      ensures refs[f := 1][g] == |NameSet(ns', g)|
    {
      assert NameSet(ns', g) == NameSet(ns, g) + if g == f then {x} else {};
    }
  }

  lemma LoseIsExact(ns: map<Slot, Entry>, refs: seq<u8>, x: Slot, f: nat)
    requires Exact(ns, refs) && x in ns && ns[x].index == f && KERNEL_FRAMES <= f < |refs| && refs[f] >= 1
    ensures Exact(ns - {x}, refs[f := refs[f] - 1])
  {
    var ns' := ns - {x};
    forall g: nat | KERNEL_FRAMES <= g < |refs|
      ensures refs[f := refs[f] - 1][g] == |NameSet(ns', g)|
    {
      assert NameSet(ns', g) == NameSet(ns, g) - if g == f then {x} else {};
    }
  }

  lemma TakeIsAccounted(start: nat, refs: seq<u8>, freePages: int, f: nat)
    requires Accounted(start, refs, freePages) && start <= f < |refs| && refs[f] == 0
    ensures Accounted(start, refs[f := 1], freePages - 1)
  {
    assert ZeroSet(start, refs[f := 1]) == ZeroSet(start, refs) - {f};
  }

  lemma DropIsAccounted(start: nat, refs: seq<u8>, freePages: int, f: nat)
    requires Accounted(start, refs, freePages) && start <= f < |refs| && refs[f] >= 1
    ensures Accounted(start, refs[f := refs[f] - 1], if refs[f] == 1 then freePages + 1 else freePages)
  {
    var refs' := refs[f := refs[f] - 1];
    assert ZeroSet(start, refs') == ZeroSet(start, refs) + if refs[f] == 1 then {f} else {};
  }

  /** The table of a process is a frame with room for every entry. */
  lemma TableInRange(m: Mem, p: nat, d: nat)
    requires Inv(m) && HasTable(m, p, d)
    ensures UserFrame(m, TableFrame(m, p, d)) && TableFrame(m, p, d) < |m.tables|
    ensures |m.tables[TableFrame(m, p, d)]| == ENTRIES
    ensures forall t: nat :: t < ENTRIES ==> HasPte(m, p, d, t)
  {
    assert TableOf(p, d) in Names(m);
  }

  lemma GainIsIsolated(ns: map<Slot, Entry>, frames: nat, x: Slot, f: nat)
    requires Isolated(ns, frames) && KERNEL_FRAMES <= f < frames && x !in ns
    requires forall y :: y in ns ==> ns[y].index != f
    ensures Isolated(ns[x := Fresh(f)], frames)
  {
  }

  lemma LoseIsIsolated(ns: map<Slot, Entry>, frames: nat, x: Slot)
    requires Isolated(ns, frames)
    ensures Isolated(ns - {x}, frames)
  {
  }

  lemma GainKeepsInv(m: Mem, m': Mem, x: Slot, f: nat)
    requires Inv(m) && Sized(m') && Free(m, f) && x !in Names(m) && Names(m') == Names(m)[x := Fresh(f)]
    requires m'.start == m.start && m'.refs == m.refs[f := 1] && m'.freePages == m.freePages - 1
    ensures Inv(m')
  {
    FreeIsUnnamed(m, f);
    GainIsIsolated(Names(m), |m.refs|, x, f);
    GainIsExact(Names(m), m.refs, x, f);
    TakeIsAccounted(m.start, m.refs, m.freePages, f);
  }

  lemma LoseKeepsInv(m: Mem, m': Mem, x: Slot, f: nat)
    requires Inv(m) && Sized(m') && x in Names(m) && Names(m)[x].index == f && Names(m') == Names(m) - {x}
    requires UserFrame(m, f) && m.refs[f] >= 1
    requires m'.start == m.start && m'.refs == m.refs[f := m.refs[f] - 1]
    requires m'.freePages == if m.refs[f] == 1 then m.freePages + 1 else m.freePages
    ensures Inv(m')
  {
    LoseIsIsolated(Names(m), |m.refs|, x);
    LoseIsExact(Names(m), m.refs, x, f);
    DropIsAccounted(m.start, m.refs, m.freePages, f);
  }

  lemma AddTableAt(m: Mem, p: nat, d: nat, f: nat, x: Slot)
    requires HasDir(m, p, d) && !HasTable(m, p, d) && f < |m.refs| && f < |m.tables|
    requires HasTable(m, x.pid, x.d) ==> TableFrame(m, x.pid, x.d) != f
    ensures Present(AddTable(m, p, d, f), x) <==> Present(m, x) || x == TableOf(p, d)
    ensures Present(m, x) ==> EntryAt(AddTable(m, p, d, f), x) == EntryAt(m, x)
    ensures EntryAt(AddTable(m, p, d, f), TableOf(p, d)) == Fresh(f)
  {
  }

  lemma AddTableNames(m: Mem, p: nat, d: nat, f: nat)
    requires Inv(m) && HasDir(m, p, d) && !HasTable(m, p, d) && Free(m, f)
    ensures Names(AddTable(m, p, d, f)) == Names(m)[TableOf(p, d) := Fresh(f)]
  {
    FreeIsUnnamed(m, f);
    forall x: Slot
      ensures Present(AddTable(m, p, d, f), x) <==> Present(m, x) || x == TableOf(p, d)
      ensures Present(m, x) ==> EntryAt(AddTable(m, p, d, f), x) == EntryAt(m, x)
    {
      if HasTable(m, x.pid, x.d) {
        assert TableOf(x.pid, x.d) in Names(m);
      }
      AddTableAt(m, p, d, f, x);
    }
    AddTableAt(m, p, d, f, TableOf(p, d));
  }

  lemma AddTableKeepsInv(m: Mem, p: nat, d: nat, f: nat)
    requires Inv(m) && HasDir(m, p, d) && !HasTable(m, p, d) && Free(m, f)
    ensures Inv(AddTable(m, p, d, f))
  {
    AddTableNames(m, p, d, f);
    GainKeepsInv(m, AddTable(m, p, d, f), TableOf(p, d), f);
  }

  /** No other directory slot points at the table of (p, d). */
  lemma TablesStayApart(m: Mem, p: nat, d: nat, p': nat, d': nat)
    requires Inv(m) && HasTable(m, p, d) && HasTable(m, p', d') && TableFrame(m, p', d') == TableFrame(m, p, d)
    ensures p' == p && d' == d
  {
    assert TableOf(p, d) in Names(m) && TableOf(p', d') in Names(m);
    assert Exclusive(TableOf(p, d), Names(m)[TableOf(p, d)]);
  }

  lemma SetPteAt(m: Mem, p: nat, d: nat, t: nat, e: Entry, x: Slot)
    requires HasPte(m, p, d, t)
    requires HasTable(m, x.pid, x.d) && TableFrame(m, x.pid, x.d) == TableFrame(m, p, d) ==> x.pid == p && x.d == d
    ensures x != PageOf(p, d, t) ==> Present(SetPte(m, p, d, t, e), x) == Present(m, x)
    ensures x != PageOf(p, d, t) && Present(m, x) ==> EntryAt(SetPte(m, p, d, t, e), x) == EntryAt(m, x)
    ensures HasPte(SetPte(m, p, d, t, e), p, d, t) && Pte(SetPte(m, p, d, t, e), p, d, t) == e
  {
  }

  lemma SetPteSlot(m: Mem, p: nat, d: nat, t: nat, e: Entry, x: Slot)
    requires Inv(m) && HasPte(m, p, d, t)
    ensures x != PageOf(p, d, t) ==> Present(SetPte(m, p, d, t, e), x) == Present(m, x)
    ensures x != PageOf(p, d, t) && Present(m, x) ==> EntryAt(SetPte(m, p, d, t, e), x) == EntryAt(m, x)
    ensures HasPte(SetPte(m, p, d, t, e), p, d, t) && Pte(SetPte(m, p, d, t, e), p, d, t) == e
  {
    if HasTable(m, x.pid, x.d) && TableFrame(m, x.pid, x.d) == TableFrame(m, p, d) {
      TablesStayApart(m, p, d, x.pid, x.d);
    }
    SetPteAt(m, p, d, t, e, x);
  }

  lemma SetPteKeepsOthers(m: Mem, p: nat, d: nat, t: nat, e: Entry)
    requires Inv(m) && HasPte(m, p, d, t)
    ensures forall x :: x != PageOf(p, d, t) ==> (x in Names(SetPte(m, p, d, t, e)) <==> x in Names(m))
    ensures forall x :: x != PageOf(p, d, t) && x in Names(m) ==> Names(SetPte(m, p, d, t, e))[x] == Names(m)[x]
  {
    forall x: Slot | x != PageOf(p, d, t)
      ensures x in Names(SetPte(m, p, d, t, e)) <==> x in Names(m)
      ensures x in Names(m) ==> Names(SetPte(m, p, d, t, e))[x] == Names(m)[x]
    {
      SetPteSlot(m, p, d, t, e, x);
    }
  }

  /** SetPte changes one entry of one process. */
  lemma SetPteNames(m: Mem, p: nat, d: nat, t: nat, e: Entry)
    requires Inv(m) && HasPte(m, p, d, t)
    ensures Names(SetPte(m, p, d, t, e)) ==
            if e.present then Names(m)[PageOf(p, d, t) := e] else Names(m) - {PageOf(p, d, t)}
  {
    SetPteKeepsOthers(m, p, d, t, e);
    SetPteSlot(m, p, d, t, e, PageOf(p, d, t));
    assert PageOf(p, d, t) in Names(SetPte(m, p, d, t, e)) <==> e.present;
  }

  lemma SameTables(m: Mem, m': Mem)
    requires m'.procs == m.procs && m'.tables == m.tables
    ensures Names(m') == Names(m)
  {
    forall x: Slot
      ensures Present(m', x) == Present(m, x)
      ensures Present(m, x) ==> EntryAt(m', x) == EntryAt(m, x)
    {
    }
  }

  lemma AddPageNames(m: Mem, p: nat, d: nat, t: nat, f: nat)
    requires Inv(m) && HasPte(m, p, d, t) && Free(m, f)
    ensures Names(AddPage(m, p, d, t, f)) == Names(m)[PageOf(p, d, t) := Fresh(f)]
  {
    SetPteNames(m, p, d, t, Fresh(f));
    SameTables(SetPte(m, p, d, t, Fresh(f)), AddPage(m, p, d, t, f));
  }

  lemma AddPageKeepsInv(m: Mem, p: nat, d: nat, t: nat, f: nat)
    requires Inv(m) && HasPte(m, p, d, t) && !Mapped(m, p, d, t) && Free(m, f)
    ensures Inv(AddPage(m, p, d, t, f))
  {
    AddPageNames(m, p, d, t, f);
    GainKeepsInv(m, AddPage(m, p, d, t, f), PageOf(p, d, t), f);
  }

  /** A mapped page can be unlinked: its frame is counted. */
  lemma MappedIsCounted(m: Mem, p: nat, d: nat, t: nat)
    requires Inv(m) && Mapped(m, p, d, t)
    ensures UserFrame(m, Pte(m, p, d, t).index) && m.refs[Pte(m, p, d, t).index] >= 1
  {
    NamedIsCounted(m, PageOf(p, d, t));
  }

  lemma RemovePageNames(m: Mem, p: nat, d: nat, t: nat)
    requires Inv(m) && Mapped(m, p, d, t) && Pte(m, p, d, t).index < |m.refs| && m.refs[Pte(m, p, d, t).index] >= 1
    ensures Names(RemovePage(m, p, d, t)) == Names(m) - {PageOf(p, d, t)}
  {
    var e := Pte(m, p, d, t).(present := false);
    SetPteNames(m, p, d, t, e);
    SameTables(SetPte(m, p, d, t, e), RemovePage(m, p, d, t));
  }

  lemma RemovePageKeepsInv(m: Mem, p: nat, d: nat, t: nat)
    requires Inv(m) && Mapped(m, p, d, t) && Pte(m, p, d, t).index < |m.refs| && m.refs[Pte(m, p, d, t).index] >= 1
    ensures Inv(RemovePage(m, p, d, t))
  {
    MappedIsCounted(m, p, d, t);
    RemovePageNames(m, p, d, t);
    assert PageOf(p, d, t) in Names(m);
    LoseKeepsInv(m, RemovePage(m, p, d, t), PageOf(p, d, t), Pte(m, p, d, t).index);
  }
}
