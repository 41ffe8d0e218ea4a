/** sys_mmap over a page that is mapped already (src/kernel/memory.c): link_page leaves the frame
    as it is, and the bits of the entry are set all the same. */
module Remap {
  import opened Paging
  import opened PagingInvariant
  import opened ForkExit
  import opened CopyOnWrite

  /** The page is new, or nobody else names its frame, or the frame is shared memory already,
      or the mapping asks neither for writing nor for sharing. */
  predicate CanRemap(m: Mem, p: nat, d: nat, t: nat, w: bool, sh: bool) {
    Mapped(m, p, d, t) ==>
      var e := Pte(m, p, d, t);
      (e.index < |m.refs| && m.refs[e.index] == 1) || e.shared || (!w && !sh)
  }

  /** An entry that neither becomes writable alone nor changes sides may share its frame. */
  lemma SharedNameIsIsolated(ns: map<Slot, Entry>, frames: nat, x: Slot, en: Entry)
    requires Isolated(ns, frames) && x in ns && x.PageOf? && en.present
    requires en.index == ns[x].index && en.shared == ns[x].shared && (en.write ==> en.shared)
    requires (en.readonly ==> !en.write) && (en.shared && !en.readonly ==> en.write)
    ensures Isolated(ns[x := en], frames)
  {
  }

  lemma SharedSetKeepsInv(m: Mem, p: nat, d: nat, t: nat, en: Entry)
    requires Inv(m) && Mapped(m, p, d, t) && en.present && en.index == Pte(m, p, d, t).index
    requires en.shared == Pte(m, p, d, t).shared && (en.write ==> en.shared)
    requires (en.readonly ==> !en.write) && (en.shared && !en.readonly ==> en.write)
    ensures Inv(SetPte(m, p, d, t, en))
  {
    SetPteNames(m, p, d, t, en);
    SharedNameIsIsolated(Names(m), |m.refs|, PageOf(p, d, t), en);
    SameFrameIsExact(Names(m), m.refs, PageOf(p, d, t), en);
  }

  lemma SoleSetKeepsInv(m: Mem, p: nat, d: nat, t: nat, w: bool, sh: bool)
    requires Inv(m) && Mapped(m, p, d, t) && UserFrame(m, Pte(m, p, d, t).index) && m.refs[Pte(m, p, d, t).index] == 1
    ensures Inv(SetPte(m, p, d, t, MmapEntry(Pte(m, p, d, t), w, sh)))
  {
    var x, en := PageOf(p, d, t), Pte(m, p, d, t);
    assert x in Names(m);
    forall y | y in Names(m) && Names(m)[y].index == en.index
      ensures y == x
    {
      OnlyName(m, x, y);
    }
    SetPteKeepsInv(m, p, d, t, MmapEntry(en, w, sh));
  }

  /** A counter above one means another name. */
  lemma AnotherName(m: Mem, x: Slot) returns (y: Slot)
    requires Inv(m) && Present(m, x) && UserFrame(m, EntryAt(m, x).index) && m.refs[EntryAt(m, x).index] > 1
    ensures y != x && y in Names(m) && Names(m)[y].index == EntryAt(m, x).index
  {
    var s := NameSet(Names(m), EntryAt(m, x).index);
    assert x in s && |s - {x}| == |s| - 1 > 0;
    y :| y in s - {x};
  }

  /** Otherwise two tasks could write one page that both think private, or would not agree on
      whether it is shared. */
  lemma RemapBreaks(m: Mem, p: nat, d: nat, t: nat, w: bool, sh: bool)
    requires Inv(m) && Mapped(m, p, d, t) && !CanRemap(m, p, d, t, w, sh)
    ensures !Inv(SetPte(m, p, d, t, MmapEntry(Pte(m, p, d, t), w, sh)))
  {
    var x, en := PageOf(p, d, t), MmapEntry(Pte(m, p, d, t), w, sh);
    NamedIsCounted(m, x);
    var y := AnotherName(m, x);
    SetPteNames(m, p, d, t, en);
    var ns := Names(m)[x := en];
    assert x in Names(m) && Names(m)[x].shared == Names(m)[y].shared;
    if sh {
      assert ns[x].shared != ns[y].shared && ns[x].index == ns[y].index;
    } else {
      assert Exclusive(x, ns[x]) && ns[x].index == ns[y].index;
    }
  }

  /** One page of sys_mmap keeps the invariant exactly when it is asked for on a page that is
      not mapped, or that it may change in place. */
  lemma MmapKeepsInvIff(m: Mem, p: nat, d: nat, t: nat, w: bool, sh: bool)
    requires Inv(m) && CanLink(m, p, d, t)
    ensures Inv(Mmap(m, p, d, t, w, sh)) <==> CanRemap(m, p, d, t, w, sh)
  {
    if !Mapped(m, p, d, t) {
      MmapKeepsInv(m, p, d, t, w, sh);
    } else if !CanRemap(m, p, d, t, w, sh) {
      RemapBreaks(m, p, d, t, w, sh);
    } else {
      NamedIsCounted(m, PageOf(p, d, t));
      if m.refs[Pte(m, p, d, t).index] == 1 {
        SoleSetKeepsInv(m, p, d, t, w, sh);
      } else {
        SharedSetKeepsInv(m, p, d, t, MmapEntry(Pte(m, p, d, t), w, sh));
      }
    }
  }

  /** A page mapped for writing can be stored to at once; one mapped otherwise can be neither stored
      to nor made writable by a fault. */
  lemma MmapPermits(m: Mem, p: nat, d: nat, t: nat, w: bool, sh: bool)
    requires Inv(m) && CanLink(m, p, d, t)
    ensures CanStore(Mmap(m, p, d, t, w, sh), p, d, t) <==> w
    ensures !w ==> !CanFault(Mmap(m, p, d, t, w, sh), p, d, t)
    ensures !Mapped(m, p, d, t) ==> CanStore(Link(m, p, d, t), p, d, t)
  {
    if Mapped(m, p, d, t) {
      NamedIsCounted(m, PageOf(p, d, t));
    } else {
      LinkKeepsInv(m, p, d, t);
      NamedIsCounted(Link(m, p, d, t), PageOf(p, d, t));
    }
  }

  /** The page of another task that names the frame of a page that is mapped again. */
  lemma OtherStays(m: Mem, p: nat, c: nat, d: nat, t: nat)
    requires Inv(m) && Mapped(m, p, d, t) && Mapped(m, c, d, t) && p != c
    ensures var r := Mmap(m, p, d, t, true, false);
            && Mapped(r, p, d, t) && Pte(r, p, d, t) == MmapEntry(Pte(m, p, d, t), true, false)
            && Mapped(r, c, d, t) && Pte(r, c, d, t) == Pte(m, c, d, t)
  {
    var x, y, r := PageOf(p, d, t), PageOf(c, d, t), Mmap(m, p, d, t, true, false);
    SetPteNames(m, p, d, t, MmapEntry(Pte(m, p, d, t), true, false));
    assert x in Names(r) && y in Names(r) && y in Names(m);
  }

  lemma OtherSeesStore(m: Mem, p: nat, c: nat, d: nat, t: nat, off: nat, b: u8)
    requires CanStore(m, p, d, t) && Mapped(m, c, d, t) && Pte(m, c, d, t).index == Pte(m, p, d, t).index
    requires off < PAGE_SIZE
    ensures HoldsByte(Paging.Store(m, p, d, t, off, b), c, Va(d, t), off, b)
  {
  }

  lemma ForkSharesPage(m: Mem, m': Mem, p: nat, c: nat, own: map<nat, nat>, d: nat, t: nat)
    requires Inv(m) && Forked(m, m', p, c, own) && Mapped(m, p, d, t)
    ensures Inv(m') && p != c && Mapped(m', p, d, t) && Mapped(m', c, d, t)
    ensures Pte(m', p, d, t).index == Pte(m', c, d, t).index < |m'.bytes|
  {
    ForkKeepsInv(m, m', p, c, own);
    var x, y := PageOf(p, d, t), PageOf(c, d, t);
    assert x in Names(m) && x in Names(m') && y in Names(m');
  }

  /** After a fork the parent maps a page of its again, for writing, and stores a byte: the child
      finds the byte in its own page, also when the page is not shared memory. */
  lemma ChildSeesRemappedStore(m: Mem, m': Mem, p: nat, c: nat, own: map<nat, nat>, d: nat, t: nat, off: nat, b: u8)
    requires Inv(m) && Forked(m, m', p, c, own) && Mapped(m, p, d, t) && off < PAGE_SIZE
    ensures CanLink(m', p, d, t) && CanStore(Mmap(m', p, d, t, true, false), p, d, t)
    ensures HoldsByte(Paging.Store(Mmap(m', p, d, t, true, false), p, d, t, off, b), c, Va(d, t), off, b)
  {
    ForkSharesPage(m, m', p, c, own, d, t);
    OtherStays(m', p, c, d, t);
    OtherSeesStore(Mmap(m', p, d, t, true, false), p, c, d, t, off, b);
  }
}
