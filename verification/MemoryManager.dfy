/** The functions of src/kernel/memory.c in place: the counters are an array that
    the kernel updates, and every operation is proved against its step in Paging.
    A result ok == false is a kernel panic: an assertion or panic() ended the call. */
module MemoryManager {
  import opened Paging
  import opened PagingInvariant
  import opened CopyOnWrite
  import opened ForkLoop
  import opened Remap
  import opened HeapBreak

  class Memory {
    /** start_page, and one reference counter for each physical frame. */
    const start: nat
    const memoryMap: array<u8>
    var freePages: int
    var procs: map<nat, Proc>
    var tables: seq<seq<Entry>>
    var bytes: seq<Page>

    constructor (start: nat, memoryMap: array<u8>, freePages: int, procs: map<nat, Proc>, tables: seq<seq<Entry>>,
                 bytes: seq<Page>)
      ensures this.memoryMap == memoryMap
      ensures State() == Mem(start, memoryMap[..], freePages, procs, tables, bytes)
    {
      this.start, this.memoryMap, this.freePages := start, memoryMap, freePages;
      this.procs, this.tables, this.bytes := procs, tables, bytes;
    }

    function State(): Mem
      reads this, memoryMap
    {
      Mem(start, memoryMap[..], freePages, procs, tables, bytes)
    }

    /** get_page: the first zero counter from start_page up becomes one. */
    method GetPage() returns (ok: bool, f: nat)
      requires start <= memoryMap.Length
      modifies this`freePages, memoryMap
      ensures ok <==> FirstFree(old(State())) < memoryMap.Length && old(freePages) > 1
      ensures ok ==> f == FirstFree(old(State())) && f < memoryMap.Length
      ensures ok ==> State() == old(State()).(refs := old(memoryMap[..])[f := 1], freePages := old(freePages) - 1)
    {
      f := start;
      while f < memoryMap.Length && memoryMap[f] != 0
        invariant start <= f <= memoryMap.Length
        invariant forall k :: start <= k < f ==> memoryMap[k] != 0
      {
        f := f + 1;
      }
      if f == memoryMap.Length {
        return false, f;
      }
      memoryMap[f] := 1;
      freePages := freePages - 1;
      ok := freePages > 0;
    }

    /** put_page; false is one of its assertions, the last of which reads free_pages. */
    method PutPage(f: nat) returns (ok: bool)
      modifies this`freePages, memoryMap
      ensures ok <==> start <= f < memoryMap.Length && old(memoryMap[..])[f] >= 1 && 0 < freePages < memoryMap.Length
      ensures ok ==>
                && memoryMap[..] == Lowered(old(memoryMap[..]), f)
                && freePages == FreeAfter(old(memoryMap[..]), old(freePages), f)
      ensures CanPut(start, old(memoryMap[..]), old(freePages), f) ==> ok && Balanced(start, memoryMap[..], freePages)
    {
      if CanPut(start, memoryMap[..], freePages, f) {
        PutIsBalanced(start, memoryMap[..], freePages, f);
      }
      if f < start || f >= memoryMap.Length || memoryMap[f] < 1 {
        return false;
      }
      memoryMap[f] := memoryMap[f] - 1;
      if memoryMap[f] == 0 {
        freePages := freePages + 1;
      }
      ok := 0 < freePages < memoryMap.Length;
    }

    /** get_pte with create. */
    method GetPte(p: nat, d: nat) returns (ok: bool)
      requires Inv(State()) && HasDir(State(), p, d)
      modifies this`freePages, this`procs, this`tables, memoryMap
      ensures ok <==> CanTable(old(State()), p, d)
      ensures ok ==> State() == WithTable(old(State()), p, d)
    {
      if procs[p].pde[d].present {
        return true;
      }
      var f;
      ok, f := GetPage();
      if !ok {
        FreePagesPositive(old(State()));
        return;
      }
      procs := procs[p := procs[p].(pde := procs[p].pde[d := Fresh(f)])];
      tables := tables[f := seq(ENTRIES, _ => ABSENT)];
    }

    /** link_page. */
    method LinkPage(p: nat, page: nat) returns (ok: bool)
      requires Inv(State()) && HasDir(State(), p, Dir(page))
      modifies this`freePages, this`procs, this`tables, memoryMap
      ensures ok <==> CanLink(old(State()), p, Dir(page), Tab(page))
      ensures ok ==> State() == Link(old(State()), p, Dir(page), Tab(page)) && Inv(State())
    {
      var d, t := Dir(page), Tab(page);
      ok := GetPte(p, d);
      if !ok {
        return;
      }
      WithTableKeepsInv(old(State()), p, d);
      TableInRange(State(), p, d);
      var table := procs[p].pde[d].index;
      if tables[table][t].present {
        return;
      }
      var f;
      ghost var m1 := State();
      ok, f := GetPage();
      if !ok {
        FreePagesPositive(m1);
        return;
      }
      tables := tables[table := tables[table][t := Fresh(f)]];
      AddPageKeepsInv(m1, p, d, t, f);
    }

    /** The end of unlink_page, on an entry that is present. */
    method ClearPte(p: nat, d: nat, t: nat)
      requires Mapped(State(), p, d, t) && UserFrame(State(), Pte(State(), p, d, t).index)
      requires memoryMap[Pte(State(), p, d, t).index] >= 1 && Balanced(start, memoryMap[..], freePages)
      modifies this`freePages, this`tables, memoryMap
      ensures State() == RemovePage(old(State()), p, d, t)
    {
      var table := procs[p].pde[d].index;
      var e := tables[table][t];
      tables := tables[table := tables[table][t := e.(present := false)]];
      var put := PutPage(e.index);
      assert put;
    }

    /** unlink_page. */
    method UnlinkPage(p: nat, page: nat)
      requires Inv(State()) && HasDir(State(), p, Dir(page))
      modifies this`freePages, this`tables, memoryMap
      ensures State() == Unlink(old(State()), p, Dir(page), Tab(page)) && Inv(State())
    {
      ghost var m0 := State();
      var d, t := Dir(page), Tab(page);
      UnlinkKeepsInv(m0, p, d, t);
      if !procs[p].pde[d].present {
        return;
      }
      TableInRange(m0, p, d);
      var table := procs[p].pde[d].index;
      if !tables[table][t].present {
        return;
      }
      UnlinkActs(m0, p, d, t);
      InvIsBalanced(m0);
      ClearPte(p, d, t);
    }

    /** The inner loop of copy_pde: protect the entries of one table and count its pages. */
    method CopyTable(table: nat) returns (ok: bool)
      requires table < |tables| && Distinct(tables[table])
      requires forall t :: 0 <= t < |tables[table]| && tables[table][t].present ==>
          tables[table][t].index < memoryMap.Length
      requires forall f :: 0 <= f < memoryMap.Length ==> memoryMap[f] < REF_LIMIT
      modifies this`tables, memoryMap
      ensures ok ==> tables == old(tables)[table := ProtectTable(old(tables)[table])]
      ensures ok ==> Counted(old(memoryMap[..]), memoryMap[..], Frames(old(tables)[table]))
      ensures !ok ==> exists f ::
          f in Frames(old(tables)[table]) && f < memoryMap.Length && old(memoryMap[f]) + 1 >= REF_LIMIT
    {
      ghost var entries := tables[table];
      var t := 0;
      while t < |tables[table]|
        invariant 0 <= t <= |entries| && table < |tables| && |tables[table]| == |entries|
        invariant tables == old(tables)[table := tables[table]]
        invariant forall u :: 0 <= u < |entries| ==>
            tables[table][u] == if u < t then Protect(entries[u]) else entries[u]
        invariant Counted(old(memoryMap[..]), memoryMap[..], FramesUpTo(entries, t))
      {
        var e := tables[table][t];
        if e.present {
          assert e.index !in FramesUpTo(entries, t);
          if !e.shared {
            tables := tables[table := tables[table][t := e.(write := false)]];
          }
          memoryMap[e.index] := memoryMap[e.index] + 1;
          if memoryMap[e.index] >= REF_LIMIT {
            assert e.index in Frames(entries);
            return false;
          }
        }
        assert FramesUpTo(entries, t + 1) == FramesUpTo(entries, t) + if e.present then {e.index} else {};
        t := t + 1;
      }
      ok := true;
      assert tables[table] == ProtectTable(entries);
    }

    /** One page table of copy_pde: count and protect its pages, then copy it. */
    method CopySlot(table: nat) returns (ok: bool, f: nat, ghost refs1: seq<u8>)
      requires table < |tables| && Distinct(tables[table]) && |tables| == memoryMap.Length && start <= memoryMap.Length
      requires forall t :: 0 <= t < |tables[table]| && tables[table][t].present ==>
          tables[table][t].index < memoryMap.Length
      requires forall f :: 0 <= f < memoryMap.Length ==> memoryMap[f] < REF_LIMIT
      modifies this`freePages, this`tables, memoryMap
      ensures ok ==> SlotForked(old(State()), State(), table, old(tables)[table], refs1, f)
      ensures !ok ==> SlotFails(old(State()), old(tables)[table], refs1)
    {
      ok := CopyTable(table);
      refs1, f := memoryMap[..], 0;
      if !ok {
        return;
      }
      ok, f := GetPage();
      if !ok {
        return;
      }
      tables := tables[f := tables[table]];
    }

    /** copy_pde: the address space of child c shares every page of p. */
    method CopyPde(p: nat, c: nat) returns (ok: bool, ghost own: map<nat, nat>)
      requires Inv(State()) && p in procs && c !in procs
      modifies this`freePages, this`procs, this`tables, memoryMap
      ensures ok ==> Forked(old(State()), State(), p, c, own)
      ensures ok <==> CanFork(old(State()), p)
    {
      ghost var m0 := State();
      var pde := procs[p].pde;
      own := map[];
      ForkStart(m0, p);
      var d := KERNEL_TABLES;
      while d < SELF_SLOT
        invariant KERNEL_TABLES <= d <= SELF_SLOT && |pde| == ENTRIES && procs == m0.procs
        invariant ForkAt(m0, State(), p, pde, own, d)
      {
        ghost var m := State();
        if pde[d].present {
          ForkFinds(m0, m, p, pde, own, d);
          var f;
          var table := procs[p].pde[d].index;
          ghost var refs1;
          ok, f, refs1 := CopySlot(table);
          if !ok {
            ForkFails(m0, m, p, pde, own, d, refs1);
            return;
          }
          ForkMoves(m0, m, State(), p, pde, own, d, refs1, f);
          pde, own := pde[d := pde[d].(index := f)], own[d := f];
        } else {
          ForkSkip(m0, m, p, pde, own, d);
        }
        d := d + 1;
      }
      ghost var m := State();
      procs := procs[c := procs[p].(pde := pde)];
      ForkFinish(m0, m, State(), p, c, pde, own);
      ok := true;
    }

    /** The inner loop of free_pde: put every page of one table. */
    method FreeTable(table: seq<Entry>, ghost refs0: seq<u8>, ghost free0: int, ghost gone: set<nat>)
      requires Released(start, refs0, free0, gone, memoryMap[..], freePages) && Distinct(table)
      requires forall f :: f in Frames(table) ==> f !in gone && KERNEL_FRAMES <= f < |refs0| && refs0[f] >= 1
      requires Balanced(start, memoryMap[..], freePages)
      modifies this`freePages, memoryMap
      ensures Released(start, refs0, free0, gone + Frames(table), memoryMap[..], freePages)
      ensures Balanced(start, memoryMap[..], freePages)
    {
      var t := 0;
      assert gone + FramesUpTo(table, 0) == gone;
      while t < |table|
        invariant 0 <= t <= |table|
        invariant Released(start, refs0, free0, gone + FramesUpTo(table, t), memoryMap[..], freePages)
        invariant Balanced(start, memoryMap[..], freePages)
      {
        var e := table[t];
        if e.present {
          assert e.index in Frames(table) && e.index !in FramesUpTo(table, t);
          ReleaseOne(start, refs0, free0, gone + FramesUpTo(table, t), memoryMap[..], freePages, e.index);
          var put := PutPage(e.index);
          assert put;
        }
        assert gone + FramesUpTo(table, t + 1) == gone + FramesUpTo(table, t) + if e.present then {e.index} else {};
        t := t + 1;
      }
    }

    /** One directory slot of free_pde: its pages, then the table itself. */
    method FreeSlot(ghost m0: Mem, p: nat, d: nat)
      requires Inv(m0) && HasTable(m0, p, d) && ReleasedAt(m0, State(), p, d)
      requires Balanced(start, memoryMap[..], freePages)
      modifies this`freePages, memoryMap
      ensures ReleasedAt(m0, State(), p, d + 1) && Balanced(start, memoryMap[..], freePages)
    {
      ghost var gone := PagesBefore(m0, p, d) + TablesBefore(m0, p, d);
      ReleaseNext(m0, p, d, gone);
      var f := procs[p].pde[d].index;
      FreeTable(tables[f], m0.refs, m0.freePages, gone);
      ReleaseOne(start, m0.refs, m0.freePages, gone + Frames(tables[f]), memoryMap[..], freePages, f);
      var put := PutPage(f);
      assert put;
    }

    /** free_pde, called when process p exits. */
    method FreePde(p: nat)
      requires Inv(State()) && p in procs
      modifies this`freePages, this`procs, memoryMap
      ensures Exited(old(State()), State(), p)
    {
      ghost var m0 := State();
      ReleaseStart(m0, p);
      InvIsBalanced(m0);
      var d := KERNEL_TABLES;
      while d < SELF_SLOT
        invariant KERNEL_TABLES <= d <= SELF_SLOT && procs == m0.procs
        invariant ReleasedAt(m0, State(), p, d) && Balanced(start, memoryMap[..], freePages)
      {
        if procs[p].pde[d].present {
          FreeSlot(m0, p, d);
        } else {
          ReleaseSkip(m0, State(), p, d);
        }
        d := d + 1;
      }
      ghost var m := State();
      procs := procs - {p};
      ReleaseFinish(m0, m, State(), p);
    }

    /** The write-fault branch of page_fault; panics outside the cases of CanFault. */
    method WriteFaultAt(p: nat, page: nat) returns (ok: bool)
      requires Inv(State()) && Mapped(State(), p, Dir(page), Tab(page))
      modifies this`freePages, this`tables, this`bytes, memoryMap
      ensures ok <==> CanFault(old(State()), p, Dir(page), Tab(page))
      ensures ok ==> State() == WriteFault(old(State()), p, Dir(page), Tab(page)) && Inv(State())
    {
      ghost var m0 := State();
      var d, t := Dir(page), Tab(page);
      var table := procs[p].pde[d].index;
      var e := tables[table][t];
      MappedIsCounted(m0, p, d, t);
      if e.shared || e.readonly {
        return false;
      }
      if memoryMap[e.index] == 1 {
        tables := tables[table := tables[table][t := e.(write := true)]];
        ok := true;
      } else {
        ok := MoveToCopy(p, d, t, table, e);
        FreePagesPositive(m0);
      }
      if ok {
        FaultKeepsInv(m0, p, d, t);
      }
    }

    /** copy_page, and the entry moved to the copy. */
    method MoveToCopy(p: nat, d: nat, t: nat, table: nat, e: Entry) returns (ok: bool)
      requires Sized(State()) && Mapped(State(), p, d, t) && table == TableFrame(State(), p, d)
      requires e == Pte(State(), p, d, t) && !e.shared && !e.readonly && e.index < memoryMap.Length
          && memoryMap[e.index] > 1
      modifies this`freePages, this`tables, this`bytes, memoryMap
      ensures ok <==> FirstFree(old(State())) < memoryMap.Length && old(freePages) > 1
      ensures ok ==> CanFault(old(State()), p, d, t) && State() == WriteFault(old(State()), p, d, t)
    {
      var f;
      ok, f := GetPage();
      if ok {
        bytes := bytes[f := bytes[e.index]];
        memoryMap[e.index] := memoryMap[e.index] - 1;
        tables := tables[table := tables[table][t := Fresh(f)]];
        assert old(tables)[table][t := e.(present := false)][t := Fresh(f)] == old(tables)[table][t := Fresh(f)];
        assert State() == WriteFault(old(State()), p, d, t);
      }
    }

    /** page_fault on a user page: present and write are the bits of the error code. */
    method PageFault(p: nat, page: nat, present: bool, write: bool) returns (outcome: Outcome)
      requires Inv(State()) && p in procs
      modifies this`freePages, this`procs, this`tables, this`bytes, memoryMap
      ensures outcome == Killed <==> !(EXEC_PAGE <= page < STACK_TOP_PAGE)
      ensures outcome == Killed ==> State() == old(State())
      ensures outcome == Handled ==> Inv(State())
      ensures outcome == Handled && present ==>
                && write && CanFault(old(State()), p, Dir(page), Tab(page))
                && State() == WriteFault(old(State()), p, Dir(page), Tab(page))
      ensures outcome == Handled && !present ==>
                && Touchable(old(State()), p, Va(Dir(page), Tab(page)))
                && CanLink(old(State()), p, Dir(page), Tab(page))
                && State() == Link(old(State()), p, Dir(page), Tab(page))
      ensures !present && Touchable(old(State()), p, At(page)) && CanLink(old(State()), p, Dir(page), Tab(page)) ==>
                outcome == Handled
      ensures outcome == Panic ==>
                if present then !write || !CanFault(old(State()), p, Dir(page), Tab(page))
                else !(Touchable(old(State()), p, Va(Dir(page), Tab(page))) &&
                       CanLink(old(State()), p, Dir(page), Tab(page)))
    {
      if page < EXEC_PAGE || page >= STACK_TOP_PAGE {
        return Killed;
      }
      var ok := false;
      if present {
        if write && Mapped(State(), p, Dir(page), Tab(page)) {
          ok := WriteFaultAt(p, page);
        }
      } else if page < procs[p].brk || page >= STACK_BOTTOM_PAGE {
        ok := LinkPage(p, page);
      }
      outcome := if ok then Handled else Panic;
    }

    /** One page of sys_mmap, mapped already or not. */
    method MmapPage(p: nat, page: nat, writable: bool, shared: bool) returns (ok: bool)
      requires Inv(State()) && HasDir(State(), p, Dir(page))
      modifies this`freePages, this`procs, this`tables, memoryMap
      ensures ok <==> CanLink(old(State()), p, Dir(page), Tab(page))
      ensures ok ==> State() == Mmap(old(State()), p, Dir(page), Tab(page), writable, shared)
      ensures ok ==> (Inv(State()) <==> CanRemap(old(State()), p, Dir(page), Tab(page), writable, shared))
    {
      ghost var m0 := State();
      var d, t := Dir(page), Tab(page);
      ok := LinkPage(p, page);
      if ok {
        if !Mapped(m0, p, d, t) {
          LinkKeepsInv(m0, p, d, t);
        }
        MmapKeepsInvIff(m0, p, d, t, writable, shared);
        var table := procs[p].pde[d].index;
        var e := tables[table][t];
        var e' := e.(write := writable, readonly := !writable, shared := e.shared || shared);
        tables := tables[table := tables[table][t := e']];
      }
    }

    /** The loop of sys_brk and of sys_munmap. */
    method UnlinkPages(p: nat, lo: nat, hi: nat)
      requires Inv(State()) && p in procs && EXEC_PAGE <= lo <= hi <= STACK_TOP_PAGE
      modifies this`freePages, this`tables, memoryMap
      ensures Inv(State()) && State() == UnlinkRange(old(State()), p, lo, hi)
    {
      ghost var m0 := State();
      for page := lo to hi
        invariant Inv(State()) && procs == m0.procs
        invariant State() == UnlinkRange(m0, p, lo, page)
      {
        UserPageHasDir(State(), p, page);
        UnlinkPage(p, page);
      }
    }

    /** sys_brk: 0, -1 when the heap cannot grow that far, or a failed assertion. */
    method SetBrk(p: nat, brk: nat) returns (ok: bool, r: int)
      requires Inv(State()) && p in procs
      modifies this`freePages, this`procs, this`tables, memoryMap
      ensures ok <==> old(procs[p]).end <= brk <= MMAP_PAGE
      ensures ok ==> r == if CanBrk(old(State()), p, brk) then 0 else -1
      ensures ok && r == 0 ==> State() == Brk(old(State()), p, brk)
      ensures ok && r == 0 ==> Inv(State()) && BreakAt(old(State()), State(), p, brk)
      ensures ok && r == -1 ==> State() == old(State())
    {
      ghost var m0 := State();
      r := -1;
      if brk < procs[p].end || brk > MMAP_PAGE {
        return false, r;
      }
      if procs[p].brk > brk {
        UnlinkPages(p, brk, procs[p].brk);
      } else if brk - procs[p].brk > freePages {
        return true, r;
      }
      BreakMoves(m0, p, brk);
      procs := procs[p := procs[p].(brk := brk)];
      ok, r := true, 0;
    }
  }

  /** How page_fault ends: the page is there, the task is ended, or the kernel stops. */
  datatype Outcome = Handled | Killed | Panic

  /** A counter lowered, and free_pages after it. */
  function Lowered(refs: seq<u8>, f: nat): seq<u8> {
    if f < |refs| && refs[f] >= 1 then refs[f := refs[f] - 1] else refs
  }

  function FreeAfter(refs: seq<u8>, freePages: int, f: nat): int {
    if f < |refs| && refs[f] == 1 then freePages + 1 else freePages
  }

  /** free_pages counts the zero counters, and no frame of the kernel has one. */
  ghost predicate Balanced(start: nat, refs: seq<u8>, freePages: int) {
    && 0 < start < KERNEL_FRAMES <= |refs|
    && (forall f :: 0 <= f < KERNEL_FRAMES ==> refs[f] != 0)
    && freePages == |ZeroSet(start, refs)| + (KERNEL_FRAMES - start)
  }

  ghost predicate CanPut(start: nat, refs: seq<u8>, freePages: int, f: nat) {
    Balanced(start, refs, freePages) && KERNEL_FRAMES <= f < |refs| && refs[f] >= 1
  }

  lemma InvIsBalanced(m: Mem)
    requires Inv(m)
    ensures Balanced(m.start, m.refs, m.freePages)
  {
  }

  /** The frames from lo up to hi. */
  ghost function Span(lo: nat, hi: nat): (s: set<nat>)
    requires lo <= hi
    ensures |s| == hi - lo && forall f: nat :: f in s <==> lo <= f < hi
  {
    if lo == hi then {} else Span(lo, hi - 1) + {hi - 1}
  }

  /** The last assertion of put_page holds for every frame that a process gives up. */
  lemma PutIsBalanced(start: nat, refs: seq<u8>, freePages: int, f: nat)
    requires CanPut(start, refs, freePages, f)
    ensures Balanced(start, Lowered(refs, f), FreeAfter(refs, freePages, f))
    ensures 0 < FreeAfter(refs, freePages, f) < |refs|
  {
    var refs' := Lowered(refs, f);
    assert ZeroSet(start, refs') == ZeroSet(start, refs) + if refs[f] == 1 then {f} else {};
    assert ZeroSet(start, refs') <= Span(KERNEL_FRAMES, |refs|);
    SubsetSize(ZeroSet(start, refs'), Span(KERNEL_FRAMES, |refs|));
  }

  /** free_pages stays positive while a frame is left, so that get_page's assertion holds. */
  lemma FreePagesPositive(m: Mem)
    requires Inv(m)
    ensures FirstFree(m) < |m.refs| ==> m.freePages > 1
  {
    if FirstFree(m) < |m.refs| {
      assert FirstFree(m) in ZeroSet(m.start, m.refs);
    }
  }

  lemma UserPageHasDir(m: Mem, p: nat, page: nat)
    requires Inv(m) && p in m.procs && EXEC_PAGE <= page < STACK_TOP_PAGE
    ensures HasDir(m, p, Dir(page))
  {
  }

  /** A page whose table and entry are present is the case that unlink_page acts on. */
  lemma UnlinkActs(m: Mem, p: nat, d: nat, t: nat)
    requires Inv(m) && Mapped(m, p, d, t)
    ensures UserFrame(m, Pte(m, p, d, t).index) && m.refs[Pte(m, p, d, t).index] >= 1
    ensures Unlink(m, p, d, t) == RemovePage(m, p, d, t)
  {
    MappedIsCounted(m, p, d, t);
  }
}
