/** The main theorem of the paging code: over every run, lazy copying gives each
    process the memory that a fork which copies every private page would give it. */
module CopyOnWrite {
  import opened Paging
  import opened PagingInvariant
  import opened ForkExit

  // ----- The reference machine: fork copies, nothing is counted --------------

  datatype Va = Va(d: nat, t: nat)

  function PageNo(v: Va): nat {
    v.d * ENTRIES + v.t
  }

  /** A private page holds its own bytes; a shared one refers to a common object. */
  datatype View = Private(page: Page, readonly: bool) | Shared(obj: nat, readonly: bool)

  type Space = map<Va, View>

  datatype Eager = Eager(spaces: map<nat, Space>, objs: map<nat, Page>)

  function Content(e: Eager, v: View): Page
    requires v.Shared? ==> v.obj in e.objs
  {
    match v
    case Private(page, _) => page
    case Shared(obj, _) => e.objs[obj]
  }

  /** What the processes and the kernel do, with the values a user can observe. */
  datatype Action =
    | Spawn(p: nat)
    | Fork(p: nat, c: nat)
    | Exit(p: nat)
    | Touch(p: nat, v: Va, page: Page)
    | Map(p: nat, v: Va, writable: bool, obj: nat, page: Page, shared: bool)
    | Unmap(p: nat, lo: nat, hi: nat)
    | SetBrk(p: nat, brk: nat, was: nat)
    | Fault(p: nat, v: Va)
    | Store(p: nat, v: Va, off: nat, b: u8)
    | Load(p: nat, v: Va, off: nat, b: u8)

  function Cut(s: Space, lo: nat, hi: nat): Space {
    map v | v in s && !(lo <= PageNo(v) < hi) :: s[v]
  }

  function EagerStore(e: Eager, p: nat, v: Va, off: nat, b: u8): Eager
    requires p in e.spaces && v in e.spaces[p] && off < PAGE_SIZE
    requires e.spaces[p][v].Shared? ==> e.spaces[p][v].obj in e.objs
  {
    match e.spaces[p][v]
    case Private(page, ro) => e.(spaces := e.spaces[p := e.spaces[p][v := Private(page[off := b], ro)]])
    case Shared(obj, _) => e.(objs := e.objs[obj := e.objs[obj][off := b]])
  }

  /** No page of any process refers to this object. */
  ghost predicate Unreferred(e: Eager, obj: nat) {
    forall p, v :: p in e.spaces && v in e.spaces[p] && e.spaces[p][v].Shared? ==> e.spaces[p][v].obj != obj
  }

  /** Is the action possible on the reference machine, with these observations? A shared
      mapping is of an object that is in nobody's space yet. */
  ghost predicate EagerCan(e: Eager, a: Action) {
    match a
    case Spawn(p) => p !in e.spaces
    case Fork(p, c) => p in e.spaces && c !in e.spaces
    case Exit(p) => p in e.spaces
    case Touch(p, v, _) => p in e.spaces && v !in e.spaces[p]
    case Map(p, v, _, obj, _, sh) => p in e.spaces && v !in e.spaces[p] && (sh ==> Unreferred(e, obj))
    case Unmap(p, _, _) => p in e.spaces
    case SetBrk(p, _, _) => p in e.spaces
    case Fault(p, v) => p in e.spaces && v in e.spaces[p]
    case Store(p, v, off, _) =>
      && p in e.spaces && v in e.spaces[p] && off < PAGE_SIZE && !e.spaces[p][v].readonly
      && (e.spaces[p][v].Shared? ==> e.spaces[p][v].obj in e.objs)
    case Load(p, v, off, b) =>
      && p in e.spaces && v in e.spaces[p] && off < PAGE_SIZE
      && (e.spaces[p][v].Shared? ==> e.spaces[p][v].obj in e.objs)
      && Content(e, e.spaces[p][v])[off] == b
  }

  /** The reference machine: fork duplicates the space, a fault does nothing. */
  ghost function EagerStep(e: Eager, a: Action): Eager
    requires EagerCan(e, a)
  {
    match a
    case Spawn(p) => e.(spaces := e.spaces[p := map[]])
    case Fork(p, c) => e.(spaces := e.spaces[c := e.spaces[p]])
    case Exit(p) => e.(spaces := e.spaces - {p})
    case Touch(p, v, page) => e.(spaces := e.spaces[p := e.spaces[p][v := Private(page, false)]])
    case Map(p, v, w, obj, page, sh) =>
      if sh then Eager(e.spaces[p := e.spaces[p][v := Shared(obj, !w)]], e.objs[obj := page])
      else e.(spaces := e.spaces[p := e.spaces[p][v := Private(page, !w)]])
    case Unmap(p, lo, hi) => e.(spaces := e.spaces[p := Cut(e.spaces[p], lo, hi)])
    case SetBrk(p, brk, was) => e.(spaces := e.spaces[p := Cut(e.spaces[p], brk, was)])
    case Fault(_, _) => e
    case Store(p, v, off, b) => EagerStore(e, p, v, off, b)
    case Load(_, _, _, _) => e
  }

  // ----- The kernel's machine -----------------------------------------------

  /** unlink_page over the pages [lo, hi): what sys_brk and sys_munmap do. */
  function UnlinkRange(m: Mem, p: nat, lo: nat, hi: nat): (r: Mem)
    ensures r.procs == m.procs && r.bytes == m.bytes
    decreases hi
  {
    if lo >= hi then m else Unlink(UnlinkRange(m, p, lo, hi - 1), p, Dir(hi - 1), Tab(hi - 1))
  }

  lemma {:induction false} UnlinkRangeKeepsInv(m: Mem, p: nat, lo: nat, hi: nat)
    requires Inv(m)
    ensures Inv(UnlinkRange(m, p, lo, hi))
    ensures Names(UnlinkRange(m, p, lo, hi)) == CutNames(Names(m), p, lo, hi)
    decreases hi
  {
    if lo >= hi {
      CutNone(Names(m), p, lo, hi);
    } else {
      UnlinkRangeKeepsInv(m, p, lo, hi - 1);
      UnlinkKeepsInv(UnlinkRange(m, p, lo, hi - 1), p, Dir(hi - 1), Tab(hi - 1));
      CutOne(Names(m), p, lo, hi);
    }
  }

  predicate InRange(x: Slot, p: nat, lo: nat, hi: nat) {
    x.PageOf? && x.pid == p && lo <= PageNo(Va(x.d, x.t)) < hi
  }

  ghost function CutNames(ns: map<Slot, Entry>, p: nat, lo: nat, hi: nat): map<Slot, Entry> {
    map x | x in ns && !InRange(x, p, lo, hi) :: ns[x]
  }

  /** A page number and its directory and table indices determine each other. */
  lemma PageNoSplits(d: nat, t: nat, page: nat)
    requires t < ENTRIES
    ensures PageNo(Va(d, t)) == page <==> d == Dir(page) && t == Tab(page)
  {
  }

  lemma CutOne(ns: map<Slot, Entry>, p: nat, lo: nat, hi: nat)
    requires lo < hi && forall x :: x in ns && x.PageOf? ==> x.t < ENTRIES
    ensures CutNames(ns, p, lo, hi - 1) - {PageOf(p, Dir(hi - 1), Tab(hi - 1))} == CutNames(ns, p, lo, hi)
  {
    forall x | x in ns && x.PageOf?
      ensures PageNo(Va(x.d, x.t)) == hi - 1 <==> x.d == Dir(hi - 1) && x.t == Tab(hi - 1)
    {
      PageNoSplits(x.d, x.t, hi - 1);
    }
  }

  lemma CutNone(ns: map<Slot, Entry>, p: nat, lo: nat, hi: nat)
    requires lo >= hi
    ensures CutNames(ns, p, lo, hi) == ns
  {
  }

  /** unlink_page: nothing happens when the table or the entry is missing; put_page
      asserts that the frame is counted. */
  function Unlink(m: Mem, p: nat, d: nat, t: nat): (r: Mem)
    ensures r.procs == m.procs && r.bytes == m.bytes
  {
    if Mapped(m, p, d, t) && UserFrame(m, Pte(m, p, d, t).index) && m.refs[Pte(m, p, d, t).index] >= 1 then
      RemovePage(m, p, d, t)
    else
      m
  }

  /** Under the invariant the assertion of put_page never fails here. */
  lemma UnlinkKeepsInv(m: Mem, p: nat, d: nat, t: nat)
    requires Inv(m)
    ensures Inv(Unlink(m, p, d, t)) && Names(Unlink(m, p, d, t)) == Names(m) - {PageOf(p, d, t)}
  {
    if Mapped(m, p, d, t) {
      MappedIsCounted(m, p, d, t);
      RemovePageKeepsInv(m, p, d, t);
      RemovePageNames(m, p, d, t);
    } else {
      assert PageOf(p, d, t) !in Names(m);
    }
  }

  /** A task that enters user mode: nothing is mapped yet. */
  function FirstProc(): Proc {
    Proc(seq(ENTRIES, _ => ABSENT), EXEC_PAGE, EXEC_PAGE)
  }

  ghost predicate UserVa(v: Va) {
    UserDir(v.d) && v.t < ENTRIES
  }

  /** page_fault links a page of the heap or of the stack on first touch. */
  ghost predicate Touchable(m: Mem, p: nat, v: Va) {
    && p in m.procs && UserVa(v) && EXEC_PAGE <= PageNo(v) < STACK_TOP_PAGE
    && (PageNo(v) < m.procs[p].brk || STACK_BOTTOM_PAGE <= PageNo(v))
  }

  ghost predicate TouchStep(m: Mem, m': Mem, p: nat, v: Va, page: Page)
  {
    && Touchable(m, p, v) && !Mapped(m, p, v.d, v.t) && CanLink(m, p, v.d, v.t)
    && m' == Link(m, p, v.d, v.t) && HoldsPage(m', p, v, page)
  }

  ghost predicate MapStep(m: Mem, m': Mem, p: nat, v: Va, w: bool, obj: nat, page: Page, sh: bool)
  {
    && p in m.procs && UserVa(v) && MMAP_PAGE <= PageNo(v) < STACK_BOTTOM_PAGE
    && !Mapped(m, p, v.d, v.t) && CanLink(m, p, v.d, v.t)
    && m' == Mmap(m, p, v.d, v.t, w, sh) && HoldsPage(m', p, v, page)
    && Pte(m', p, v.d, v.t).index == obj
  }

  ghost predicate Step(m: Mem, m': Mem, a: Action) {
    match a
    case Spawn(p) => p !in m.procs && m' == m.(procs := m.procs[p := FirstProc()])
    case Fork(p, c) => exists own :: Forked(m, m', p, c, own)
    case Exit(p) => Exited(m, m', p)
    case Touch(p, v, page) => TouchStep(m, m', p, v, page)
    case Map(p, v, w, obj, page, sh) => MapStep(m, m', p, v, w, obj, page, sh)
    case Unmap(p, lo, hi) =>
      p in m.procs && MMAP_PAGE <= lo < STACK_BOTTOM_PAGE && hi <= STACK_TOP_PAGE && m' == UnlinkRange(m, p, lo, hi)
    case SetBrk(p, brk, was) => CanBrk(m, p, brk) && was == m.procs[p].brk && m' == Brk(m, p, brk)
    case Fault(p, v) => CanFault(m, p, v.d, v.t) && m' == WriteFault(m, p, v.d, v.t)
    case Store(p, v, off, b) => CanStore(m, p, v.d, v.t) && off < PAGE_SIZE
        && m' == Paging.Store(m, p, v.d, v.t, off, b)
    case Load(p, v, off, b) => m' == m && off < PAGE_SIZE && HoldsByte(m, p, v, off, b)
  }

  ghost predicate HoldsPage(m: Mem, p: nat, v: Va, page: Page)
  {
    Mapped(m, p, v.d, v.t) && Pte(m, p, v.d, v.t).index < |m.bytes| && m.bytes[Pte(m, p, v.d, v.t).index] == page
  }

  ghost predicate HoldsByte(m: Mem, p: nat, v: Va, off: nat, b: u8)
    requires off < PAGE_SIZE
  {
    Mapped(m, p, v.d, v.t) && Pte(m, p, v.d, v.t).index < |m.bytes| && m.bytes[Pte(m, p, v.d, v.t).index][off] == b
  }

  /** sys_brk accepts the new end of the heap. */
  ghost predicate CanBrk(m: Mem, p: nat, brk: nat) {
    && p in m.procs
    && m.procs[p].end <= brk <= MMAP_PAGE
    && (m.procs[p].brk <= brk ==> brk - m.procs[p].brk <= m.freePages)
  }

  ghost function Brk(m: Mem, p: nat, brk: nat): Mem
    requires p in m.procs
  {
    var m1 := UnlinkRange(m, p, brk, m.procs[p].brk);
    m1.(procs := m1.procs[p := m1.procs[p].(brk := brk)])
  }

  // ----- The simulation -----------------------------------------------------

  ghost predicate Agrees(w: View, en: Entry, bytes: seq<Page>, objs: map<nat, Page>) {
    && en.index < |bytes| && en.readonly == w.readonly
    && match w
       case Private(page, _) => !en.shared && page == bytes[en.index]
       case Shared(obj, _) => en.shared && obj == en.index && obj in objs && objs[obj] == bytes[en.index]
  }

  ghost predicate SpaceAgrees(s: Space, p: nat, ns: map<Slot, Entry>, bytes: seq<Page>, objs: map<nat, Page>) {
    && (forall v :: v in s <==> PageOf(p, v.d, v.t) in ns)
    && (forall v :: v in s ==> Agrees(s[v], ns[PageOf(p, v.d, v.t)], bytes, objs))
  }

  /** Every process of the reference machine sees what the page tables show. */
  ghost predicate Sim(pids: set<nat>, ns: map<Slot, Entry>, bytes: seq<Page>, e: Eager) {
    && e.spaces.Keys == pids
    && forall p :: p in pids ==> SpaceAgrees(e.spaces[p], p, ns, bytes, e.objs)
  }

  ghost predicate Matches(m: Mem, e: Eager)
  {
    Sim(m.procs.Keys, Names(m), m.bytes, e)
  }

  /** The reference machine can do a, and afterwards shows what these tables show. */
  ghost predicate Shows(pids: set<nat>, ns: map<Slot, Entry>, bytes: seq<Page>, e: Eager, a: Action) {
    EagerCan(e, a) && Sim(pids, ns, bytes, EagerStep(e, a))
  }

  /** The page slots of ns' are those of ns, except for x. */
  ghost predicate OnlyPage(ns: map<Slot, Entry>, ns': map<Slot, Entry>, x: Slot) {
    forall y: Slot :: y.PageOf? && y != x ==> (y in ns' <==> y in ns) && (y in ns ==> ns'[y] == ns[y])
  }

  /** Every page but x keeps its bytes. */
  ghost predicate OthersKeep(ns: map<Slot, Entry>, x: Slot, bytes: seq<Page>, bytes': seq<Page>, objs: map<nat, Page>,
                             objs': map<nat, Page>) {
    && |bytes'| == |bytes|
    && (forall y :: y in ns && y.PageOf? && y != x && ns[y].index < |bytes| ==>
                      && bytes'[ns[y].index] == bytes[ns[y].index]
                      && (ns[y].index in objs ==> ns[y].index in objs' && objs'[ns[y].index] == objs[ns[y].index]))
  }

  /** One page of one process changes to a view that agrees with its new entry. */
  lemma SimSet(pids: set<nat>, ns: map<Slot, Entry>, ns': map<Slot, Entry>, bytes: seq<Page>, bytes': seq<Page>,
               e: Eager, p: nat, v: Va, w: View, objs': map<nat, Page>)
    requires Sim(pids, ns, bytes, e) && p in pids
    requires OnlyPage(ns, ns', PageOf(p, v.d, v.t)) && PageOf(p, v.d, v.t) in ns'
    requires Agrees(w, ns'[PageOf(p, v.d, v.t)], bytes', objs')
    requires OthersKeep(ns, PageOf(p, v.d, v.t), bytes, bytes', e.objs, objs')
    ensures Sim(pids, ns', bytes', Eager(e.spaces[p := e.spaces[p][v := w]], objs'))
  {
    var spaces' := e.spaces[p := e.spaces[p][v := w]];
    forall q | q in pids
      ensures SpaceAgrees(spaces'[q], q, ns', bytes', objs')
    {
      forall u: Va
        ensures u in spaces'[q] <==> PageOf(q, u.d, u.t) in ns'
        ensures u in spaces'[q] ==> Agrees(spaces'[q][u], ns'[PageOf(q, u.d, u.t)], bytes', objs')
      {
        if q == p && u == v {
        } else {
          assert PageOf(q, u.d, u.t) != PageOf(p, v.d, v.t);
          assert u in spaces'[q] <==> u in e.spaces[q];
        }
      }
    }
    assert spaces'.Keys == pids;
  }

  /** A store to a shared object changes what all of its mappings show, and nothing else. */
  lemma SimSharedStore(pids: set<nat>, ns: map<Slot, Entry>, bytes: seq<Page>, e: Eager, f: nat, page: Page)
    requires Sim(pids, ns, bytes, e) && f < |bytes|
    requires forall y :: y in ns && ns[y].index == f ==> ns[y].shared
    ensures Sim(pids, ns, bytes[f := page], e.(objs := e.objs[f := page]))
  {
    forall q | q in pids
      ensures SpaceAgrees(e.spaces[q], q, ns, bytes[f := page], e.objs[f := page])
    {
    }
  }

  /** Pages of p leave the tables and the space together. */
  lemma SimCut(pids: set<nat>, ns: map<Slot, Entry>, bytes: seq<Page>, e: Eager, p: nat, lo: nat, hi: nat)
    requires Sim(pids, ns, bytes, e) && p in pids
    ensures Sim(pids, CutNames(ns, p, lo, hi), bytes, e.(spaces := e.spaces[p := Cut(e.spaces[p], lo, hi)]))
  {
    var ns', spaces' := CutNames(ns, p, lo, hi), e.spaces[p := Cut(e.spaces[p], lo, hi)];
    forall q | q in pids
      ensures SpaceAgrees(spaces'[q], q, ns', bytes, e.objs)
    {
      assert SpaceAgrees(e.spaces[q], q, ns, bytes, e.objs);
    }
  }

  lemma SimExit(pids: set<nat>, ns: map<Slot, Entry>, bytes: seq<Page>, e: Eager, p: nat)
    requires Sim(pids, ns, bytes, e) && p in pids
    ensures Shows(pids - {p}, Without(ns, p), bytes, e, Exit(p))
  {
    forall q | q in pids - {p}
      ensures SpaceAgrees((e.spaces - {p})[q], q, Without(ns, p), bytes, e.objs)
    {
      assert SpaceAgrees(e.spaces[q], q, ns, bytes, e.objs);
    }
  }

  lemma SimSpawn(pids: set<nat>, ns: map<Slot, Entry>, bytes: seq<Page>, e: Eager, p: nat)
    requires Sim(pids, ns, bytes, e) && p !in pids
    requires forall x :: x in ns ==> x.pid != p
    ensures Shows(pids + {p}, ns, bytes, e, Spawn(p))
  {
    forall q | q in pids
      ensures SpaceAgrees(e.spaces[p := map[]][q], q, ns, bytes, e.objs)
    {
      assert SpaceAgrees(e.spaces[q], q, ns, bytes, e.objs);
    }
  }

  /** Sharing the frames read-only shows the child what a copy would show it. */
  lemma SimFork(pids: set<nat>, ns: map<Slot, Entry>, ns': map<Slot, Entry>, bytes: seq<Page>, e: Eager, p: nat, c: nat,
                own: map<nat, nat>)
    requires Sim(pids, ns, bytes, e) && p in pids && c !in pids && ForkedNames(ns, ns', p, c, own)
    ensures Shows(pids + {c}, ns', bytes, e, Fork(p, c))
  {
    var spaces' := e.spaces[c := e.spaces[p]];
    forall q | q in pids + {c}
      ensures SpaceAgrees(spaces'[q], q, ns', bytes, e.objs)
    {
      var o := if q == c then p else q;
      assert SpaceAgrees(e.spaces[o], o, ns, bytes, e.objs);
      forall v: Va
        ensures v in spaces'[q] <==> PageOf(q, v.d, v.t) in ns'
        ensures v in spaces'[q] ==> Agrees(spaces'[q][v], ns'[PageOf(q, v.d, v.t)], bytes, e.objs)
      {
        assert v in spaces'[q] <==> PageOf(o, v.d, v.t) in ns;
      }
    }
  }

  /** Page x of ns' is en, on a frame that ns does not name; the other pages are those of ns. */
  ghost predicate NewPage(ns: map<Slot, Entry>, ns': map<Slot, Entry>, x: Slot, en: Entry, frames: nat) {
    && x !in ns && x in ns' && ns'[x] == en && en.index < frames
    && (forall y :: y in ns ==> ns[y].index != en.index)
    && OnlyPage(ns, ns', x)
  }

  lemma SimTouch(pids: set<nat>, ns: map<Slot, Entry>, ns': map<Slot, Entry>, bytes: seq<Page>, e: Eager, p: nat,
                 v: Va, f: nat)
    requires Sim(pids, ns, bytes, e) && p in pids
    requires NewPage(ns, ns', PageOf(p, v.d, v.t), Fresh(f), |bytes|)
    ensures Shows(pids, ns', bytes, e, Touch(p, v, bytes[f]))
  {
    assert SpaceAgrees(e.spaces[p], p, ns, bytes, e.objs);
    SimSet(pids, ns, ns', bytes, bytes, e, p, v, Private(bytes[f], false), e.objs);
  }

  lemma SimMap(pids: set<nat>, ns: map<Slot, Entry>, ns': map<Slot, Entry>, bytes: seq<Page>, e: Eager, p: nat,
               v: Va, f: nat, w: bool, sh: bool)
    requires Sim(pids, ns, bytes, e) && p in pids
    requires NewPage(ns, ns', PageOf(p, v.d, v.t), MmapEntry(Fresh(f), w, sh), |bytes|)
    ensures Shows(pids, ns', bytes, e, Map(p, v, w, f, bytes[f], sh))
  {
    assert SpaceAgrees(e.spaces[p], p, ns, bytes, e.objs);
    if sh {
      forall q, u | q in e.spaces && u in e.spaces[q] && e.spaces[q][u].Shared?
        ensures e.spaces[q][u].obj != f
      {
        assert SpaceAgrees(e.spaces[q], q, ns, bytes, e.objs);
        assert Agrees(e.spaces[q][u], ns[PageOf(q, u.d, u.t)], bytes, e.objs);
      }
      SimSet(pids, ns, ns', bytes, bytes, e, p, v, Shared(f, !w), e.objs[f := bytes[f]]);
    } else {
      SimSet(pids, ns, ns', bytes, bytes, e, p, v, Private(bytes[f], !w), e.objs);
    }
  }

  /** The bytes a store changes belong to this process alone, or are shared memory. */
  lemma SimStore(pids: set<nat>, ns: map<Slot, Entry>, bytes: seq<Page>, e: Eager, p: nat, v: Va, off: nat, b: u8)
    requires Sim(pids, ns, bytes, e) && Isolated(ns, |bytes|) && off < PAGE_SIZE
    requires PageOf(p, v.d, v.t) in ns && ns[PageOf(p, v.d, v.t)].write && p in pids
    ensures Shows(pids, ns, bytes[ns[PageOf(p, v.d, v.t)].index := bytes[ns[PageOf(p, v.d, v.t)].index][off := b]], e,
                  Store(p, v, off, b))
  {
    var en := ns[PageOf(p, v.d, v.t)];
    assert SpaceAgrees(e.spaces[p], p, ns, bytes, e.objs);
    assert Agrees(e.spaces[p][v], en, bytes, e.objs);
    var page := bytes[en.index][off := b];
    if en.shared {
      SimSharedStore(pids, ns, bytes, e, en.index, page);
    } else {
      assert Exclusive(PageOf(p, v.d, v.t), en);
      SimSet(pids, ns, ns, bytes, bytes[en.index := page], e, p, v, Private(page, en.readonly), e.objs);
    }
  }

  lemma SimLoad(pids: set<nat>, ns: map<Slot, Entry>, bytes: seq<Page>, e: Eager, p: nat, v: Va, off: nat)
    requires Sim(pids, ns, bytes, e) && off < PAGE_SIZE && p in pids
    requires PageOf(p, v.d, v.t) in ns && ns[PageOf(p, v.d, v.t)].index < |bytes|
    ensures Shows(pids, ns, bytes, e, Load(p, v, off, bytes[ns[PageOf(p, v.d, v.t)].index][off]))
  {
    assert SpaceAgrees(e.spaces[p], p, ns, bytes, e.objs);
    assert Agrees(e.spaces[p][v], ns[PageOf(p, v.d, v.t)], bytes, e.objs);
  }

  /** A fault moves one private page to a frame with the same bytes. */
  ghost predicate Moved(ns: map<Slot, Entry>, ns': map<Slot, Entry>, bytes: seq<Page>, bytes': seq<Page>, x: Slot) {
    && x in ns && x in ns' && ns[x].index < |bytes| && ns'[x].index < |bytes| && !ns[x].shared
    && ns'[x] == ns[x].(write := true, index := ns'[x].index)
    && bytes' == bytes[ns'[x].index := bytes[ns[x].index]]
    && (forall y :: y in ns && y != x ==> ns[y].index != ns'[x].index)
    && OnlyPage(ns, ns', x)
  }

  /** A write fault is invisible: nobody sees different bytes. */
  lemma SimFault(pids: set<nat>, ns: map<Slot, Entry>, ns': map<Slot, Entry>, bytes: seq<Page>, bytes': seq<Page>,
                 e: Eager, p: nat, v: Va)
    requires Sim(pids, ns, bytes, e) && p in pids && Moved(ns, ns', bytes, bytes', PageOf(p, v.d, v.t))
    ensures Shows(pids, ns', bytes', e, Fault(p, v))
  {
    assert SpaceAgrees(e.spaces[p], p, ns, bytes, e.objs);
    assert Agrees(e.spaces[p][v], ns[PageOf(p, v.d, v.t)], bytes, e.objs);
    SimSet(pids, ns, ns', bytes, bytes', e, p, v, e.spaces[p][v], e.objs);
    assert e.spaces[p][v := e.spaces[p][v]] == e.spaces[p];
    assert e.spaces[p := e.spaces[p]] == e.spaces;
  }

  // ----- Each kernel step keeps the invariant ---------------------------------

  /** ns1 has every slot of ns, and perhaps new page tables. */
  ghost predicate MoreTables(ns: map<Slot, Entry>, ns1: map<Slot, Entry>) {
    && (forall z :: z in ns ==> z in ns1 && ns1[z] == ns[z])
    && (forall z :: z in ns1 && z !in ns ==> z.TableOf?)
  }

  lemma WithTableKeepsInv(m: Mem, p: nat, d: nat)
    requires Inv(m) && CanTable(m, p, d)
    ensures Inv(WithTable(m, p, d)) && HasTable(WithTable(m, p, d), p, d)
    ensures WithTable(m, p, d).bytes == m.bytes && WithTable(m, p, d).procs.Keys == m.procs.Keys
    ensures MoreTables(Names(m), Names(WithTable(m, p, d)))
  {
    if !HasTable(m, p, d) {
      AddTableKeepsInv(m, p, d, FirstFree(m));
      AddTableNames(m, p, d, FirstFree(m));
    }
  }

  lemma NewPageOver(ns: map<Slot, Entry>, ns1: map<Slot, Entry>, x: Slot, en: Entry, frames: nat)
    requires MoreTables(ns, ns1) && x !in ns && x.PageOf? && en.index < frames
    requires forall z :: z in ns1 ==> ns1[z].index != en.index
    ensures NewPage(ns, ns1[x := en], x, en, frames)
  {
  }

  lemma LinkKeepsInv(m: Mem, p: nat, d: nat, t: nat)
    requires Inv(m) && CanLink(m, p, d, t) && !Mapped(m, p, d, t)
    ensures Inv(Link(m, p, d, t)) && Link(m, p, d, t).bytes == m.bytes
    ensures Link(m, p, d, t).procs.Keys == m.procs.Keys
    ensures HasPte(Link(m, p, d, t), p, d, t)
    ensures NewPage(Names(m), Names(Link(m, p, d, t)), PageOf(p, d, t), Fresh(Pte(Link(m, p, d, t), p, d, t).index),
        |m.bytes|)
  {
    WithTableKeepsInv(m, p, d);
    var m1 := WithTable(m, p, d);
    var f := FirstFree(m1);
    assert PageOf(p, d, t) !in Names(m) && PageOf(p, d, t) !in Names(m1);
    AddPageKeepsInv(m1, p, d, t, f);
    AddPageNames(m1, p, d, t, f);
    FreeIsUnnamed(m1, f);
    NewPageOver(Names(m), Names(m1), PageOf(p, d, t), Fresh(f), |m.bytes|);
  }

  /** A process with no page tables adds no name. */
  lemma SpawnNames(m: Mem, m': Mem, p: nat)
    requires p !in m.procs && m' == m.(procs := m.procs[p := FirstProc()])
    ensures Names(m') == Names(m)
  {
    forall x: Slot
      ensures Present(m', x) <==> Present(m, x)
      ensures Present(m, x) ==> EntryAt(m', x) == EntryAt(m, x)
    {
    }
  }

  lemma SpawnKeepsInv(m: Mem, m': Mem, p: nat)
    requires Inv(m) && p !in m.procs && m' == m.(procs := m.procs[p := FirstProc()])
    ensures Inv(m')
  {
    SpawnNames(m, m', p);
  }

  /** Moving the break itself changes no entry. */
  lemma SetBrkNames(m: Mem, m': Mem, p: nat, brk: nat)
    requires p in m.procs && m' == m.(procs := m.procs[p := m.procs[p].(brk := brk)])
    ensures Names(m') == Names(m)
  {
    forall q: nat, d: nat
      ensures HasTable(m', q, d) <==> HasTable(m, q, d)
      ensures HasTable(m, q, d) ==> m'.procs[q].pde[d] == m.procs[q].pde[d]
    {
    }
  }

  lemma SetBrkKeepsInv(m: Mem, p: nat, brk: nat)
    requires Inv(m) && CanBrk(m, p, brk)
    ensures Inv(Brk(m, p, brk)) && Names(Brk(m, p, brk)) == CutNames(Names(m), p, brk, m.procs[p].brk)
  {
    UnlinkRangeKeepsInv(m, p, brk, m.procs[p].brk);
    SetBrkNames(UnlinkRange(m, p, brk, m.procs[p].brk), Brk(m, p, brk), p, brk);
  }

  /** A change of the bits of an entry that keeps its frame keeps the counts. */
  lemma SameFrameIsExact(ns: map<Slot, Entry>, refs: seq<u8>, x: Slot, en: Entry)
    requires Exact(ns, refs) && x in ns && en.index == ns[x].index
    ensures Exact(ns[x := en], refs)
  {
    forall g: nat
      ensures NameSet(ns[x := en], g) == NameSet(ns, g)
    {
    }
  }

  /** An entry that is the only name of its frame may change its bits. */
  lemma SoleNameIsIsolated(ns: map<Slot, Entry>, frames: nat, x: Slot, en: Entry)
    requires Isolated(ns, frames) && x in ns && x.PageOf? && en.present && en.index == ns[x].index
    requires forall y :: y in ns && ns[y].index == en.index ==> y == x
    requires (en.readonly ==> !en.write) && (en.shared && !en.readonly ==> en.write)
    ensures Isolated(ns[x := en], frames)
  {
  }

  lemma SetPteKeepsInv(m: Mem, p: nat, d: nat, t: nat, en: Entry)
    requires Inv(m) && Mapped(m, p, d, t) && en.present && en.index == Pte(m, p, d, t).index
    requires forall y :: y in Names(m) && Names(m)[y].index == en.index ==> y == PageOf(p, d, t)
    requires (en.readonly ==> !en.write) && (en.shared && !en.readonly ==> en.write)
    ensures Inv(SetPte(m, p, d, t, en))
  {
    SetPteNames(m, p, d, t, en);
    SoleNameIsIsolated(Names(m), |m.refs|, PageOf(p, d, t), en);
    SameFrameIsExact(Names(m), m.refs, PageOf(p, d, t), en);
  }

  lemma MmapKeepsInv(m: Mem, p: nat, d: nat, t: nat, w: bool, sh: bool)
    requires Inv(m) && CanLink(m, p, d, t) && !Mapped(m, p, d, t)
    ensures Inv(Mmap(m, p, d, t, w, sh)) && Mmap(m, p, d, t, w, sh).bytes == m.bytes
    ensures Mmap(m, p, d, t, w, sh).procs.Keys == m.procs.Keys
    ensures HasPte(Link(m, p, d, t), p, d, t)
    ensures var en := MmapEntry(Fresh(Pte(Link(m, p, d, t), p, d, t).index), w, sh);
            NewPage(Names(m), Names(Mmap(m, p, d, t, w, sh)), PageOf(p, d, t), en, |m.bytes|)
  {
    LinkKeepsInv(m, p, d, t);
    var m1 := Link(m, p, d, t);
    var x, en := PageOf(p, d, t), MmapEntry(Pte(m1, p, d, t), w, sh);
    assert x in Names(m1) && Exclusive(x, Names(m1)[x]);
    SetPteNames(m1, p, d, t, en);
    SetPteKeepsInv(m1, p, d, t, en);
  }

  lemma StoreKeepsInv(m: Mem, p: nat, d: nat, t: nat, off: nat, b: u8)
    requires Inv(m) && CanStore(m, p, d, t) && off < PAGE_SIZE
    ensures Inv(Paging.Store(m, p, d, t, off, b)) && Names(Paging.Store(m, p, d, t, off, b)) == Names(m)
  {
    SameTables(m, Paging.Store(m, p, d, t, off, b));
  }

  lemma UnshareKeepsInv(m: Mem, p: nat, d: nat, t: nat)
    requires Inv(m) && CanFault(m, p, d, t) && m.refs[Pte(m, p, d, t).index] == 1
    ensures Inv(WriteFault(m, p, d, t))
    ensures Moved(Names(m), Names(WriteFault(m, p, d, t)), m.bytes, WriteFault(m, p, d, t).bytes, PageOf(p, d, t))
  {
    var x, en := PageOf(p, d, t), Pte(m, p, d, t);
    assert x in Names(m);
    forall y | y in Names(m) && Names(m)[y].index == en.index
      ensures y == x
    {
      OnlyName(m, x, y);
    }
    SetPteNames(m, p, d, t, en.(write := true));
    SetPteKeepsInv(m, p, d, t, en.(write := true));
  }

  lemma ReplacePageNames(m: Mem, m1: Mem, p: nat, d: nat, t: nat, f: nat)
    requires Inv(m1) && Names(m1) == Names(m) - {PageOf(p, d, t)} && HasPte(m1, p, d, t) && Free(m1, f)
    ensures Names(AddPage(m1, p, d, t, f)) == Names(m)[PageOf(p, d, t) := Fresh(f)]
  {
    AddPageNames(m1, p, d, t, f);
  }

  lemma CopyNames(m: Mem, p: nat, d: nat, t: nat)
    requires Inv(m) && CanFault(m, p, d, t) && m.refs[Pte(m, p, d, t).index] > 1
    ensures Names(WriteFault(m, p, d, t)) == Names(m)[PageOf(p, d, t) := Fresh(FirstFree(m))]
  {
    var f, m1 := FirstFree(m), RemovePage(m, p, d, t);
    RemovePageKeepsInv(m, p, d, t);
    RemovePageNames(m, p, d, t);
    ReplacePageNames(m, m1, p, d, t, f);
    SameTables(AddPage(m1, p, d, t, f), WriteFault(m, p, d, t));
  }

  lemma OtherBytes(m: Mem, m': Mem)
    requires Inv(m) && m' == m.(bytes := m'.bytes) && |m'.bytes| == |m.bytes|
    ensures Inv(m')
  {
    SameTables(m, m');
  }

  lemma CopyKeepsInv(m: Mem, p: nat, d: nat, t: nat)
    requires Inv(m) && CanFault(m, p, d, t) && m.refs[Pte(m, p, d, t).index] > 1
    ensures Inv(WriteFault(m, p, d, t))
  {
    var f, m1 := FirstFree(m), RemovePage(m, p, d, t);
    RemovePageKeepsInv(m, p, d, t);
    AddPageKeepsInv(m1, p, d, t, f);
    OtherBytes(AddPage(m1, p, d, t, f), WriteFault(m, p, d, t));
  }

  lemma CopyMoves(m: Mem, p: nat, d: nat, t: nat)
    requires Inv(m) && CanFault(m, p, d, t) && m.refs[Pte(m, p, d, t).index] > 1
    ensures Moved(Names(m), Names(WriteFault(m, p, d, t)), m.bytes, WriteFault(m, p, d, t).bytes, PageOf(p, d, t))
  {
    CopyNames(m, p, d, t);
    FreeIsUnnamed(m, FirstFree(m));
    assert PageOf(p, d, t) in Names(m);
  }

  lemma FaultKeepsInv(m: Mem, p: nat, d: nat, t: nat)
    requires Inv(m) && CanFault(m, p, d, t)
    ensures Inv(WriteFault(m, p, d, t))
    ensures Moved(Names(m), Names(WriteFault(m, p, d, t)), m.bytes, WriteFault(m, p, d, t).bytes, PageOf(p, d, t))
  {
    if m.refs[Pte(m, p, d, t).index] == 1 {
      UnshareKeepsInv(m, p, d, t);
    } else {
      CopyKeepsInv(m, p, d, t);
      CopyMoves(m, p, d, t);
    }
  }

  /** After the fault the store that caused it goes through. */
  lemma FaultEnablesStore(m: Mem, p: nat, d: nat, t: nat)
    requires Inv(m) && CanFault(m, p, d, t)
    ensures CanStore(WriteFault(m, p, d, t), p, d, t)
  {
    FaultKeepsInv(m, p, d, t);
    assert PageOf(p, d, t) in Names(WriteFault(m, p, d, t));
  }

  lemma StepKeepsInv(m: Mem, m': Mem, a: Action)
    requires Inv(m) && Step(m, m', a)
    ensures Inv(m')
  {
    match a
    case Spawn(p) => SpawnKeepsInv(m, m', p);
    case Fork(p, c) =>
      var own :| Forked(m, m', p, c, own);
      ForkKeepsInv(m, m', p, c, own);
    case Exit(p) => ExitKeepsInv(m, m', p);
    case Touch(p, v, page) => LinkKeepsInv(m, p, v.d, v.t);
    case Map(p, v, w, obj, page, sh) => MmapKeepsInv(m, p, v.d, v.t, w, sh);
    case Unmap(p, lo, hi) => UnlinkRangeKeepsInv(m, p, lo, hi);
    case SetBrk(p, brk, was) => SetBrkKeepsInv(m, p, brk);
    case Fault(p, v) => FaultKeepsInv(m, p, v.d, v.t);
    case Store(p, v, off, b) => StoreKeepsInv(m, p, v.d, v.t, off, b);
    case Load(p, v, off, b) =>
  }

  /** A write that the mapping permits is let through or handled; page_fault's assertions do
      not fail, and it panics only when no frame is left. */
  lemma PermittedWrite(m: Mem, p: nat, d: nat, t: nat)
    requires Inv(m) && Mapped(m, p, d, t) && !Pte(m, p, d, t).readonly
    ensures CanStore(m, p, d, t) || CanFault(m, p, d, t) || FirstFree(m) == |m.refs|
  {
    MappedIsCounted(m, p, d, t);
    assert PageOf(p, d, t) in Names(m);
  }

  // ----- Each kernel step is a step of the reference machine ------------------

  ghost predicate Refines(m': Mem, a: Action, e: Eager) {
    Shows(m'.procs.Keys, Names(m'), m'.bytes, e, a)
  }

  lemma SpawnRefines(m: Mem, m': Mem, e: Eager, p: nat)
    requires Matches(m, e) && p !in m.procs && m' == m.(procs := m.procs[p := FirstProc()])
    ensures Refines(m', Spawn(p), e)
  {
    SpawnNames(m, m', p);
    SimSpawn(m.procs.Keys, Names(m), m.bytes, e, p);
    assert m'.procs.Keys == m.procs.Keys + {p};
  }

  lemma ForkRefines(m: Mem, m': Mem, e: Eager, p: nat, c: nat, own: map<nat, nat>)
    requires Matches(m, e) && ForkedProcs(m, m', p, c, own) && ForkedNames(Names(m), Names(m'), p, c, own)
    requires m'.bytes == m.bytes
    ensures Refines(m', Fork(p, c), e)
  {
    SimFork(m.procs.Keys, Names(m), Names(m'), m.bytes, e, p, c, own);
    assert m'.procs.Keys == m.procs.Keys + {c};
  }

  lemma ExitRefines(m: Mem, m': Mem, e: Eager, p: nat)
    requires Matches(m, e) && p in m.procs && m'.procs == m.procs - {p} && m'.bytes == m.bytes
    requires Names(m') == Without(Names(m), p)
    ensures Refines(m', Exit(p), e)
  {
    SimExit(m.procs.Keys, Names(m), m.bytes, e, p);
    assert m'.procs.Keys == m.procs.Keys - {p};
  }

  lemma StoreRefines(m: Mem, m': Mem, e: Eager, p: nat, v: Va, off: nat, b: u8)
    requires Matches(m, e) && Isolated(Names(m), |m.bytes|) && CanStore(m, p, v.d, v.t) && off < PAGE_SIZE
    requires m' == Paging.Store(m, p, v.d, v.t, off, b) && Names(m') == Names(m)
    ensures Refines(m', Store(p, v, off, b), e)
  {
    assert Pte(m, p, v.d, v.t) == Names(m)[PageOf(p, v.d, v.t)];
    SimStore(m.procs.Keys, Names(m), m.bytes, e, p, v, off, b);
  }

  lemma LoadRefines(m: Mem, e: Eager, p: nat, v: Va, off: nat, b: u8)
    requires Matches(m, e) && off < PAGE_SIZE && HoldsByte(m, p, v, off, b)
    ensures Refines(m, Load(p, v, off, b), e)
  {
    assert PageOf(p, v.d, v.t) in Names(m);
    SimLoad(m.procs.Keys, Names(m), m.bytes, e, p, v, off);
  }

  lemma TouchRefines(m: Mem, m': Mem, e: Eager, p: nat, v: Va, page: Page)
    requires Inv(m) && Matches(m, e) && TouchStep(m, m', p, v, page)
    ensures Refines(m', Touch(p, v, page), e)
  {
    LinkKeepsInv(m, p, v.d, v.t);
    SimTouch(m.procs.Keys, Names(m), Names(m'), m.bytes, e, p, v, Pte(m', p, v.d, v.t).index);
  }

  lemma MapRefines(m: Mem, m': Mem, e: Eager, p: nat, v: Va, w: bool, obj: nat, page: Page, sh: bool)
    requires Inv(m) && Matches(m, e) && MapStep(m, m', p, v, w, obj, page, sh)
    ensures Refines(m', Map(p, v, w, obj, page, sh), e)
  {
    MmapKeepsInv(m, p, v.d, v.t, w, sh);
    assert Pte(m', p, v.d, v.t) == Names(m')[PageOf(p, v.d, v.t)];
    SimMap(m.procs.Keys, Names(m), Names(m'), m.bytes, e, p, v, obj, w, sh);
  }

  lemma ForkStep(m: Mem, m': Mem, e: Eager, p: nat, c: nat, own: map<nat, nat>)
    requires Inv(m) && Matches(m, e) && Forked(m, m', p, c, own)
    ensures Refines(m', Fork(p, c), e)
  {
    ForkKeepsInv(m, m', p, c, own);
    ForkRefines(m, m', e, p, c, own);
  }

  lemma SetBrkRefines(m: Mem, m': Mem, e: Eager, p: nat, brk: nat)
    requires Inv(m) && Matches(m, e) && CanBrk(m, p, brk) && m' == Brk(m, p, brk)
    ensures Refines(m', SetBrk(p, brk, m.procs[p].brk), e)
  {
    SetBrkKeepsInv(m, p, brk);
    SimCut(m.procs.Keys, Names(m), m.bytes, e, p, brk, m.procs[p].brk);
    assert m'.procs.Keys == m.procs.Keys;
  }

  lemma FaultRefines(m: Mem, m': Mem, e: Eager, p: nat, v: Va)
    requires Inv(m) && Matches(m, e) && CanFault(m, p, v.d, v.t) && m' == WriteFault(m, p, v.d, v.t)
    ensures Refines(m', Fault(p, v), e)
  {
    FaultKeepsInv(m, p, v.d, v.t);
    SimFault(m.procs.Keys, Names(m), Names(m'), m.bytes, m'.bytes, e, p, v);
  }

  lemma UnmapRefines(m: Mem, m': Mem, e: Eager, p: nat, lo: nat, hi: nat)
    requires Inv(m) && Matches(m, e) && Step(m, m', Unmap(p, lo, hi))
    ensures Refines(m', Unmap(p, lo, hi), e)
  {
    UnlinkRangeKeepsInv(m, p, lo, hi);
    SimCut(m.procs.Keys, Names(m), m.bytes, e, p, lo, hi);
  }

  lemma StepRefines(m: Mem, m': Mem, a: Action, e: Eager)
    requires Inv(m) && Matches(m, e) && Step(m, m', a)
    ensures Refines(m', a, e)
  {
    match a
    case Spawn(p) => SpawnRefines(m, m', e, p);
    case Fork(p, c) =>
      var own :| Forked(m, m', p, c, own);
      ForkStep(m, m', e, p, c, own);
    case Exit(p) =>
      ExitKeepsInv(m, m', p);
      ExitRefines(m, m', e, p);
    case Touch(p, v, page) => TouchRefines(m, m', e, p, v, page);
    case Map(p, v, w, obj, page, sh) => MapRefines(m, m', e, p, v, w, obj, page, sh);
    case Unmap(p, lo, hi) => UnmapRefines(m, m', e, p, lo, hi);
    case SetBrk(p, brk, _) => SetBrkRefines(m, m', e, p, brk);
    case Fault(p, v) => FaultRefines(m, m', e, p, v);
    case Store(p, v, off, b) =>
      StoreKeepsInv(m, p, v.d, v.t, off, b);
      StoreRefines(m, m', e, p, v, off, b);
    case Load(p, v, off, b) => LoadRefines(m, e, p, v, off, b);
  }

  // ----- Whole runs ---------------------------------------------------------

  /** The state that memory_init, memory_map_init and mapping_init leave behind. */
  ghost predicate Booted(m: Mem) {
    && Sized(m) && m.procs == map[]
    && (forall f :: KERNEL_FRAMES <= f < |m.refs| ==> m.refs[f] == 0)
    && m.freePages == |m.refs| - m.start
  }

  function Range(lo: nat, hi: nat): (s: set<nat>)
    requires lo <= hi
    ensures |s| == hi - lo && forall f :: f in s <==> lo <= f < hi
    decreases hi - lo
  {
    if lo == hi then {} else {lo} + Range(lo + 1, hi)
  }

  lemma ZeroFrames(start: nat, refs: seq<u8>)
    requires start <= KERNEL_FRAMES <= |refs|
    requires forall f :: 0 <= f < KERNEL_FRAMES ==> refs[f] == 1
    requires forall f :: KERNEL_FRAMES <= f < |refs| ==> refs[f] == 0
    ensures |ZeroSet(start, refs)| == |refs| - KERNEL_FRAMES
  {
    assert ZeroSet(start, refs) == Range(KERNEL_FRAMES, |refs|);
  }

  /** ms is a run of the kernel machine in which step i is acts[i]. */
  ghost predicate Run(ms: seq<Mem>, acts: seq<Action>) {
    && |ms| == |acts| + 1
    && Booted(ms[0])
    && forall i {:trigger acts[i]} :: 0 <= i < |acts| ==> Step(ms[i], ms[i + 1], acts[i])
  }

  /** The reference machine after these actions, started with no process. */
  ghost function EagerRun(acts: seq<Action>): Eager {
    if acts == [] then Eager(map[], map[]) else
    var e := EagerRun(acts[..|acts| - 1]);
    var a := acts[|acts| - 1];
    if EagerCan(e, a) then EagerStep(e, a) else e
  }

  lemma RunStarts(m: Mem)
    requires Booted(m)
    ensures Inv(m) && Matches(m, EagerRun([]))
  {
    assert Names(m) == map[];
    assert forall f :: NameSet(Names(m), f) == {};
    ZeroFrames(m.start, m.refs);
  }

  lemma RunStep(ms: seq<Mem>, acts: seq<Action>, n: nat)
    requires Run(ms, acts) && n < |acts|
    ensures Step(ms[n], ms[n + 1], acts[n])
  {
    var a := acts[n];
  }

  lemma EagerRunStep(acts: seq<Action>, n: nat)
    requires n < |acts| && EagerCan(EagerRun(acts[..n]), acts[n])
    ensures EagerRun(acts[..n + 1]) == EagerStep(EagerRun(acts[..n]), acts[n])
  {
    assert acts[..n + 1][..n] == acts[..n];
  }

  /** Over every run the kernel keeps its invariant, and the processes see what
      they see on the reference machine. */
  lemma {:induction false} RunMatches(ms: seq<Mem>, acts: seq<Action>, n: nat)
    requires Run(ms, acts) && n <= |acts|
    ensures Inv(ms[n]) && Matches(ms[n], EagerRun(acts[..n]))
  {
    if n == 0 {
      RunStarts(ms[0]);
    } else {
      RunMatches(ms, acts, n - 1);
      RunStep(ms, acts, n - 1);
      StepKeepsInv(ms[n - 1], ms[n], acts[n - 1]);
      StepRefines(ms[n - 1], ms[n], acts[n - 1], EagerRun(acts[..n - 1]));
      EagerRunStep(acts, n - 1);
    }
  }

  /** Every action of a run is possible on the reference machine with the same
      observations; so a load returns the byte that the reference machine holds. */
  lemma RunObserves(ms: seq<Mem>, acts: seq<Action>, n: nat)
    requires Run(ms, acts) && n < |acts|
    ensures EagerCan(EagerRun(acts[..n]), acts[n])
  {
    RunMatches(ms, acts, n);
    RunStep(ms, acts, n);
    StepRefines(ms[n], ms[n + 1], acts[n], EagerRun(acts[..n]));
  }
}
