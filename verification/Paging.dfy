/** Physical frames, their reference counters and the two-level page tables of
    src/kernel/memory.c, as one value, with the operations of the kernel and of
    the processor on it. */
module Paging {

  /** Entries of a page table and of a page directory. */
  const ENTRIES: nat := 1024

  /** Directory slots [0, 4) map the kernel; slot 1023 maps the directory itself. */
  const KERNEL_TABLES: nat := 4
  const SELF_SLOT: nat := 1023

  /** The first 16 MB are identity mapped for the kernel and are never handed out. */
  const KERNEL_FRAMES: nat := 4096

  /** A counter may not reach this value; copy_pde asserts it. */
  const REF_LIMIT: nat := 255

  const PAGE_SIZE: nat := 4096

  /** Page numbers of the user address space (src/include/yui/memory.h). */
  const EXEC_PAGE: nat := 0x1000
  const MMAP_PAGE: nat := 0x8000
  const STACK_BOTTOM_PAGE: nat := 0xFE00
  const STACK_TOP_PAGE: nat := 0x10000

  type u8 = x: int | 0 <= x < 256

  type Page = s: seq<u8> | |s| == PAGE_SIZE witness seq(PAGE_SIZE, _ => 0)

  /** The bits of a page entry that the kernel reads; index is the frame number. */
  datatype Entry = Entry(present: bool, write: bool, shared: bool, readonly: bool, index: nat)

  const ABSENT := Entry(false, false, false, false, 0)

  /** entry_init: present, writable, every other software bit clear. */
  function Fresh(index: nat): Entry {
    Entry(true, true, false, false, index)
  }

  /** The memory side of a task: its page directory and its heap bounds, in pages. */
  datatype Proc = Proc(pde: seq<Entry>, end: nat, brk: nat)

  /** All of memory. A frame is read as a page (bytes) or as a page table (tables)
      according to who names it; the invariant keeps the two roles apart. */
  datatype Mem = Mem(start: nat, refs: seq<u8>, freePages: int, procs: map<nat, Proc>,
                     tables: seq<seq<Entry>>, bytes: seq<Page>)

  /** A place that can name a frame. */
  datatype Slot = TableOf(pid: nat, d: nat) | PageOf(pid: nat, d: nat, t: nat)

  predicate UserDir(d: nat) {
    KERNEL_TABLES <= d < SELF_SLOT
  }

  /** DIDX and TIDX on page numbers. */
  function Dir(page: nat): nat {
    page / ENTRIES
  }

  function Tab(page: nat): nat {
    page % ENTRIES
  }

  /** A frame that processes may hold. */
  predicate UserFrame(m: Mem, f: nat) {
    KERNEL_FRAMES <= f < |m.refs|
  }

  /** Directory slot d of process p. */
  predicate HasDir(m: Mem, p: nat, d: nat) {
    p in m.procs && UserDir(d) && d < |m.procs[p].pde|
  }

  predicate HasTable(m: Mem, p: nat, d: nat) {
    HasDir(m, p, d) && m.procs[p].pde[d].present
  }

  function TableFrame(m: Mem, p: nat, d: nat): nat
    requires HasTable(m, p, d)
  {
    m.procs[p].pde[d].index
  }

  predicate HasPte(m: Mem, p: nat, d: nat, t: nat) {
    HasTable(m, p, d) && TableFrame(m, p, d) < |m.tables| && t < |m.tables[TableFrame(m, p, d)]|
  }

  function Pte(m: Mem, p: nat, d: nat, t: nat): Entry
    requires HasPte(m, p, d, t)
  {
    m.tables[TableFrame(m, p, d)][t]
  }

  predicate Mapped(m: Mem, p: nat, d: nat, t: nat) {
    HasPte(m, p, d, t) && Pte(m, p, d, t).present
  }

  predicate Present(m: Mem, x: Slot) {
    match x
    case TableOf(p, d) => HasTable(m, p, d)
    case PageOf(p, d, t) => Mapped(m, p, d, t)
  }

  function EntryAt(m: Mem, x: Slot): Entry
    requires Present(m, x)
  {
    match x
    case TableOf(p, d) => m.procs[p].pde[d]
    case PageOf(p, d, t) => Pte(m, p, d, t)
  }

  /** ns has exactly the present entries of the live processes. */
  ghost predicate IsNames(m: Mem, ns: map<Slot, Entry>) {
    && (forall x :: x in ns <==> Present(m, x))
    && (forall x :: x in ns ==> ns[x] == EntryAt(m, x))
  }

  lemma NamesExist(m: Mem)
    ensures exists ns :: IsNames(m, ns)
  {
    var pages := set p, d, t | p in m.procs && 0 <= d < |m.procs[p].pde| && HasTable(m, p, d)
                               && TableFrame(m, p, d) < |m.tables| && 0 <= t < |m.tables[TableFrame(m, p, d)]|
                               && Mapped(m, p, d, t) :: PageOf(p, d, t);
    var tabs := set p, d | p in m.procs && 0 <= d < |m.procs[p].pde| && HasTable(m, p, d) :: TableOf(p, d);
    var ns := map x | x in tabs + pages :: EntryAt(m, x);
    assert IsNames(m, ns);
  }

  /** Every present entry of every live process, tables and pages alike. */
  ghost function Names(m: Mem): (ns: map<Slot, Entry>)
    ensures IsNames(m, ns)
  {
    NamesExist(m);
    var ns :| IsNames(m, ns);
    ns
  }

  // ----- The invariant ------------------------------------------------------

  /** The slots that name frame f. */
  ghost function NameSet(ns: map<Slot, Entry>, f: nat): set<Slot> {
    set x | x in ns && ns[x].index == f
  }

  /** Slots whose frame nobody else may name: page tables and writable private pages. */
  predicate Exclusive(x: Slot, e: Entry) {
    x.TableOf? || (e.write && !e.shared)
  }

  ghost predicate ExclusivelyNamed(ns: map<Slot, Entry>) {
    forall x, y {:trigger Exclusive(x, ns[x]), ns[y]} ::
      x in ns && y in ns && Exclusive(x, ns[x]) && ns[x].index == ns[y].index ==> x == y
  }

  /** One process maps a frame at one place at most. */
  ghost predicate MappedOnce(ns: map<Slot, Entry>) {
    forall x, y {:trigger ns[x], ns[y]} :: x in ns && y in ns && x.pid == y.pid && ns[x].index == ns[y].index ==> x == y
  }

  /** The entries of one frame agree on whether it is shared memory. */
  ghost predicate SharingAgrees(ns: map<Slot, Entry>) {
    forall x, y {:trigger ns[x].shared, ns[y].shared} ::
      x in ns && y in ns && ns[x].index == ns[y].index ==> ns[x].shared == ns[y].shared
  }

  /** A read-only page is not writable; a shared page that is not read-only is
      writable, so that it never faults. */
  ghost predicate EntriesSane(ns: map<Slot, Entry>, frames: nat) {
    forall x :: x in ns ==>
      && ns[x].present
      && KERNEL_FRAMES <= ns[x].index < frames
      && (ns[x].readonly ==> !ns[x].write)
      && (ns[x].shared && !ns[x].readonly ==> ns[x].write)
      && (x.TableOf? ==> !ns[x].shared)
  }

  ghost predicate Isolated(ns: map<Slot, Entry>, frames: nat) {
    ExclusivelyNamed(ns) && MappedOnce(ns) && SharingAgrees(ns) && EntriesSane(ns, frames)
  }

  /** The counter of every user frame is the number of slots that name it. */
  ghost predicate Exact(ns: map<Slot, Entry>, refs: seq<u8>) {
    forall f: nat :: KERNEL_FRAMES <= f < |refs| ==> refs[f] == |NameSet(ns, f)|
  }

  ghost function ZeroSet(start: nat, refs: seq<u8>): set<nat> {
    set f | start <= f < |refs| && refs[f] == 0
  }

  /** free_pages is the number of zero counters plus the frames that mapping_init
      claimed without counting them; no counter has reached the limit. */
  ghost predicate Accounted(start: nat, refs: seq<u8>, freePages: int) {
    && (forall f :: 0 <= f < |refs| ==> refs[f] < REF_LIMIT)
    && freePages == |ZeroSet(start, refs)| + (KERNEL_FRAMES - start)
  }

  /** Sizes, heap bounds, and the frames that memory_map_init and mapping_init claim for good. */
  ghost predicate Sized(m: Mem) {
    && |m.tables| == |m.refs| == |m.bytes|
    && 0 < m.start < KERNEL_FRAMES <= |m.refs|
    && (forall f :: 0 <= f < KERNEL_FRAMES ==> m.refs[f] == 1)
    && (forall f :: 0 <= f < |m.tables| ==> |m.tables[f]| == ENTRIES)
    && (forall p :: p in m.procs ==>
                      && |m.procs[p].pde| == ENTRIES
                      && EXEC_PAGE <= m.procs[p].end <= m.procs[p].brk <= MMAP_PAGE)
  }

  ghost predicate Inv(m: Mem) {
    match m
    case Mem(start, refs, freePages, _, _, _) =>
      && Sized(m)
      && Isolated(Names(m), |refs|)
      && Exact(Names(m), refs)
      && Accounted(start, refs, freePages)
  }

  // ----- Operations ---------------------------------------------------------

  /** get_page takes the first zero counter from start_page up. */
  function FirstFreeFrom(refs: seq<u8>, i: nat): (f: nat)
    requires i <= |refs|
    ensures i <= f <= |refs|
    ensures f < |refs| ==> refs[f] == 0
    ensures forall k :: i <= k < f ==> refs[k] != 0
    decreases |refs| - i
  {
    if i == |refs| || refs[i] == 0 then i else FirstFreeFrom(refs, i + 1)
  }

  /** The frame that get_page returns, or the number of frames when it panics. */
  function FirstFree(m: Mem): (f: nat)
    ensures f <= |m.refs|
    ensures f < |m.refs| ==> m.start <= f && m.refs[f] == 0
    ensures f == |m.refs| ==> forall k :: m.start <= k < |m.refs| ==> m.refs[k] != 0
  {
    if m.start <= |m.refs| then FirstFreeFrom(m.refs, m.start) else |m.refs|
  }

  predicate Free(m: Mem, f: nat) {
    UserFrame(m, f) && m.refs[f] == 0
  }

  function SetPte(m: Mem, p: nat, d: nat, t: nat, e: Entry): Mem
    requires HasPte(m, p, d, t)
  {
    var f := TableFrame(m, p, d);
    m.(tables := m.tables[f := m.tables[f][t := e]])
  }

  /** The part of get_pte that gives (p, d) a cleared page table in frame f. */
  function AddTable(m: Mem, p: nat, d: nat, f: nat): Mem
    requires HasDir(m, p, d) && f < |m.refs| && f < |m.tables|
  {
    m.(refs := m.refs[f := 1], freePages := m.freePages - 1,
       procs := m.procs[p := m.procs[p].(pde := m.procs[p].pde[d := Fresh(f)])],
       tables := m.tables[f := seq(ENTRIES, _ => ABSENT)])
  }

  /** The part of link_page that backs an unmapped page by frame f. */
  function AddPage(m: Mem, p: nat, d: nat, t: nat, f: nat): Mem
    requires HasPte(m, p, d, t) && f < |m.refs|
  {
    SetPte(m, p, d, t, Fresh(f)).(refs := m.refs[f := 1], freePages := m.freePages - 1)
  }

  /** unlink_page on a mapped page: put_page asserts that the frame is held. */
  function RemovePage(m: Mem, p: nat, d: nat, t: nat): Mem
    requires Mapped(m, p, d, t) && Pte(m, p, d, t).index < |m.refs| && m.refs[Pte(m, p, d, t).index] >= 1
  {
    var e := Pte(m, p, d, t);
    var n := m.refs[e.index];
    SetPte(m, p, d, t, e.(present := false)).(refs := m.refs[e.index := n - 1],
                                              freePages := if n == 1 then m.freePages + 1 else m.freePages)
  }

  /** get_pte with create needs a frame when the table is missing. */
  predicate CanTable(m: Mem, p: nat, d: nat) {
    HasDir(m, p, d) && (HasTable(m, p, d) || (FirstFree(m) < |m.refs| && FirstFree(m) < |m.tables|))
  }

  function WithTable(m: Mem, p: nat, d: nat): Mem
    requires CanTable(m, p, d)
  {
    if HasTable(m, p, d) then m else AddTable(m, p, d, FirstFree(m))
  }

  /** link_page finds the frames it needs (otherwise get_page panics). */
  predicate CanLink(m: Mem, p: nat, d: nat, t: nat) {
    || Mapped(m, p, d, t)
    || (CanTable(m, p, d) && HasPte(WithTable(m, p, d), p, d, t) && FirstFree(WithTable(m, p, d)) < |m.refs|)
  }

  /** link_page: back page (d, t) by a frame unless it is mapped already. */
  function Link(m: Mem, p: nat, d: nat, t: nat): Mem
    requires CanLink(m, p, d, t)
  {
    if Mapped(m, p, d, t) then m else
    var m1 := WithTable(m, p, d);
    AddPage(m1, p, d, t, FirstFree(m1))
  }

  /** What sys_mmap makes of an entry, for the given protection and flags; it sets the bit for
      shared memory and never clears it. */
  function MmapEntry(e: Entry, writable: bool, shared: bool): Entry {
    Entry(true, writable, e.shared || shared, !writable, e.index)
  }

  /** One page of sys_mmap: link it unless it is mapped, then set its bits. */
  function Mmap(m: Mem, p: nat, d: nat, t: nat, writable: bool, shared: bool): Mem
    requires CanLink(m, p, d, t)
  {
    var m1 := Link(m, p, d, t);
    SetPte(m1, p, d, t, MmapEntry(Pte(m1, p, d, t), writable, shared))
  }

  /** A write fault that the kernel accepts; its other cases end in an assertion. */
  predicate CanFault(m: Mem, p: nat, d: nat, t: nat) {
    && Mapped(m, p, d, t) && !Pte(m, p, d, t).shared && !Pte(m, p, d, t).readonly
    && var f := Pte(m, p, d, t).index;
    && f < |m.refs| && f < |m.bytes| && m.refs[f] >= 1
    && (m.refs[f] > 1 ==> FirstFree(m) < |m.refs| && FirstFree(m) < |m.bytes|)
  }

  /** The write-fault branch of page_fault: make the page writable again when
      nobody else names its frame, else move this process to a copy. */
  function WriteFault(m: Mem, p: nat, d: nat, t: nat): Mem
    requires CanFault(m, p, d, t)
  {
    var e := Pte(m, p, d, t);
    if m.refs[e.index] == 1 then SetPte(m, p, d, t, e.(write := true)) else
    var f := FirstFree(m);
    AddPage(RemovePage(m, p, d, t), p, d, t, f).(bytes := m.bytes[f := m.bytes[e.index]])
  }

  /** A store that the processor lets through: the entry must be writable. */
  predicate CanStore(m: Mem, p: nat, d: nat, t: nat) {
    Mapped(m, p, d, t) && Pte(m, p, d, t).write && Pte(m, p, d, t).index < |m.bytes|
  }

  function Store(m: Mem, p: nat, d: nat, t: nat, off: nat, b: u8): Mem
    requires CanStore(m, p, d, t) && off < PAGE_SIZE
  {
    var f := Pte(m, p, d, t).index;
    m.(bytes := m.bytes[f := m.bytes[f][off := b]])
  }

  /** copy_pde clears the write bit of every present private entry. */
  function Protect(e: Entry): Entry {
    if e.present && !e.shared then e.(write := false) else e
  }

  function ProtectTable(s: seq<Entry>): (r: seq<Entry>)
    ensures |r| == |s|
  {
    seq(|s|, i requires 0 <= i < |s| => Protect(s[i]))
  }

  /** The frames that process p names, as tables or as pages. */
  ghost function Held(m: Mem, p: nat): set<nat> {
    set x | x in Names(m) && x.pid == p :: Names(m)[x].index
  }

  ghost function PageFrames(m: Mem, p: nat): set<nat> {
    set x | x in Names(m) && x.pid == p && x.PageOf? :: Names(m)[x].index
  }

  ghost predicate IsTableOf(m: Mem, p: nat, f: nat) {
    exists d :: HasTable(m, p, d) && TableFrame(m, p, d) == f
  }

  /** One new frame, all different, for every page table of p. */
  ghost predicate FreshTables(m: Mem, p: nat, own: map<nat, nat>) {
    && (forall d :: d in own <==> HasTable(m, p, d))
    && (forall d :: d in own ==> Free(m, own[d]))
    && (forall d, d' {:trigger own[d], own[d']} :: d in own && d' in own && own[d] == own[d'] ==> d == d')
  }

  /** The directory of the child: the same shape over its own tables. */
  ghost predicate ForkedProcs(m: Mem, m': Mem, p: nat, c: nat, own: map<nat, nat>) {
    && p in m.procs && c !in m.procs && c in m'.procs
    && m'.procs == m.procs[c := m'.procs[c]]
    && m'.procs[c].brk == m.procs[p].brk && m'.procs[c].end == m.procs[p].end
    && |m'.procs[c].pde| == |m.procs[p].pde|
    && (forall d: nat :: HasDir(m, p, d) ==>
                           m'.procs[c].pde[d] ==
                           if d in own then m.procs[p].pde[d].(index := own[d]) else m.procs[p].pde[d])
  }

  /** Parent and child end up with the same protected tables. */
  ghost predicate ForkedTables(m: Mem, m': Mem, p: nat, own: map<nat, nat>) {
    && |m'.tables| == |m.tables|
    && (forall d :: d in own && HasTable(m, p, d) && TableFrame(m, p, d) < |m.tables| && own[d] < |m.tables| ==>
                      && m'.tables[TableFrame(m, p, d)] == ProtectTable(m.tables[TableFrame(m, p, d)])
                      && m'.tables[own[d]] == ProtectTable(m.tables[TableFrame(m, p, d)]))
    && (forall f :: 0 <= f < |m.tables| && f !in own.Values && !IsTableOf(m, p, f) ==> m'.tables[f] == m.tables[f])
  }

  /** Every mapped frame gains one reference, every new table starts with one. */
  ghost predicate ForkedRefs(m: Mem, m': Mem, p: nat, own: map<nat, nat>) {
    && |m'.refs| == |m.refs|
    && m'.freePages == m.freePages - |own.Values|
    && (forall f :: 0 <= f < |m.refs| ==>
                      && m'.refs[f] < REF_LIMIT
                      && m'.refs[f] == if f in own.Values then 1
                                       else if f in PageFrames(m, p) then m.refs[f] as int + 1
                                       else m.refs[f] as int)
  }

  /** copy_pde for child c of p. */
  ghost predicate Forked(m: Mem, m': Mem, p: nat, c: nat, own: map<nat, nat>) {
    && m'.start == m.start && m'.bytes == m.bytes
    && FreshTables(m, p, own)
    && ForkedProcs(m, m', p, c, own)
    && ForkedTables(m, m', p, own)
    && ForkedRefs(m, m', p, own)
  }

  /** free_pde for process p, and the end of the process. */
  ghost predicate Exited(m: Mem, m': Mem, p: nat) {
    && p in m.procs && m'.procs == m.procs - {p}
    && m'.start == m.start && m'.tables == m.tables && m'.bytes == m.bytes
    && |m'.refs| == |m.refs|
    && (forall f :: 0 <= f < |m.refs| ==> m'.refs[f] as int == m.refs[f] as int - if f in Held(m, p) then 1 else 0)
    && m'.freePages - |ZeroSet(m'.start, m'.refs)| == m.freePages - |ZeroSet(m.start, m.refs)|
  }
}
