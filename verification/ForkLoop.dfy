/** The state of copy_pde and of free_pde between two directory slots: how much of
    the address space the loop has handled, as a relation to where it started. */
module ForkLoop {
  import opened Paging
  import opened PagingInvariant

  /** The frames named by the first n entries of a table. */
  function FramesUpTo(table: seq<Entry>, n: nat): (s: set<nat>)
    requires n <= |table|
  {
    set t | 0 <= t < n && table[t].present :: table[t].index
  }

  function Frames(table: seq<Entry>): set<nat> {
    FramesUpTo(table, |table|)
  }

  /** What the loop has met before directory slot d: pages, and page tables. */
  ghost function PagesBefore(m: Mem, p: nat, d: nat): set<nat> {
    set x | x in Names(m) && x.pid == p && x.PageOf? && x.d < d :: Names(m)[x].index
  }

  ghost function TablesBefore(m: Mem, p: nat, d: nat): set<nat> {
    set x | x in Names(m) && x.pid == p && x.TableOf? && x.d < d :: Names(m)[x].index
  }

  ghost predicate Distinct(table: seq<Entry>) {
    forall t, u :: 0 <= t < u < |table| && table[t].present && table[u].present ==> table[t].index != table[u].index
  }

  /** The pages of one table: distinct, counted, and none of them met before. */
  lemma TableFacts(m: Mem, p: nat, d: nat)
    requires Inv(m) && HasTable(m, p, d)
    ensures TableFrame(m, p, d) < |m.tables| && |m.tables[TableFrame(m, p, d)]| == ENTRIES
    ensures var table := m.tables[TableFrame(m, p, d)];
            && Distinct(table)
            && (forall t :: 0 <= t < |table| && table[t].present ==>
                              && UserFrame(m, table[t].index) && m.refs[table[t].index] >= 1
                              && table[t].index !in PagesBefore(m, p, d)
                              && table[t].index !in TablesBefore(m, p, d + 1))
  {
    TableInRange(m, p, d);
    var table := m.tables[TableFrame(m, p, d)];
    forall t: nat | t < |table| && table[t].present
      ensures PageOf(p, d, t) in Names(m) && Names(m)[PageOf(p, d, t)] == table[t]
      ensures UserFrame(m, table[t].index) && m.refs[table[t].index] >= 1
    {
      MappedIsCounted(m, p, d, t);
    }
    forall t: nat, u: nat | t < u < |table| && table[t].present && table[u].present
      ensures table[t].index != table[u].index
    {
      assert Names(m)[PageOf(p, d, t)].index == table[t].index;
      assert Names(m)[PageOf(p, d, u)].index == table[u].index;
    }
    forall t: nat | t < |table| && table[t].present
      ensures table[t].index !in PagesBefore(m, p, d)
      ensures table[t].index !in TablesBefore(m, p, d + 1)
    {
      assert Names(m)[PageOf(p, d, t)].index == table[t].index;
    }
  }

  lemma BeforeNext(m: Mem, p: nat, d: nat)
    requires Inv(m)
    ensures !HasTable(m, p, d) ==> PagesBefore(m, p, d + 1) == PagesBefore(m, p, d)
    ensures !HasTable(m, p, d) ==> TablesBefore(m, p, d + 1) == TablesBefore(m, p, d)
    ensures HasTable(m, p, d) && TableFrame(m, p, d) < |m.tables| ==>
              PagesBefore(m, p, d + 1) == PagesBefore(m, p, d) + Frames(m.tables[TableFrame(m, p, d)])
    ensures HasTable(m, p, d) ==> TablesBefore(m, p, d + 1) == TablesBefore(m, p, d) + {TableFrame(m, p, d)}
  {
    if HasTable(m, p, d) && TableFrame(m, p, d) < |m.tables| {
      var table := m.tables[TableFrame(m, p, d)];
      forall t: nat | t < |table| && table[t].present
        ensures table[t].index in PagesBefore(m, p, d + 1)
      {
        assert PageOf(p, d, t) in Names(m) && Names(m)[PageOf(p, d, t)] == table[t];
      }
    }
    if HasTable(m, p, d) {
      assert TableOf(p, d) in Names(m) && Names(m)[TableOf(p, d)].index == TableFrame(m, p, d);
    }
  }

  lemma BeforeEnds(m: Mem, p: nat)
    ensures PagesBefore(m, p, KERNEL_TABLES) == {} && TablesBefore(m, p, KERNEL_TABLES) == {}
    ensures PagesBefore(m, p, SELF_SLOT) == PageFrames(m, p)
  {
    forall x | x in Names(m)
      ensures KERNEL_TABLES <= x.d < SELF_SLOT
    {
    }
  }

  /** The page tables of p: directory slot to frame. */
  ghost function TableMap(m: Mem, p: nat): (tf: map<nat, nat>)
    ensures forall d: nat :: d in tf <==> HasTable(m, p, d)
    ensures forall d: nat :: d in tf ==> tf[d] == TableFrame(m, p, d)
  {
    if p in m.procs then
      map d | 0 <= d < |m.procs[p].pde| && HasTable(m, p, d) :: TableFrame(m, p, d)
    else map[]
  }

  lemma TableMapFacts(m: Mem, p: nat)
    requires Inv(m)
    ensures var tf := TableMap(m, p);
            && (forall d :: d in tf ==> tf[d] < |m.tables| && m.refs[tf[d]] >= 1)
            && Injective(tf)
  {
    var tf := TableMap(m, p);
    forall d | d in tf
      ensures tf[d] < |m.tables| && m.refs[tf[d]] >= 1
    {
      NamedIsCounted(m, TableOf(p, d));
    }
    forall d, e | d in tf && e in tf && tf[d] == tf[e]
      ensures d == e
    {
      TablesStayApart(m, p, d, p, e);
    }
  }

  // ----- copy_pde -----------------------------------------------------------

  ghost predicate Injective(own: map<nat, nat>) {
    forall i, j {:trigger own[i], own[j]} :: i in own && j in own && own[i] == own[j] ==> i == j
  }

  /** own holds a new frame for every table before slot d. */
  ghost predicate OwnBefore(refs0: seq<u8>, tf: map<nat, nat>, own: map<nat, nat>, d: nat) {
    && (forall i :: i in own <==> i in tf && i < d)
    && (forall i :: i in own ==> KERNEL_FRAMES <= own[i] < |refs0| && refs0[own[i]] == 0)
    && Injective(own)
  }

  /** New frames count one, the pages met so far one more than before. */
  ghost predicate RefsAre(refs0: seq<u8>, made: set<nat>, pages: set<nat>, refs: seq<u8>) {
    && |refs| == |refs0|
    && (forall f :: 0 <= f < |refs| ==>
                      && refs[f] < REF_LIMIT
                      && refs[f] ==
                         if f in made then 1 else if f in pages then refs0[f] as int + 1 else refs0[f] as int)
  }

  /** The tables in own are protected and copied, the others are as before. */
  ghost predicate TablesAre(tables0: seq<seq<Entry>>, tf: map<nat, nat>, own: map<nat, nat>, tables: seq<seq<Entry>>) {
    && |tables| == |tables0|
    && (forall i :: i in own ==>
                      && i in tf && tf[i] < |tables0| && own[i] < |tables0|
                      && tables[tf[i]] == ProtectTable(tables0[tf[i]])
                      && tables[own[i]] == ProtectTable(tables0[tf[i]]))
    && (forall f :: 0 <= f < |tables| && f !in own.Values && (forall i :: i in own && i in tf ==> tf[i] != f) ==>
                      tables[f] == tables0[f])
  }

  ghost predicate PdeIs(pde0: seq<Entry>, own: map<nat, nat>, pde: seq<Entry>) {
    && |pde| == |pde0|
    && (forall i: nat :: i < |pde| ==> pde[i] == if i in own then pde0[i].(index := own[i]) else pde0[i])
  }

  /** copy_pde before slot d, where tf are the tables of p and pages the frames met so
      far: the tables in own are copied, the rest is as in m0. */
  ghost predicate ForkProgress(m0: Mem, m: Mem, tf: map<nat, nat>, pages: set<nat>, pde0: seq<Entry>, pde: seq<Entry>,
                               own: map<nat, nat>, d: nat)
  {
    && m.start == m0.start && m.bytes == m0.bytes && m.procs == m0.procs
    && m.freePages == m0.freePages - |own.Values|
    && OwnBefore(m0.refs, tf, own, d)
    && RefsAre(m0.refs, own.Values, pages, m.refs)
    && TablesAre(m0.tables, tf, own, m.tables)
    && PdeIs(pde0, own, pde)
  }

  lemma ForkBegins(m0: Mem, p: nat)
    requires Inv(m0) && p in m0.procs
    ensures PagesBefore(m0, p, KERNEL_TABLES) == {}
    ensures ForkProgress(m0, m0, TableMap(m0, p), {}, m0.procs[p].pde, m0.procs[p].pde, map[], KERNEL_TABLES)
  {
    BeforeEnds(m0, p);
  }

  lemma ForkSkips(m0: Mem, m: Mem, tf: map<nat, nat>, pages: set<nat>, pde0: seq<Entry>, pde: seq<Entry>,
                  own: map<nat, nat>, d: nat)
    requires ForkProgress(m0, m, tf, pages, pde0, pde, own, d) && d !in tf
    ensures ForkProgress(m0, m, tf, pages, pde0, pde, own, d + 1)
  {
  }

  /** The table of slot d is still as it was, and its pages are counted as in m0. */
  lemma ForkMeets(m0: Mem, m: Mem, p: nat, tf: map<nat, nat>, pages: set<nat>, pde: seq<Entry>, own: map<nat, nat>,
      d: nat)
    requires Inv(m0) && HasTable(m0, p, d) && tf == TableMap(m0, p) && pages == PagesBefore(m0, p, d)
    requires ForkProgress(m0, m, tf, pages, m0.procs[p].pde, pde, own, d)
    ensures TableFrame(m0, p, d) < |m.tables| && m.tables[TableFrame(m0, p, d)] == m0.tables[TableFrame(m0, p, d)]
    ensures d < |pde| && pde[d] == m0.procs[p].pde[d]
    ensures var table := m0.tables[TableFrame(m0, p, d)];
            && |table| == ENTRIES && Distinct(table)
            && forall t :: 0 <= t < |table| && table[t].present ==>
                             table[t].index < |m.refs| && m.refs[table[t].index] == m0.refs[table[t].index] >= 1
  {
    TableFacts(m0, p, d);
    TableMapFacts(m0, p);
  }

  /** The counters after the pages of a table were counted. */
  ghost predicate Counted(refs: seq<u8>, refs1: seq<u8>, frames: set<nat>) {
    && |refs1| == |refs|
    && forall f :: 0 <= f < |refs| ==>
                     refs1[f] < REF_LIMIT && refs1[f] as int == refs[f] as int + if f in frames then 1 else 0
  }

  lemma GrowValues(own: map<nat, nat>, d: nat, f: nat)
    requires d !in own
    ensures own[d := f].Values == own.Values + {f}
  {
    forall g | g in own.Values
      ensures g in own[d := f].Values
    {
      var i :| i in own && own[i] == g;
      assert own[d := f][i] == g;
    }
    assert own[d := f][d] == f;
  }

  lemma ForkAdvancesRefs(refs0: seq<u8>, tf: map<nat, nat>, own: map<nat, nat>, d: nat, pages: set<nat>,
                         frames: set<nat>, refs: seq<u8>, refs1: seq<u8>, f: nat)
    requires OwnBefore(refs0, tf, own, d) && d in tf && RefsAre(refs0, own.Values, pages, refs)
    requires Counted(refs, refs1, frames) && f < |refs1| && refs1[f] == 0
    requires forall g :: 0 <= g < |refs0| && g < KERNEL_FRAMES ==> refs0[g] == 1
    requires forall g :: g in frames ==> g < |refs0| && refs0[g] >= 1 && g !in pages
    ensures OwnBefore(refs0, tf, own[d := f], d + 1)
    ensures own[d := f].Values == own.Values + {f} && f !in own.Values
    ensures RefsAre(refs0, own[d := f].Values, pages + frames, refs1[f := 1])
  {
    GrowValues(own, d, f);
    assert refs0[f] == 0;
    forall i | i in own
      ensures refs0[own[i]] == 0 && own[i] in own.Values
    {
    }
  }

  lemma ForkAdvancesTables(tables0: seq<seq<Entry>>, tables: seq<seq<Entry>>, tf: map<nat, nat>, own: map<nat, nat>,
                           d: nat, f: nat, done: seq<Entry>)
    requires TablesAre(tables0, tf, own, tables) && d in tf && d !in own && Injective(tf)
    requires tf[d] < |tables0| && f < |tables0| && done == ProtectTable(tables0[tf[d]])
    requires forall i :: i in tf ==> tf[i] !in own.Values && tf[i] != f
    requires f !in own.Values
    ensures TablesAre(tables0, tf, own[d := f], tables[tf[d] := done][f := done])
  {
    GrowValues(own, d, f);
    var own', tables' := own[d := f], tables[tf[d] := done][f := done];
    forall i | i in own'
      ensures && i in tf && tf[i] < |tables0| && own'[i] < |tables0|
              && tables'[tf[i]] == ProtectTable(tables0[tf[i]]) && tables'[own'[i]] == ProtectTable(tables0[tf[i]])
    {
      if i != d {
        assert own[i] in own.Values;
        assert tf[i] != f && tf[i] != tf[d] && own'[i] != tf[d];
      }
    }
    forall g | 0 <= g < |tables'| && g !in own'.Values && (forall i :: i in own' && i in tf ==> tf[i] != g)
      ensures tables'[g] == tables0[g]
    {
      assert d in own' && tf[d] != g;
      assert forall i :: i in own && i in tf ==> i in own';
    }
  }

  /** Slot d handled: its pages are counted, its table is protected and copied to f. */
  ghost predicate SlotForked(m: Mem, m': Mem, tf: nat, table: seq<Entry>, refs1: seq<u8>, f: nat) {
    && m'.start == m.start && m'.procs == m.procs && m'.bytes == m.bytes && m'.freePages == m.freePages - 1
    && tf < |m.tables| && f < |m.tables| && f < |refs1|
    && m'.tables == m.tables[tf := ProtectTable(table)][f := ProtectTable(table)]
    && Counted(m.refs, refs1, Frames(table)) && refs1[f] == 0 && m'.refs == refs1[f := 1]
  }

  /** What the loop needs to know about the address space it walks. */
  ghost predicate ForkFacts(m0: Mem, tf: map<nat, nat>, pages: set<nat>, d: nat) {
    && Injective(tf) && |m0.tables| == |m0.refs| && KERNEL_FRAMES <= |m0.refs|
    && (forall i :: i in tf ==> tf[i] < |m0.tables| && m0.refs[tf[i]] >= 1)
    && (forall g :: 0 <= g < KERNEL_FRAMES ==> m0.refs[g] == 1)
    && (d in tf ==> forall g :: g in Frames(m0.tables[tf[d]]) ==> g < |m0.refs| && m0.refs[g] >= 1 && g !in pages)
  }

  lemma ForkFactsHold(m0: Mem, p: nat, d: nat)
    requires Inv(m0)
    ensures ForkFacts(m0, TableMap(m0, p), PagesBefore(m0, p, d), d)
    ensures d in TableMap(m0, p) ==>
              PagesBefore(m0, p, d + 1) == PagesBefore(m0, p, d) + Frames(m0.tables[TableMap(m0, p)[d]])
    ensures d !in TableMap(m0, p) ==> PagesBefore(m0, p, d + 1) == PagesBefore(m0, p, d)
  {
    TableMapFacts(m0, p);
    BeforeNext(m0, p, d);
    if HasTable(m0, p, d) {
      TableFacts(m0, p, d);
    }
  }

  lemma ForkAdvancesPde(pde0: seq<Entry>, pde: seq<Entry>, own: map<nat, nat>, d: nat, f: nat)
    requires PdeIs(pde0, own, pde) && d < |pde| && d !in own
    ensures PdeIs(pde0, own[d := f], pde[d := pde[d].(index := f)])
  {
  }

  lemma OwnAvoidsTables(refs0: seq<u8>, tf: map<nat, nat>, own: map<nat, nat>, d: nat, f: nat)
    requires OwnBefore(refs0, tf, own, d) && forall i :: i in tf ==> tf[i] < |refs0| && refs0[tf[i]] >= 1
    requires f < |refs0| && refs0[f] == 0
    ensures forall i :: i in tf ==> tf[i] !in own.Values && tf[i] != f
  {
  }

  lemma ForkAdvances(m0: Mem, m: Mem, m': Mem, tf: map<nat, nat>, pages: set<nat>, pde0: seq<Entry>, pde: seq<Entry>,
                     own: map<nat, nat>, d: nat, refs1: seq<u8>, f: nat)
    requires ForkFacts(m0, tf, pages, d) && ForkProgress(m0, m, tf, pages, pde0, pde, own, d)
    requires d in tf && d < |pde| && SlotForked(m, m', tf[d], m0.tables[tf[d]], refs1, f)
    ensures ForkProgress(m0, m', tf, pages + Frames(m0.tables[tf[d]]), pde0, pde[d := pde[d].(index := f)],
                         own[d := f], d + 1)
  {
    var table := m0.tables[tf[d]];
    ForkAdvancesRefs(m0.refs, tf, own, d, pages, Frames(table), m.refs, refs1, f);
    assert m0.refs[f] == 0;
    OwnAvoidsTables(m0.refs, tf, own, d, f);
    ForkAdvancesTables(m0.tables, m.tables, tf, own, d, f, ProtectTable(table));
    ForkAdvancesPde(pde0, pde, own, d, f);
  }

  lemma ForkEndsFresh(m0: Mem, p: nat, own: map<nat, nat>)
    requires OwnBefore(m0.refs, TableMap(m0, p), own, SELF_SLOT)
    ensures FreshTables(m0, p, own)
  {
    assert forall d: nat :: HasTable(m0, p, d) ==> d < SELF_SLOT;
  }

  lemma ForkEndsTables(m0: Mem, m': Mem, p: nat, own: map<nat, nat>)
    requires OwnBefore(m0.refs, TableMap(m0, p), own, SELF_SLOT)
    requires TablesAre(m0.tables, TableMap(m0, p), own, m'.tables)
    ensures ForkedTables(m0, m', p, own)
  {
    var tf := TableMap(m0, p);
    forall f | 0 <= f < |m'.tables| && f !in own.Values && !IsTableOf(m0, p, f)
      ensures m'.tables[f] == m0.tables[f]
    {
      assert forall i :: i in own && i in tf ==> tf[i] != f;
    }
  }

  lemma ForkEndsRefs(m0: Mem, m': Mem, p: nat, own: map<nat, nat>)
    requires RefsAre(m0.refs, own.Values, PageFrames(m0, p), m'.refs) && m'.freePages == m0.freePages - |own.Values|
    ensures ForkedRefs(m0, m', p, own)
  {
  }

  lemma ForkEndsProcs(m0: Mem, m': Mem, p: nat, c: nat, pde: seq<Entry>, own: map<nat, nat>)
    requires p in m0.procs && c !in m0.procs && PdeIs(m0.procs[p].pde, own, pde)
    requires m'.procs == m0.procs[c := m0.procs[p].(pde := pde)]
    ensures ForkedProcs(m0, m', p, c, own)
  {
  }

  lemma ForkEnds(m0: Mem, m: Mem, m': Mem, p: nat, c: nat, pde: seq<Entry>, own: map<nat, nat>)
    requires p in m0.procs && c !in m0.procs
    requires ForkProgress(m0, m, TableMap(m0, p), PagesBefore(m0, p, SELF_SLOT), m0.procs[p].pde, pde, own, SELF_SLOT)
    requires m' == m.(procs := m0.procs[c := m0.procs[p].(pde := pde)])
    ensures Forked(m0, m', p, c, own)
  {
    BeforeEnds(m0, p);
    ForkEndsFresh(m0, p, own);
    ForkEndsTables(m0, m', p, own);
    ForkEndsRefs(m0, m', p, own);
    ForkEndsProcs(m0, m', p, c, pde, own);
  }

  /** The fork goes through: no counter is about to reach the limit, and there is a
      frame for every page table. */
  ghost predicate CanFork(m: Mem, p: nat) {
    && (forall f :: f in PageFrames(m, p) && f < |m.refs| ==> m.refs[f] as int + 1 < REF_LIMIT)
    && |TableMap(m, p)| <= |ZeroSet(m.start, m.refs)|
  }

  lemma {:induction false} ImageSize(own: map<nat, nat>)
    ensures |own.Values| <= |own|
    ensures Injective(own) ==> |own.Values| == |own|
    decreases |own|
  {
    if own != map[] {
      var k :| k in own;
      var rest := own - {k};
      ImageSize(rest);
      assert own.Values == rest.Values + {own[k]} by {
        forall v | v in own.Values
          ensures v in rest.Values + {own[k]}
        {
          var i :| i in own && own[i] == v;
          assert i != k ==> i in rest && rest[i] == v;
        }
      }
      assert |own| == |rest| + 1 by {
        assert own.Keys == rest.Keys + {k};
      }
      if Injective(own) {
        assert forall i :: i in rest ==> i in own && own[i] == rest[i];
        assert own[k] !in rest.Values;
      }
    } else {
      assert own.Values == {};
    }
  }

  lemma SubsetSize<T>(a: set<T>, b: set<T>)
    requires a <= b
    ensures |a| <= |b|
    ensures a < b ==> |a| < |b|
  {
    assert b == a + (b - a);
  }

  /** get_page finds nothing in the middle of the loop: then the tables do not fit. */
  lemma ForkStuck(start: nat, refs0: seq<u8>, free0: int, tf: map<nat, nat>, own: map<nat, nat>, d: nat,
                  pages: set<nat>, frames: set<nat>, refs: seq<u8>, refs1: seq<u8>)
    requires start < KERNEL_FRAMES && Accounted(start, refs0, free0)
    requires OwnBefore(refs0, tf, own, d) && d in tf && RefsAre(refs0, own.Values, pages, refs)
    requires Counted(refs, refs1, frames)
    requires forall g :: g in frames || g in pages ==> g < |refs0| && refs0[g] >= 1
    requires (forall g :: start <= g < |refs1| ==> refs1[g] != 0) || free0 - |own.Values| <= 1
    ensures |ZeroSet(start, refs0)| < |tf|
  {
    ImageSize(own);
    SubsetSize(own.Keys, tf.Keys);
    assert d in tf.Keys && d !in own.Keys;
    if forall g :: start <= g < |refs1| ==> refs1[g] != 0 {
      assert ZeroSet(start, refs0) <= own.Values;
      SubsetSize(ZeroSet(start, refs0), own.Values);
    }
  }

  lemma ForkFits(m: Mem, m': Mem, p: nat, c: nat, own: map<nat, nat>)
    requires Inv(m) && Forked(m, m', p, c, own)
    ensures CanFork(m, p)
  {
    ImageSize(own);
    assert own.Keys == TableMap(m, p).Keys;
    assert own.Values <= ZeroSet(m.start, m.refs);
    SubsetSize(own.Values, ZeroSet(m.start, m.refs));
    forall f | f in PageFrames(m, p) && f < |m.refs|
      ensures m.refs[f] as int + 1 < REF_LIMIT
    {
      var x :| x in Names(m) && x.pid == p && x.PageOf? && Names(m)[x].index == f;
      NamedIsCounted(m, x);
      assert f !in own.Values;
    }
  }

  /** The whole of copy_pde, one slot at a time. */
  ghost predicate ForkAt(m0: Mem, m: Mem, p: nat, pde: seq<Entry>, own: map<nat, nat>, d: nat) {
    && p in m0.procs && d <= SELF_SLOT
    && ForkProgress(m0, m, TableMap(m0, p), PagesBefore(m0, p, d), m0.procs[p].pde, pde, own, d)
  }

  lemma ForkStart(m0: Mem, p: nat)
    requires Inv(m0) && p in m0.procs
    ensures ForkAt(m0, m0, p, m0.procs[p].pde, map[], KERNEL_TABLES)
    ensures |m0.procs[p].pde| == ENTRIES
  {
    ForkBegins(m0, p);
  }

  lemma ForkSkip(m0: Mem, m: Mem, p: nat, pde: seq<Entry>, own: map<nat, nat>, d: nat)
    requires Inv(m0) && ForkAt(m0, m, p, pde, own, d) && UserDir(d) && d < |pde| && !pde[d].present
    ensures ForkAt(m0, m, p, pde, own, d + 1)
  {
    ForkFactsHold(m0, p, d);
    ForkSkips(m0, m, TableMap(m0, p), PagesBefore(m0, p, d), m0.procs[p].pde, pde, own, d);
  }

  /** What the loop finds at a present slot. */
  lemma ForkFinds(m0: Mem, m: Mem, p: nat, pde: seq<Entry>, own: map<nat, nat>, d: nat)
    requires Inv(m0) && ForkAt(m0, m, p, pde, own, d) && UserDir(d) && d < |pde| && pde[d].present
    ensures HasTable(m0, p, d) && p in m.procs && d < |m.procs[p].pde|
        && m.procs[p].pde[d].index == TableFrame(m0, p, d)
    ensures TableFrame(m0, p, d) < |m.tables| && m.tables[TableFrame(m0, p, d)] == m0.tables[TableFrame(m0, p, d)]
    ensures Distinct(m.tables[TableFrame(m0, p, d)]) && |m.tables| == |m.refs| && m.start <= |m.refs|
    ensures var table := m.tables[TableFrame(m0, p, d)];
            forall t :: 0 <= t < |table| && table[t].present ==> table[t].index < |m.refs|
    ensures forall f :: 0 <= f < |m.refs| ==> m.refs[f] < REF_LIMIT
  {
    ForkMeets(m0, m, p, TableMap(m0, p), PagesBefore(m0, p, d), pde, own, d);
  }

  lemma ForkMoves(m0: Mem, m: Mem, m': Mem, p: nat, pde: seq<Entry>, own: map<nat, nat>, d: nat, refs1: seq<u8>, f: nat)
    requires Inv(m0) && ForkAt(m0, m, p, pde, own, d) && UserDir(d) && d < |pde| && HasTable(m0, p, d)
    requires TableFrame(m0, p, d) < |m0.tables|
    requires SlotForked(m, m', TableFrame(m0, p, d), m0.tables[TableFrame(m0, p, d)], refs1, f)
    ensures ForkAt(m0, m', p, pde[d := pde[d].(index := f)], own[d := f], d + 1)
  {
    ForkFactsHold(m0, p, d);
    ForkAdvances(m0, m, m', TableMap(m0, p), PagesBefore(m0, p, d), m0.procs[p].pde, pde, own, d, refs1, f);
  }

  /** Why the handling of one slot stops: a counter is full, or no frame is left. */
  ghost predicate SlotFails(m: Mem, table: seq<Entry>, refs1: seq<u8>) {
    || (exists f :: f in Frames(table) && f < |m.refs| && m.refs[f] + 1 >= REF_LIMIT)
    || (Counted(m.refs, refs1, Frames(table))
        && ((forall g :: m.start <= g < |refs1| ==> refs1[g] != 0) || m.freePages <= 1))
  }

  lemma ForkFails(m0: Mem, m: Mem, p: nat, pde: seq<Entry>, own: map<nat, nat>, d: nat, refs1: seq<u8>)
    requires Inv(m0) && ForkAt(m0, m, p, pde, own, d) && UserDir(d) && d < |pde| && HasTable(m0, p, d)
    requires TableFrame(m0, p, d) < |m0.tables| && SlotFails(m, m0.tables[TableFrame(m0, p, d)], refs1)
    ensures !CanFork(m0, p)
  {
    var frames := Frames(m0.tables[TableFrame(m0, p, d)]);
    ForkFactsHold(m0, p, d);
    if f :| f in frames && f < |m.refs| && m.refs[f] + 1 >= REF_LIMIT {
      ForkMeets(m0, m, p, TableMap(m0, p), PagesBefore(m0, p, d), pde, own, d);
      assert f in PagesBefore(m0, p, d + 1);
      assert f in PageFrames(m0, p);
      assert m.refs[f] == m0.refs[f];
    } else {
      forall g | g in PagesBefore(m0, p, d)
        ensures g < |m0.refs| && m0.refs[g] >= 1
      {
        var x :| x in Names(m0) && x.pid == p && x.PageOf? && x.d < d && Names(m0)[x].index == g;
        NamedIsCounted(m0, x);
      }
      ForkStuck(m0.start, m0.refs, m0.freePages, TableMap(m0, p), own, d, PagesBefore(m0, p, d), frames, m.refs, refs1);
    }
  }

  lemma ForkFinish(m0: Mem, m: Mem, m': Mem, p: nat, c: nat, pde: seq<Entry>, own: map<nat, nat>)
    requires Inv(m0) && c !in m0.procs && ForkAt(m0, m, p, pde, own, SELF_SLOT)
    requires m' == m.(procs := m0.procs[c := m0.procs[p].(pde := pde)])
    ensures Forked(m0, m', p, c, own) && CanFork(m0, p)
  {
    ForkEnds(m0, m, m', p, c, pde, own);
    ForkFits(m0, m', p, c, own);
  }

  // ----- free_pde -----------------------------------------------------------

  /** The frames in gone have lost one reference each, and free_pages kept up. */
  ghost predicate Released(start: nat, refs0: seq<u8>, free0: int, gone: set<nat>, refs: seq<u8>, freePages: int) {
    && |refs| == |refs0|
    && (forall f :: 0 <= f < |refs| ==> refs[f] as int == refs0[f] as int - if f in gone then 1 else 0)
    && freePages - |ZeroSet(start, refs)| == free0 - |ZeroSet(start, refs0)|
  }

  lemma ReleaseOne(start: nat, refs0: seq<u8>, free0: int, gone: set<nat>, refs: seq<u8>, freePages: int, f: nat)
    requires Released(start, refs0, free0, gone, refs, freePages)
    requires f !in gone && start <= f < |refs| && refs[f] >= 1
    ensures Released(start, refs0, free0, gone + {f}, refs[f := refs[f] - 1],
                     if refs[f] == 1 then freePages + 1 else freePages)
  {
    var refs' := refs[f := refs[f] - 1];
    assert ZeroSet(start, refs') == ZeroSet(start, refs) + if refs[f] == 1 then {f} else {};
  }

  /** The frames of slot d are still counted when free_pde reaches it. */
  lemma ReleaseMeets(m: Mem, p: nat, d: nat)
    requires Inv(m) && HasTable(m, p, d)
    ensures UserFrame(m, TableFrame(m, p, d)) && m.refs[TableFrame(m, p, d)] >= 1
    ensures TableFrame(m, p, d) !in PagesBefore(m, p, d + 1) && TableFrame(m, p, d) !in TablesBefore(m, p, d)
    ensures forall f :: f in Frames(m.tables[TableFrame(m, p, d)]) ==>
                          UserFrame(m, f) && m.refs[f] >= 1 && f !in PagesBefore(m, p, d) && f !in TablesBefore(m, p, d)
  {
    var x := TableOf(p, d);
    assert x in Names(m) && Exclusive(x, Names(m)[x]);
    NamedIsCounted(m, x);
    TableFacts(m, p, d);
    assert TablesBefore(m, p, d) <= TablesBefore(m, p, d + 1);
    forall y | y in Names(m) && y.pid == p && Names(m)[y].index == TableFrame(m, p, d)
      ensures y == x
    {
    }
  }

  lemma ReleaseEnds(m: Mem, p: nat)
    ensures PagesBefore(m, p, SELF_SLOT) + TablesBefore(m, p, SELF_SLOT) == Held(m, p)
  {
    forall x | x in Names(m)
      ensures x.d < SELF_SLOT
    {
    }
    forall x | x in Names(m) && x.pid == p
      ensures Names(m)[x].index in PagesBefore(m, p, SELF_SLOT) + TablesBefore(m, p, SELF_SLOT)
    {
      match x
      case TableOf(_, _) => assert Names(m)[x].index in TablesBefore(m, p, SELF_SLOT);
      case PageOf(_, _, _) => assert Names(m)[x].index in PagesBefore(m, p, SELF_SLOT);
    }
  }

  /** free_pde before slot d: the frames met so far are released. */
  ghost predicate ReleasedAt(m0: Mem, m: Mem, p: nat, d: nat) {
    && m.start == m0.start && m.procs == m0.procs && m.tables == m0.tables && m.bytes == m0.bytes
    && Released(m0.start, m0.refs, m0.freePages, PagesBefore(m0, p, d) + TablesBefore(m0, p, d), m.refs, m.freePages)
  }

  lemma ReleaseStart(m0: Mem, p: nat)
    ensures ReleasedAt(m0, m0, p, KERNEL_TABLES)
  {
    BeforeEnds(m0, p);
  }

  lemma ReleaseSkip(m0: Mem, m: Mem, p: nat, d: nat)
    requires Inv(m0) && ReleasedAt(m0, m, p, d) && !HasTable(m0, p, d)
    ensures ReleasedAt(m0, m, p, d + 1)
  {
    BeforeNext(m0, p, d);
  }

  lemma ReleaseNext(m0: Mem, p: nat, d: nat, gone: set<nat>)
    requires Inv(m0) && HasTable(m0, p, d) && gone == PagesBefore(m0, p, d) + TablesBefore(m0, p, d)
    ensures TableFrame(m0, p, d) < |m0.tables|
    ensures PagesBefore(m0, p, d + 1) + TablesBefore(m0, p, d + 1) ==
            gone + Frames(m0.tables[TableFrame(m0, p, d)]) + {TableFrame(m0, p, d)}
    ensures TableFrame(m0, p, d) !in gone + Frames(m0.tables[TableFrame(m0, p, d)])
    ensures Distinct(m0.tables[TableFrame(m0, p, d)])
    ensures forall f :: f in Frames(m0.tables[TableFrame(m0, p, d)]) + {TableFrame(m0, p, d)} ==>
                          f !in gone && UserFrame(m0, f) && m0.refs[f] >= 1
  {
    TableFacts(m0, p, d);
    ReleaseMeets(m0, p, d);
    BeforeNext(m0, p, d);
  }

  lemma ReleaseFinish(m0: Mem, m: Mem, m': Mem, p: nat)
    requires p in m0.procs && ReleasedAt(m0, m, p, SELF_SLOT) && m' == m.(procs := m0.procs - {p})
    ensures Exited(m0, m', p)
  {
    ReleaseEnds(m0, p);
  }
}
