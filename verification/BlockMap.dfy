/** What bmap keeps: allocating a zone changes one position of one inode, every zone
    hangs in one place, and no byte of any file changes. */
module BlockMap {
  import opened Wrappers
  import opened Volume

  lemma WordOfSet(b: Block, i: nat, w: u16, j: nat)
    requires i < BLOCK_INDEXES && j < BLOCK_INDEXES
    ensures Word(SetWord(b, i, w), j) == if i == j then w else Word(b, j)
  {
  }

  lemma ZeroWords(j: nat)
    requires j < BLOCK_INDEXES
    ensures Word(ZeroBlock(), j) == 0
  {
  }

  /** Read as an index block, b has no pointer. */
  predicate Clean(b: Block) {
    forall i :: 0 <= i < BLOCK_INDEXES ==> Word(b, i) == 0
  }

  lemma ZeroIsClean()
    ensures Clean(ZeroBlock())
  {
    forall i | 0 <= i < BLOCK_INDEXES
      ensures Word(ZeroBlock(), i) == 0
    {
      ZeroWords(i);
    }
  }

  /** The block that balloc would take for position p can be hung there. */
  predicate Fits(v: Vol, p: seq<nat>) {
    CanAlloc(v) && IsPath(p) && (Level(p) > 0 ==> Clean(v.disk[NextZone(v)]))
  }

  lemma ParentIsPath(p: seq<nat>)
    requires IsPath(p) && |p| > 1
    ensures IsPath(Parent(p)) && p == Parent(p) + [Last(p)] && Last(p) < BLOCK_INDEXES
        && Level(Parent(p)) == Level(p) + 1
  {
  }

  /** A position below an empty one is empty. */
  lemma {:induction false} EmptyBelow(v: Vol, n: nat, p: seq<nat>, k: nat)
    requires 1 <= k <= |p| && ZoneAt(v, n, p[..k]) == 0
    ensures ZoneAt(v, n, p) == 0
  {
    if IsPath(p) && k < |p| {
      assert Parent(p)[..k] == p[..k];
      EmptyBelow(v, n, Parent(p), k);
    } else if k == |p| {
      assert p[..k] == p;
    }
  }

  /** Position p gets zone z, which was unused and, if it becomes an index block, has no pointers. */
  ghost predicate Fresh(v: Vol, n: nat, p: seq<nat>, z: nat) {
    && Inv(v) && HasSlot(v, n, p) && ZoneAt(v, n, p) == 0
    && 0 < z < 65536 && z < |v.disk| && Unused(v, z) && (Level(p) > 0 ==> Clean(v.disk[z]))
  }

  /** The positions directly below p read the block that was hung at p, which has no pointers. */
  lemma SetPtrBelowItself(v: Vol, n: nat, p: seq<nat>, z: nat, q: seq<nat>)
    requires HasSlot(v, n, p) && 0 < z < 65536 && z < |v.disk| && Clean(v.disk[z])
    requires |p| > 1 ==> ZoneAt(v, n, Parent(p)) != z
    requires IsPath(q) && |q| > 1 && Parent(q) == p && ZoneAt(v, n, p) == 0
    requires ZoneAt(SetPtr(v, n, p, z), n, p) == z
    ensures ZoneAt(SetPtr(v, n, p, z), n, q) == 0 == ZoneAt(v, n, q)
  {
    assert SetPtr(v, n, p, z).disk[z] == v.disk[z];
    ParentIsPath(q);
  }

  /** The positions of one index block, of which p is one. */
  lemma SetPtrBeside(v: Vol, n: nat, p: seq<nat>, z: nat, q: seq<nat>)
    requires HasSlot(v, n, p) && 0 < z < 65536 && |p| > 1
    requires IsPath(q) && |q| > 1 && Parent(q) == Parent(p)
    requires ZoneAt(SetPtr(v, n, p, z), n, Parent(p)) == ZoneAt(v, n, Parent(p))
    ensures ZoneAt(SetPtr(v, n, p, z), n, q) == if q == p then z else ZoneAt(v, n, q)
  {
    ParentIsPath(p);
    ParentIsPath(q);
    WordOfSet(v.disk[ZoneAt(v, n, Parent(p))], Last(p), z, Last(q));
  }

  /** The positions of every other index block. */
  lemma SetPtrElsewhere(v: Vol, n: nat, p: seq<nat>, z: nat, m: nat, q: seq<nat>)
    requires HasSlot(v, n, p) && 0 < z < 65536
    requires m in v.inodes && IsPath(q) && |q| > 1
    requires |p| > 1 ==> ZoneAt(v, m, Parent(q)) == 0 || ZoneAt(v, m, Parent(q)) != ZoneAt(v, n, Parent(p))
    requires ZoneAt(SetPtr(v, n, p, z), m, Parent(q)) == ZoneAt(v, m, Parent(q))
    ensures ZoneAt(SetPtr(v, n, p, z), m, q) == ZoneAt(v, m, q)
  {
  }

  /** The pointer of one position is that position and no other. */
  lemma {:induction false} SetPtrAt(v: Vol, n: nat, p: seq<nat>, z: nat, m: nat, q: seq<nat>)
    requires Fresh(v, n, p, z)
    ensures ZoneAt(SetPtr(v, n, p, z), m, q) == if m == n && q == p then z else ZoneAt(v, m, q)
    decreases |q|
  {
    if m in v.inodes && IsPath(q) {
      if |q| > 1 {
        SetPtrAt(v, n, p, z, m, Parent(q));
        if |p| > 1 {
          assert Used(v, ZoneAt(v, n, Parent(p)));
        }
        if m == n && Parent(q) == p {
          ParentIsPath(q);
          SetPtrBelowItself(v, n, p, z, q);
        } else if |p| > 1 && ZoneAt(v, m, Parent(q)) == ZoneAt(v, n, Parent(p)) {
          assert m == n && Parent(q) == Parent(p);
          SetPtrBeside(v, n, p, z, q);
        } else {
          SetPtrElsewhere(v, n, p, z, m, q);
        }
      } else if |p| == 1 && m == n && p[0] == q[0] {
        assert p == q;
      }
    }
  }

  // ----- One allocation -----------------------------------------------------

  /** v' differs from v by zone z hung at position p of file n. */
  ghost predicate Hung(v: Vol, v': Vol, n: nat, p: seq<nat>, z: nat) {
    && Sized(v') && v'.first == v.first && |v'.disk| == |v.disk| && SameFiles(v, v')
    && Unused(v, z) && z != 0
    && (forall y :: Used(v', y) <==> Used(v, y) || y == z)
    && (forall m, q :: ZoneAt(v', m, q) == if m == n && q == p then z else ZoneAt(v, m, q))
    && (forall y :: 0 <= y < |v.disk| && (|p| > 1 ==> y != ZoneAt(v, n, Parent(p))) ==> v'.disk[y] == v.disk[y])
  }

  /** The same files, of the same sizes. */
  ghost predicate SameFiles(v: Vol, v': Vol) {
    v'.inodes.Keys == v.inodes.Keys && forall m :: m in v.inodes ==> v'.inodes[m].size == v.inodes[m].size
  }

  lemma NextZoneIsUnused(v: Vol)
    requires Sized(v) && CanAlloc(v)
    ensures Unused(v, NextZone(v)) && NextZone(v) != 0
  {
    assert FirstClear(v.zmap) != 0;
  }

  lemma MarkedAt(v: Vol, z: nat, used: bool, m: nat, q: seq<nat>)
    requires 1 <= v.first <= z + 1 && z - (v.first - 1) < |v.zmap|
    ensures ZoneAt(Mark(v, z, used), m, q) == ZoneAt(v, m, q)
    decreases |q|
  {
    if |q| <= 1 {
    } else {
      MarkedAt(v, z, used, m, Parent(q));
    }
  }

  lemma AllocAt(v: Vol, n: nat, p: seq<nat>, m: nat, q: seq<nat>)
    requires Inv(v) && Fits(v, p) && HasSlot(v, n, p) && ZoneAt(v, n, p) == 0
    ensures ZoneAt(Alloc(v, n, p), m, q) == if m == n && q == p then NextZone(v) else ZoneAt(v, m, q)
  {
    NextZoneIsUnused(v);
    SetPtrAt(v, n, p, NextZone(v), m, q);
    MarkedAt(SetPtr(v, n, p, NextZone(v)), NextZone(v), true, m, q);
  }

  lemma {:induction false} AllocHangs(v: Vol, n: nat, p: seq<nat>)
    requires Inv(v) && Fits(v, p) && HasSlot(v, n, p) && ZoneAt(v, n, p) == 0
    ensures Hung(v, Alloc(v, n, p), n, p, NextZone(v))
  {
    NextZoneIsUnused(v);
    forall m, q
      ensures ZoneAt(Alloc(v, n, p), m, q) == if m == n && q == p then NextZone(v) else ZoneAt(v, m, q)
    {
      AllocAt(v, n, p, m, q);
    }
  }

  lemma HungKeepsInv(v: Vol, v': Vol, n: nat, p: seq<nat>, z: nat)
    requires Inv(v) && Hung(v, v', n, p, z)
    ensures Inv(v')
  {
  }

  lemma HungKeepsFreeZero(v: Vol, v': Vol, n: nat, p: seq<nat>, z: nat)
    requires Inv(v) && FreeZero(v) && HasSlot(v, n, p) && Hung(v, v', n, p, z)
    ensures FreeZero(v')
  {
    forall y: nat | Unused(v', y)
      ensures v'.disk[y] == ZeroBlock()
    {
      assert !Used(v', y) && !Used(v, y);
      if |p| > 1 {
        assert Used(v, ZoneAt(v, n, Parent(p)));
      }
    }
  }

  /** No file changes: a new zone reads as the hole it fills, and the only block that
      is written is an index block, which holds no data. */
  lemma HungKeepsData(v: Vol, v': Vol, n: nat, p: seq<nat>, z: nat, m: nat, q: seq<nat>)
    requires Inv(v) && FreeZero(v) && HasSlot(v, n, p) && Hung(v, v', n, p, z) && ZoneAt(v, n, p) == 0
    requires IsPath(q) && Level(q) == 0
    ensures DataAt(v', m, q) == DataAt(v, m, q)
  {
    var y := ZoneAt(v', m, q);
    if |p| > 1 {
      ParentIsPath(p);
      assert Used(v, ZoneAt(v, n, Parent(p)));
    }
    if m == n && q == p {
      assert v.disk[z] == ZeroBlock();
    }
  }

  // ----- bmap with create ---------------------------------------------------

  /** v' has more zones than v, all hung on the way to position p of file n, and the
      same data in every file. */
  ghost predicate Grown(v: Vol, v': Vol, n: nat, p: seq<nat>) {
    && Inv(v') && FreeZero(v') && v'.first == v.first && |v'.disk| == |v.disk| && SameFiles(v, v')
    && (forall m, q :: ZoneAt(v, m, q) != 0 ==> ZoneAt(v', m, q) == ZoneAt(v, m, q))
    && (forall m, q :: m != n || !(q <= p) ==> ZoneAt(v', m, q) == ZoneAt(v, m, q))
    && (forall m, q :: IsPath(q) && Level(q) == 0 ==> DataAt(v', m, q) == DataAt(v, m, q))
  }

  lemma GrownAgain(v: Vol, v1: Vol, v2: Vol, n: nat, p: seq<nat>)
    requires Grown(v, v1, n, p) && Grown(v1, v2, n, p)
    ensures Grown(v, v2, n, p)
  {
  }

  lemma {:induction false} AllocGrows(v: Vol, n: nat, p: seq<nat>, k: nat)
    requires Inv(v) && FreeZero(v) && 1 <= k <= |p| && CanAlloc(v) && HasSlot(v, n, p[..k]) && ZoneAt(v, n, p[..k]) == 0
    ensures Grown(v, Alloc(v, n, p[..k]), n, p)
    ensures ZoneAt(Alloc(v, n, p[..k]), n, p[..k]) != 0
    ensures UsedSet(Alloc(v, n, p[..k])) == UsedSet(v) + {NextZone(v)}
    ensures NextZone(v) in FreeSet(v) && FreeSet(Alloc(v, n, p[..k])) == FreeSet(v) - {NextZone(v)}
  {
    var v', z := Alloc(v, n, p[..k]), NextZone(v);
    NextZoneIsUnused(v);
    ZeroIsClean();
    AllocHangs(v, n, p[..k]);
    HungKeepsInv(v, v', n, p[..k], z);
    HungKeepsFreeZero(v, v', n, p[..k], z);
    forall m, q | IsPath(q) && Level(q) == 0
      ensures DataAt(v', m, q) == DataAt(v, m, q)
    {
      HungKeepsData(v, v', n, p[..k], z, m, q);
    }
    assert p[..k] <= p;
    HungSets(v, v', n, p[..k], z);
  }

  lemma HungSets(v: Vol, v': Vol, n: nat, p: seq<nat>, z: nat)
    requires Sized(v) && Hung(v, v', n, p, z)
    ensures z in FreeSet(v)
    ensures UsedSet(v') == UsedSet(v) + {z} && FreeSet(v') == FreeSet(v) - {z}
  {
    assert forall y :: v.first <= y < |v.disk| ==> (Unused(v', y) <==> !Used(v', y)) && (Unused(v, y) <==> !Used(v, y));
  }

  /** What is at position p of a file, and above it, can be asked for slot by slot. */
  lemma SlotBelow(v: Vol, n: nat, p: seq<nat>, k: nat)
    requires Inv(v) && n in v.inodes && IsPath(p) && 1 <= k <= |p|
    requires k == 1 || ZoneAt(v, n, p[..k - 1]) != 0
    ensures HasSlot(v, n, p[..k])
  {
    if k > 1 {
      assert Parent(p[..k]) == p[..k - 1];
      assert Used(v, ZoneAt(v, n, p[..k - 1]));
    }
  }

  /** bmap with create allocates what is missing on the way to position p, in at most
      |p| + 1 - k zones, and nothing else about the files changes. */
  lemma {:induction false} GrowKeeps(v: Vol, n: nat, p: seq<nat>, k: nat)
    requires Inv(v) && FreeZero(v) && n in v.inodes && IsPath(p) && 1 <= k <= |p| + 1
    requires k == 1 || ZoneAt(v, n, p[..k - 1]) != 0
    requires Grow(v, n, p, k).Some?
    ensures Grown(v, Grow(v, n, p, k).value, n, p)
    ensures ZoneAt(Grow(v, n, p, k).value, n, p) != 0
    ensures |UsedSet(Grow(v, n, p, k).value)| <= |UsedSet(v)| + |p| + 1 - k
    decreases |p| + 1 - k
  {
    if k == |p| + 1 {
      assert p[..|p|] == p;
    } else if ZoneAt(v, n, p[..k]) != 0 {
      GrowKeeps(v, n, p, k + 1);
    } else {
      AllocGrows(v, n, p, k);
      var v1 := Alloc(v, n, p[..k]);
      GrowKeeps(v1, n, p, k + 1);
      GrownAgain(v, v1, Grow(v1, n, p, k + 1).value, n, p);
    }
  }

  /** balloc succeeds when there is an unused zone. */
  lemma FreeCanAlloc(v: Vol, z: nat)
    requires Sized(v) && z in FreeSet(v)
    ensures CanAlloc(v)
  {
    assert FirstClear(v.zmap) <= z - (v.first - 1);
  }

  /** Enough unused zones: bmap does not panic. */
  lemma {:induction false} GrowSucceeds(v: Vol, n: nat, p: seq<nat>, k: nat)
    requires Inv(v) && FreeZero(v) && n in v.inodes && IsPath(p) && 1 <= k <= |p| + 1
    requires k == 1 || ZoneAt(v, n, p[..k - 1]) != 0
    requires |FreeSet(v)| >= |p| + 1 - k
    ensures Grow(v, n, p, k).Some?
    ensures |FreeSet(Grow(v, n, p, k).value)| >= |FreeSet(v)| - (|p| + 1 - k)
    decreases |p| + 1 - k
  {
    if k <= |p| {
      if ZoneAt(v, n, p[..k]) != 0 {
        GrowSucceeds(v, n, p, k + 1);
      } else {
        var z :| z in FreeSet(v);
        FreeCanAlloc(v, z);
        SlotBelow(v, n, p, k);
        AllocGrows(v, n, p, k);
        GrowSucceeds(Alloc(v, n, p[..k]), n, p, k + 1);
      }
    }
  }

  /** Asking again, without create, returns the zone that create returned. */
  lemma {:induction false} GrowIsIdempotent(v: Vol, n: nat, p: seq<nat>, k: nat)
    requires IsPath(p) && k >= 1 && forall i :: k <= i <= |p| ==> ZoneAt(v, n, p[..i]) != 0
    ensures Grow(v, n, p, k) == Some(v)
    decreases |p| + 1 - k
  {
    if k > |p| {
    } else {
      GrowIsIdempotent(v, n, p, k + 1);
    }
  }

  // ----- Why free zones must be zero ----------------------------------------

  /** Hanging an index block is clean exactly when the block it gets reads as zero
      pointers: any other word becomes a zone of the file that was never allocated. */
  lemma IndexBlockIsCleanIffZero(v: Vol, n: nat, p: seq<nat>)
    requires Inv(v) && CanAlloc(v) && HasSlot(v, n, p) && ZoneAt(v, n, p) == 0 && Level(p) > 0
    ensures (forall i :: 0 <= i < BLOCK_INDEXES ==> ZoneAt(Alloc(v, n, p), n, p + [i]) == ZoneAt(v, n, p + [i])) <==>
            (forall i :: 0 <= i < BLOCK_INDEXES ==> Word(v.disk[NextZone(v)], i) == 0)
  {
    var z, v' := NextZone(v), Alloc(v, n, p);
    NextZoneIsUnused(v);
    if |p| > 1 {
      assert Used(v, ZoneAt(v, n, Parent(p)));
    }
    AllocIsThere(v, n, p);
    forall i | 0 <= i < BLOCK_INDEXES
      ensures ZoneAt(v', n, p + [i]) == Word(v.disk[z], i) && ZoneAt(v, n, p + [i]) == 0
    {
      assert Parent(p + [i]) == p && IsPath(p + [i]);
    }
  }

  /** The new pointer itself needs no zero block. */
  lemma AllocIsThere(v: Vol, n: nat, p: seq<nat>)
    requires Inv(v) && CanAlloc(v) && HasSlot(v, n, p)
    ensures ZoneAt(Alloc(v, n, p), n, p) == NextZone(v)
    ensures |p| > 1 ==> ZoneAt(Alloc(v, n, p), n, Parent(p)) == ZoneAt(v, n, Parent(p))
  {
    if |p| > 1 {
      ParentIsPath(p);
      WordOfSet(v.disk[ZoneAt(v, n, Parent(p))], Last(p), NextZone(v), Last(p));
      PathAboveStays(v, n, p, Parent(p));
    }
  }

  /** Storing at p changes an index block strictly above no position on the way to p. */
  lemma {:induction false} PathAboveStays(v: Vol, n: nat, p: seq<nat>, q: seq<nat>)
    requires Inv(v) && CanAlloc(v) && HasSlot(v, n, p) && q <= p && |q| < |p|
    ensures ZoneAt(Alloc(v, n, p), n, q) == ZoneAt(v, n, q)
    decreases |q|
  {
    if |q| <= 1 {
    } else {
      assert IsPath(q) && Parent(q) <= p;
      PathAboveStays(v, n, p, Parent(q));
      ParentIsPath(p);
    }
  }
}
