/** inode_truncate gives back exactly the zones of its file. */
module Truncation {
  import opened Wrappers
  import opened Volume
  import opened BlockMap

  /** The zones in the tree below a pointer to z, z included, read off the disk. */
  ghost function Under(disk: seq<Block>, z: nat, level: nat): set<nat>
    decreases level, BLOCK_INDEXES + 1
  {
    if z == 0 || z >= |disk| then {}
    else if level == 0 then {z}
    else {z} + UnderWords(disk, disk[z], level, BLOCK_INDEXES)
  }

  ghost function UnderWords(disk: seq<Block>, b: Block, level: nat, k: nat): set<nat>
    requires level >= 1 && k <= BLOCK_INDEXES
    decreases level, k
  {
    if k == 0 then {} else UnderWords(disk, b, level, k - 1) + Under(disk, Word(b, k - 1), level - 1)
  }

  /** What Under finds from a position on are the zones at that position and below it. */
  lemma {:induction false} UnderIsBelow(v: Vol, n: nat, p: seq<nat>, y: nat) returns (q: seq<nat>)
    requires Inv(v) && n in v.inodes && IsPath(p) && y in Under(v.disk, ZoneAt(v, n, p), Level(p))
    ensures p <= q && ZoneAt(v, n, q) == y != 0
    decreases Level(p), BLOCK_INDEXES + 1
  {
    var z := ZoneAt(v, n, p);
    if y == z {
      q := p;
    } else {
      var i;
      i, q := UnderWordsIsBelow(v, n, p, BLOCK_INDEXES, y);
    }
  }

  lemma {:induction false} UnderWordsIsBelow(v: Vol, n: nat, p: seq<nat>, k: nat, y: nat) returns (i: nat, q: seq<nat>)
    requires Inv(v) && n in v.inodes && IsPath(p) && Level(p) >= 1 && k <= BLOCK_INDEXES
    requires 0 < ZoneAt(v, n, p) < |v.disk|
    requires y in UnderWords(v.disk, v.disk[ZoneAt(v, n, p)], Level(p), k)
    ensures i < k && p + [i] <= q && ZoneAt(v, n, q) == y != 0
    decreases Level(p), k
  {
    if y in UnderWords(v.disk, v.disk[ZoneAt(v, n, p)], Level(p), k - 1) {
      i, q := UnderWordsIsBelow(v, n, p, k - 1, y);
    } else {
      i := k - 1;
      ChildIsWord(v, n, p, i);
      q := UnderIsBelow(v, n, p + [i], y);
    }
  }

  lemma ChildIsWord(v: Vol, n: nat, p: seq<nat>, i: nat)
    requires n in v.inodes && IsPath(p) && Level(p) >= 1 && i < BLOCK_INDEXES && 0 < ZoneAt(v, n, p) < |v.disk|
    ensures IsPath(p + [i]) && Level(p + [i]) == Level(p) - 1
    ensures ZoneAt(v, n, p + [i]) == Word(v.disk[ZoneAt(v, n, p)], i)
  {
    assert Parent(p + [i]) == p;
  }

  /** The subtrees of two entries of one index block share no zone, nor have they the
      zone of the block itself. */
  lemma {:induction false} UnderDisjoint(v: Vol, n: nat, p: seq<nat>, k: nat)
    requires Inv(v) && n in v.inodes && IsPath(p) && Level(p) >= 1 && k < BLOCK_INDEXES
    requires 0 < ZoneAt(v, n, p) < |v.disk|
    ensures UnderWords(v.disk, v.disk[ZoneAt(v, n, p)], Level(p), k) !!
            Under(v.disk, Word(v.disk[ZoneAt(v, n, p)], k), Level(p) - 1)
  {
    forall y | y in UnderWords(v.disk, v.disk[ZoneAt(v, n, p)], Level(p), k)
      ensures y !in Under(v.disk, Word(v.disk[ZoneAt(v, n, p)], k), Level(p) - 1)
    {
      var i, q := UnderWordsIsBelow(v, n, p, k, y);
      if y in Under(v.disk, Word(v.disk[ZoneAt(v, n, p)], k), Level(p) - 1) {
        ChildIsWord(v, n, p, k);
        var r := UnderIsBelow(v, n, p + [k], y);
        assert false;
      }
    }
  }

  lemma {:induction false} RootNotBelow(v: Vol, n: nat, p: seq<nat>)
    requires Inv(v) && n in v.inodes && IsPath(p) && Level(p) >= 1 && 0 < ZoneAt(v, n, p) < |v.disk|
    ensures ZoneAt(v, n, p) !in UnderWords(v.disk, v.disk[ZoneAt(v, n, p)], Level(p), BLOCK_INDEXES)
  {
    if ZoneAt(v, n, p) in UnderWords(v.disk, v.disk[ZoneAt(v, n, p)], Level(p), BLOCK_INDEXES) {
      var i, q := UnderWordsIsBelow(v, n, p, BLOCK_INDEXES, ZoneAt(v, n, p));
      assert false;
    }
  }

  // ----- The bits that are cleared ------------------------------------------

  /** v with the bits of the zones in s cleared. */
  ghost function Cleared(v: Vol, s: set<nat>): Vol
    requires v.first >= 1
  {
    v.(zmap := seq(|v.zmap|, k requires 0 <= k < |v.zmap| => v.zmap[k] && k + v.first - 1 !in s))
  }

  ghost predicate AllLow(s: set<nat>) {
    forall z :: z in s ==> z <= BLOCK_BITS
  }

  lemma ClearedNone(v: Vol)
    requires v.first >= 1
    ensures Cleared(v, {}) == v
  {
    assert Cleared(v, {}).zmap == v.zmap;
  }

  /** bfree of a used zone that was not freed before. */
  lemma BfreeClears(v: Vol, s: set<nat>, z: nat)
    requires Sized(v) && Used(v, z) && z !in s
    ensures Bfree(Cleared(v, s), z) == if z <= BLOCK_BITS then Some(Cleared(v, s + {z})) else None
  {
    var w := Cleared(v, s);
    if z <= BLOCK_BITS {
      assert Mark(w, z, false).zmap == Cleared(v, s + {z}).zmap;
    }
  }

  lemma ClearedAgain(v: Vol, s: set<nat>, a: set<nat>, b: set<nat>)
    ensures s + a + b == s + (a + b)
    ensures AllLow(a + b) <==> AllLow(a) && AllLow(b)
  {
    assert forall z :: z in a ==> z in a + b;
    assert forall z :: z in b ==> z in a + b;
  }

  /** What freeing a tree comes to: all of it, unless a zone lies past the bitmap block. */
  ghost function Outcome(v: Vol, s: set<nat>, u: set<nat>): Option<Vol>
    requires v.first >= 1
  {
    if AllLow(u) then Some(Cleared(v, s + u)) else None
  }

  lemma OutcomeJoins(v: Vol, s: set<nat>, a: set<nat>, u: set<nat>)
    requires v.first >= 1
    ensures Outcome(v, s, a + u) == if AllLow(a) then Outcome(v, s + a, u) else None
  {
    ClearedAgain(v, s, a, u);
  }

  /** An index block is freed after the trees of its entries. */
  lemma {:induction false} IndexOutcome(v: Vol, z: nat, level: nat, s: set<nat>, u: set<nat>)
    requires Sized(v) && Used(v, z) && z != 0 && level >= 1 && z !in s + u
    requires u == UnderWords(v.disk, v.disk[z], level, BLOCK_INDEXES)
    requires FreeWords(Cleared(v, s), v.disk[z], level, BLOCK_INDEXES) == Outcome(v, s, u)
    ensures FreeTree(Cleared(v, s), z, level) == Outcome(v, s, {z} + u)
  {
    OutcomeJoins(v, s, u, {z});
    BfreeClears(v, s + u, z);
    assert {z} + u == u + {z};
  }

  lemma {:induction false} FreeTreeClears(v: Vol, n: nat, p: seq<nat>, s: set<nat>)
    requires Inv(v) && n in v.inodes && IsPath(p)
    requires s !! Under(v.disk, ZoneAt(v, n, p), Level(p))
    ensures FreeTree(Cleared(v, s), ZoneAt(v, n, p), Level(p)) ==
        Outcome(v, s, Under(v.disk, ZoneAt(v, n, p), Level(p)))
    decreases Level(p), BLOCK_INDEXES + 1
  {
    var z := ZoneAt(v, n, p);
    if z == 0 {
      assert s + {} == s;
    } else {
      assert Used(v, z);
      if Level(p) == 0 {
        BfreeClears(v, s, z);
      } else {
        RootNotBelow(v, n, p);
        FreeWordsClears(v, n, p, BLOCK_INDEXES, s);
        IndexOutcome(v, z, Level(p), s, UnderWords(v.disk, v.disk[z], Level(p), BLOCK_INDEXES));
      }
    }
  }

  lemma {:induction false} FreeWordsClears(v: Vol, n: nat, p: seq<nat>, k: nat, s: set<nat>)
    requires Inv(v) && n in v.inodes && IsPath(p) && Level(p) >= 1 && k <= BLOCK_INDEXES
    requires 0 < ZoneAt(v, n, p) < |v.disk|
    requires s !! UnderWords(v.disk, v.disk[ZoneAt(v, n, p)], Level(p), k)
    ensures FreeWords(Cleared(v, s), v.disk[ZoneAt(v, n, p)], Level(p), k) ==
            Outcome(v, s, UnderWords(v.disk, v.disk[ZoneAt(v, n, p)], Level(p), k))
    decreases Level(p), k
  {
    if k == 0 {
      assert s + {} == s;
    } else {
      var b := v.disk[ZoneAt(v, n, p)];
      var a, u := UnderWords(v.disk, b, Level(p), k - 1), Under(v.disk, Word(b, k - 1), Level(p) - 1);
      ChildIsWord(v, n, p, k - 1);
      FreeWordsClears(v, n, p, k - 1, s);
      UnderDisjoint(v, n, p, k - 1);
      FreeTreeClears(v, n, p + [k - 1], s + a);
      OutcomeJoins(v, s, a, u);
    }
  }

  // ----- The nine slots -----------------------------------------------------

  /** The zones under the first k slots of a file; under all nine, the zones of the file. */
  ghost function Tree(v: Vol, n: nat, k: nat): set<nat>
    requires n in v.inodes && k <= |v.inodes[n].zone|
  {
    if k == 0 then {} else Tree(v, n, k - 1) + Under(v.disk, v.inodes[n].zone[k - 1], SlotLevel(k - 1))
  }

  lemma {:induction false} TreeIsBelow(v: Vol, n: nat, k: nat, y: nat) returns (q: seq<nat>)
    requires Inv(v) && n in v.inodes && k <= ZONE_SLOTS && y in Tree(v, n, k)
    ensures |q| >= 1 && q[0] < k && ZoneAt(v, n, q) == y != 0
  {
    if y in Tree(v, n, k - 1) {
      q := TreeIsBelow(v, n, k - 1, y);
    } else {
      q := UnderIsBelow(v, n, [k - 1], y);
    }
  }

  lemma {:induction false} BelowIsUnder(v: Vol, n: nat, p: seq<nat>, q: seq<nat>)
    requires Inv(v) && n in v.inodes && IsPath(p) && IsPath(q) && p <= q && ZoneAt(v, n, q) != 0
    ensures ZoneAt(v, n, q) in Under(v.disk, ZoneAt(v, n, p), Level(p))
    decreases Level(p)
  {
    if ZoneAt(v, n, p) == 0 {
      assert q[..|p|] == p;
      EmptyBelow(v, n, q, |p|);
    }
    assert Used(v, ZoneAt(v, n, p));
    if p == q {
    } else {
      var i := q[|p|];
      assert p + [i] <= q;
      ChildIsWord(v, n, p, i);
      BelowIsUnder(v, n, p + [i], q);
      WordIsUnder(v.disk, v.disk[ZoneAt(v, n, p)], Level(p), i, BLOCK_INDEXES, ZoneAt(v, n, q));
    }
  }

  lemma {:induction false} WordIsUnder(disk: seq<Block>, b: Block, level: nat, i: nat, k: nat, y: nat)
    requires level >= 1 && i < k <= BLOCK_INDEXES && y in Under(disk, Word(b, i), level - 1)
    ensures y in UnderWords(disk, b, level, k)
  {
    if i >= k - 1 {
    } else {
      WordIsUnder(disk, b, level, i, k - 1, y);
    }
  }

  lemma {:induction false} SlotIsUnder(v: Vol, n: nat, q: seq<nat>, k: nat)
    requires Inv(v) && n in v.inodes && IsPath(q) && q[0] < k <= ZONE_SLOTS && ZoneAt(v, n, q) != 0
    ensures ZoneAt(v, n, q) in Tree(v, n, k)
  {
    if q[0] < k - 1 {
      SlotIsUnder(v, n, q, k - 1);
    } else {
      BelowIsUnder(v, n, [k - 1], q);
    }
  }

  /** The zones of a file. */
  ghost function FileZones(v: Vol, n: nat): set<nat> {
    if n in v.inodes then Tree(v, n, |v.inodes[n].zone|) else {}
  }

  ghost predicate Reaches(v: Vol, n: nat, z: nat) {
    z != 0 && exists q :: ZoneAt(v, n, q) == z
  }

  /** They are the zones that the file reaches. */
  lemma {:induction false} FileZonesAreReached(v: Vol, n: nat)
    requires Inv(v) && n in v.inodes
    ensures forall q :: ZoneAt(v, n, q) != 0 ==> ZoneAt(v, n, q) in FileZones(v, n)
    ensures forall z :: z in FileZones(v, n) ==> Reaches(v, n, z)
  {
    var k := |v.inodes[n].zone|;
    forall q | ZoneAt(v, n, q) != 0
      ensures ZoneAt(v, n, q) in FileZones(v, n)
    {
      SlotIsUnder(v, n, q, k);
    }
    forall z | z in FileZones(v, n)
      ensures Reaches(v, n, z)
    {
      var q := TreeIsBelow(v, n, k, z);
    }
  }

  lemma {:induction false} SlotsDisjoint(v: Vol, n: nat, k: nat)
    requires Inv(v) && n in v.inodes && k < ZONE_SLOTS
    ensures Tree(v, n, k) !! Under(v.disk, ZoneAt(v, n, [k]), Level([k]))
  {
    forall y | y in Tree(v, n, k)
      ensures y !in Under(v.disk, ZoneAt(v, n, [k]), Level([k]))
    {
      var q := TreeIsBelow(v, n, k, y);
      if y in Under(v.disk, ZoneAt(v, n, [k]), Level([k])) {
        var r := UnderIsBelow(v, n, [k], y);
        assert false;
      }
    }
  }

  /** The file with its first k slots zero and their trees free. */
  ghost function Emptied(v: Vol, n: nat, k: nat): Vol
    requires v.first >= 1 && n in v.inodes && k <= |v.inodes[n].zone|
  {
    var i := v.inodes[n];
    var zone := seq<u16>(|i.zone|, j requires 0 <= j < |i.zone| => if j < k then 0 else i.zone[j]);
    Cleared(v, Tree(v, n, k)).(inodes := v.inodes[n := i.(zone := zone)])
  }

  lemma EmptiedNone(v: Vol, n: nat)
    requires v.first >= 1 && n in v.inodes
    ensures Emptied(v, n, 0) == v
  {
    ClearedNone(v);
    assert Emptied(v, n, 0).inodes[n].zone == v.inodes[n].zone;
    assert Emptied(v, n, 0).inodes == v.inodes;
  }

  /** The free of a tree looks at the bitmap and the disk, not at the inodes. */
  lemma {:induction false} FreeTreeFrame(v: Vol, z: nat, level: nat, w: Vol)
    requires w == v.(inodes := w.inodes)
    ensures FreeTree(w, z, level) ==
        (if FreeTree(v, z, level) == None then None else Some(FreeTree(v, z, level).value.(inodes := w.inodes)))
    ensures FreeTree(v, z, level).Some? ==> FreeTree(v, z, level).value.disk == v.disk
    decreases level, BLOCK_INDEXES + 1
  {
    if z != 0 && level > 0 && z < |v.disk| {
      FreeWordsFrame(v, v.disk[z], level, BLOCK_INDEXES, w);
    }
  }

  lemma {:induction false} FreeWordsFrame(v: Vol, b: Block, level: nat, k: nat, w: Vol)
    requires w == v.(inodes := w.inodes) && level >= 1 && k <= BLOCK_INDEXES
    ensures FreeWords(w, b, level, k) ==
        (if FreeWords(v, b, level, k) == None then None else Some(FreeWords(v, b, level, k).value.(inodes := w.inodes)))
    ensures FreeWords(v, b, level, k).Some? ==> FreeWords(v, b, level, k).value.disk == v.disk
    decreases level, k
  {
    if k == 0 {
    } else {
      FreeWordsFrame(v, b, level, k - 1, w);
      if FreeWords(v, b, level, k - 1).Some? {
        FreeTreeFrame(FreeWords(v, b, level, k - 1).value, Word(b, k - 1), level - 1,
            FreeWords(w, b, level, k - 1).value);
      }
    }
  }

  lemma EmptiedNext(v: Vol, n: nat, k: nat)
    requires Inv(v) && n in v.inodes && k < ZONE_SLOTS
    ensures var e := Emptied(v, n, k);
            var i := e.inodes[n];
            && i.zone[k] == v.inodes[n].zone[k]
            && Emptied(v, n, k + 1) ==
                Cleared(v, Tree(v, n, k + 1)).(inodes := e.inodes[n := i.(zone := i.zone[k := 0])])
  {
    var e := Emptied(v, n, k);
    var i := e.inodes[n];
    assert i.zone[k := 0] == Emptied(v, n, k + 1).inodes[n].zone;
    assert e.inodes[n := i.(zone := i.zone[k := 0])] == Emptied(v, n, k + 1).inodes;
  }

  lemma {:induction false} FreeSlotsClears(v: Vol, n: nat, k: nat)
    requires Inv(v) && n in v.inodes && k <= ZONE_SLOTS
    ensures FreeSlots(v, n, k) == if AllLow(Tree(v, n, k)) then Some(Emptied(v, n, k)) else None
  {
    if k == 0 {
      EmptiedNone(v, n);
    } else {
      FreeSlotsClears(v, n, k - 1);
      var s, u := Tree(v, n, k - 1), Under(v.disk, v.inodes[n].zone[k - 1], SlotLevel(k - 1));
      ClearedAgain(v, s, s, u);
      if AllLow(s) {
        EmptiedNext(v, n, k - 1);
        SlotsDisjoint(v, n, k - 1);
        FreeTreeClears(v, n, [k - 1], s);
        FreeTreeFrame(Cleared(v, s), ZoneAt(v, n, [k - 1]), SlotLevel(k - 1), Emptied(v, n, k - 1));
      }
    }
  }

  // ----- inode_truncate -----------------------------------------------------

  function NoZones(): seq<u16> {
    [0, 0, 0, 0, 0, 0, 0, 0, 0]
  }

  /** The volume without the zones of file n, which is empty. */
  ghost function Truncated(v: Vol, n: nat): Vol
    requires v.first >= 1 && n in v.inodes
  {
    Cleared(v, FileZones(v, n)).(inodes := v.inodes[n := Inode(NoZones(), 0)])
  }

  lemma EmptiedAll(v: Vol, n: nat)
    requires Inv(v) && n in v.inodes
    ensures var e := Emptied(v, n, |v.inodes[n].zone|);
            e.(inodes := e.inodes[n := e.inodes[n].(size := 0)]) == Truncated(v, n)
  {
    var e := Emptied(v, n, |v.inodes[n].zone|);
    assert e.inodes[n].zone == NoZones();
    assert e.inodes[n := e.inodes[n].(size := 0)] == v.inodes[n := Inode(NoZones(), 0)];
  }

  /** inode_truncate frees every zone of the file once, and no other; no assertion of
      bfree fails unless the file has a zone past the one bitmap block that bfree finds. */
  lemma {:induction false} TruncateClears(v: Vol, n: nat)
    requires Inv(v) && n in v.inodes
    ensures Truncate(v, n) == if AllLow(FileZones(v, n)) then Some(Truncated(v, n)) else None
  {
    var k: nat := |v.inodes[n].zone|;
    FreeSlotsClears(v, n, k);
    EmptiedAll(v, n);
  }

  lemma {:induction false} EmptyFileAt(v: Vol, v': Vol, n: nat, m: nat, q: seq<nat>)
    requires n in v.inodes && v'.disk == v.disk && v'.inodes == v.inodes[n := Inode(NoZones(), 0)]
    ensures ZoneAt(v', m, q) == if m == n then 0 else ZoneAt(v, m, q)
    decreases |q|
  {
    if |q| > 1 {
      EmptyFileAt(v, v', n, m, Parent(q));
    } else if m == n && IsPath(q) {
      assert NoZones()[q[0]] == 0;
    }
  }

  /** The bits of other zones stay, and the other files are as they were. */
  lemma {:induction false} TruncatedState(v: Vol, n: nat)
    requires Inv(v) && n in v.inodes
    ensures forall m, q :: ZoneAt(Truncated(v, n), m, q) == if m == n then 0 else ZoneAt(v, m, q)
    ensures forall z :: Used(Truncated(v, n), z) <==> Used(v, z) && z !in FileZones(v, n)
  {
    forall m, q
      ensures ZoneAt(Truncated(v, n), m, q) == if m == n then 0 else ZoneAt(v, m, q)
    {
      EmptyFileAt(v, Truncated(v, n), n, m, q);
    }
  }

  /** Truncation keeps the volume sound. */
  lemma {:induction false} TruncateKeepsInv(v: Vol, n: nat)
    requires Inv(v) && n in v.inodes
    ensures Inv(Truncated(v, n))
  {
    var v' := Truncated(v, n);
    TruncatedState(v, n);
    FileZonesAreReached(v, n);
    assert v.zmap[0] && 0 !in FileZones(v, n);
    forall m, q | ZoneAt(v', m, q) != 0
      ensures Used(v', ZoneAt(v', m, q))
    {
      assert Used(v, ZoneAt(v, m, q));
    }
  }

  /** Free zones stay zero exactly when the file held nothing but zeros, index blocks
      included: inode_truncate clears bits, never blocks. */
  lemma {:induction false} TruncateFreeZeroIff(v: Vol, n: nat)
    requires Inv(v) && n in v.inodes && FreeZero(v)
    ensures FreeZero(Truncated(v, n)) <==> forall z :: z in FileZones(v, n) ==> z < |v.disk| && v.disk[z] == ZeroBlock()
  {
    var v' := Truncated(v, n);
    FileZonesAreUsed(v, n);
    forall z: nat
      ensures Unused(v', z) <==> Unused(v, z) || z in FileZones(v, n)
    {
    }
    if FreeZero(v') {
      forall z | z in FileZones(v, n)
        ensures z < |v.disk| && v.disk[z] == ZeroBlock()
      {
        assert Unused(v', z);
      }
    }
  }

  lemma {:induction false} FileZonesAreUsed(v: Vol, n: nat)
    requires Inv(v) && n in v.inodes
    ensures forall z :: z in FileZones(v, n) ==> Used(v, z)
  {
    FileZonesAreReached(v, n);
    forall z | z in FileZones(v, n)
      ensures Used(v, z)
    {
      var q :| ZoneAt(v, n, q) == z;
    }
  }

  // ----- A zone past the bitmap block that bfree finds ----------------------

  /** A full-sized volume whose data zones begin at 3, with one file of one block: its last zone. */
  function High(): Vol {
    Vol(3, seq(BLOCK_BITS, k => k == 0 || k == BLOCK_BITS - 1), seq<Block>(BLOCK_BITS + 2, _ => ZeroBlock()),
        map[1 := Inode([BLOCK_BITS + 1, 0, 0, 0, 0, 0, 0, 0, 0], 1024)])
  }

  lemma {:induction false} HighAt(n: nat, q: seq<nat>)
    ensures ZoneAt(High(), n, q) == if n == 1 && q == [0] then BLOCK_BITS + 1 else 0
    decreases |q|
  {
    if |q| > 1 && IsPath(q) {
      HighAt(n, Parent(q));
      assert q[0] >= DIRECT_BLOCK && Parent(q)[0] == q[0];
    } else if |q| == 1 {
      assert q == [q[0]];
    }
  }

  /** The volume is sound, balloc could have given the zone, and inode_truncate panics. */
  lemma {:induction false} HighZonePanics()
    ensures Inv(High()) && Used(High(), BLOCK_BITS + 1) && Truncate(High(), 1) == None
  {
    var v := High();
    forall n, q
      ensures ZoneAt(v, n, q) == if n == 1 && q == [0] then BLOCK_BITS + 1 else 0
    {
      HighAt(n, q);
    }
    assert Used(v, BLOCK_BITS + 1) && ZonesUsed(v) && ZonesOnce(v);
    FileZonesAreReached(v, 1);
    assert ZoneAt(v, 1, [0]) in FileZones(v, 1);
    TruncateClears(v, 1);
  }

  // ----- A truncated block comes back as an index block ---------------------

  function StaleBlock(z: int): Block {
    if z == 1 then SetWord(ZeroBlock(), 0, 9) else ZeroBlock()
  }

  /** A volume of twelve blocks with one file, whose one block, zone 1, starts with the bytes 9, 0. */
  function Stale(): Vol {
    Vol(1, seq(BLOCK_BITS, k => k <= 1), seq<Block>(12, z => StaleBlock(z)),
        map[1 := Inode([1, 0, 0, 0, 0, 0, 0, 0, 0], 1024)])
  }

  lemma {:induction false} StaleAt(n: nat, q: seq<nat>)
    ensures ZoneAt(Stale(), n, q) == if n == 1 && q == [0] then 1 else 0
    decreases |q|
  {
    if |q| > 1 && IsPath(q) {
      StaleAt(n, Parent(q));
      assert q[0] >= DIRECT_BLOCK && Parent(q)[0] == q[0];
    } else if |q| == 1 {
      assert q == [q[0]];
    }
  }

  lemma StaleIsSound()
    ensures Inv(Stale()) && FreeZero(Stale()) && FileZones(Stale(), 1) == {1}
  {
    var v := Stale();
    forall n, q
      ensures ZoneAt(v, n, q) == if n == 1 && q == [0] then 1 else 0
    {
      StaleAt(n, q);
    }
    assert Used(v, 1) && ZonesUsed(v) && ZonesOnce(v);
    FileZonesAreReached(v, 1);
    assert ZoneAt(v, 1, [0]) in FileZones(v, 1);
  }

  /** After inode_truncate, bmap takes the freed block as an index block, and returns
      zone 9 for block 7 of the file: it was never allocated. */
  lemma {:induction false} TruncatedBlockComesBack()
    ensures Truncate(Stale(), 1) == Some(Truncated(Stale(), 1))
    ensures !FreeZero(Truncated(Stale(), 1))
    ensures var g := Grow(Truncated(Stale(), 1), 1, BlockPath(7), 1);
            g.Some? && ZoneAt(g.value, 1, BlockPath(7)) == 9 && !Used(g.value, 9) && !Inv(g.value)
  {
    var v, t := Stale(), Truncated(Stale(), 1);
    StaleIsSound();
    TruncateClears(v, 1);
    TruncateKeepsInv(v, 1);
    TruncatedState(v, 1);
    assert Unused(t, 1) && t.disk[1] == v.disk[1];
    WordOfSet(ZeroBlock(), 0, 9, 0);
    ZeroWords(0);
    assert t.disk[1] != ZeroBlock();
    StaleGrows(t);
  }

  lemma {:induction false} StaleGrows(t: Vol)
    requires Inv(t) && t.first == 1 && t.zmap[0] && !t.zmap[1] && !t.zmap[9] && |t.disk| == 12
    requires Word(t.disk[1], 0) == 9 && 1 in t.inodes && forall q :: ZoneAt(t, 1, q) == 0
    ensures var g := Grow(t, 1, [DIRECT_BLOCK, 0], 1);
            g.Some? && ZoneAt(g.value, 1, [DIRECT_BLOCK, 0]) == 9 && !Used(g.value, 9) && !Inv(g.value)
  {
    var p: seq<nat>, q: seq<nat> := [DIRECT_BLOCK], [DIRECT_BLOCK, 0];
    assert q[..1] == p && q[..2] == q && Parent(q) == p;
    assert FirstClear(t.zmap) == 1 && NextZone(t) == 1;
    var a := Alloc(t, 1, p);
    AllocIsThere(t, 1, p);
    assert a.disk == t.disk;
    assert ZoneAt(a, 1, q) == 9;
    assert Grow(a, 1, q, 2) == Grow(a, 1, q, 3) == Some(a);
    assert Grow(t, 1, q, 1) == Some(a);
  }
}
