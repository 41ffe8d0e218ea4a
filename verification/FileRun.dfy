/** Runs that mix inode_write with inode_truncate, after which free zones need not be zero. */
module FileRun {
  import opened Wrappers
  import opened Volume
  import opened BlockMap
  import opened FileData
  import opened Truncation

  /** Every block that bmap hangs as an index block on the way to position p reads as zero
      words when it is taken. */
  predicate CleanGrow(v: Vol, n: nat, p: seq<nat>, k: nat)
    requires IsPath(p) && k >= 1
    decreases |p| + 1 - k
  {
    if k > |p| then true
    else if ZoneAt(v, n, p[..k]) != 0 then CleanGrow(v, n, p, k + 1)
    else if CanAlloc(v) && HasSlot(v, n, p[..k]) then Fits(v, p[..k]) && CleanGrow(Alloc(v, n, p[..k]), n, p, k + 1)
    else true
  }

  lemma {:induction false} GrowIsSound(v: Vol, n: nat, p: seq<nat>, k: nat)
    requires Inv(v) && n in v.inodes && IsPath(p) && 1 <= k <= |p| + 1 && CleanGrow(v, n, p, k)
    requires k == 1 || ZoneAt(v, n, p[..k - 1]) != 0
    requires Grow(v, n, p, k).Some?
    ensures var g := Grow(v, n, p, k).value; Inv(g) && g.inodes.Keys == v.inodes.Keys && ZoneAt(g, n, p) != 0
    decreases |p| + 1 - k
  {
    if k == |p| + 1 {
      assert p[..|p|] == p;
    } else if ZoneAt(v, n, p[..k]) != 0 {
      GrowIsSound(v, n, p, k + 1);
    } else {
      AllocHangs(v, n, p[..k]);
      HungKeepsInv(v, Alloc(v, n, p[..k]), n, p[..k], NextZone(v));
      GrowIsSound(Alloc(v, n, p[..k]), n, p, k + 1);
    }
  }

  predicate CleanRound(v: Vol, n: nat, off: nat) {
    off / BLOCK_SIZE < TOTAL_BLOCK ==> CleanGrow(v, n, BlockPath(off / BLOCK_SIZE), 1)
  }

  lemma {:induction false} RoundIsSound(v: Vol, n: nat, off: nat, data: seq<u8>)
    requires Inv(v) && CleanRound(v, n, off) && Round(v, n, off, data).Some?
    ensures var w := Round(v, n, off, data).value; Inv(w) && w.inodes.Keys == v.inodes.Keys
  {
    var p := BlockPath(off / BLOCK_SIZE);
    GrowIsSound(v, n, p, 1);
    var g := Grow(v, n, p, 1).value;
    PutKeepsZones(g, n, p, off % BLOCK_SIZE, data, off + |data|);
    SameZonesKeepInv(g, Round(v, n, off, data).value);
  }

  predicate CleanWrite(v: Vol, n: nat, off: nat, data: seq<u8>)
    decreases |data|
  {
    data == [] ||
    (CleanRound(v, n, off) &&
     match Round(v, n, off, Now(off, data))
     case None => true
     case Some(w) => CleanWrite(w, n, Next(off, data), Rest(off, data)))
  }

  lemma {:induction false} WriteIsSound(v: Vol, n: nat, off: nat, data: seq<u8>)
    requires Inv(v) && CleanWrite(v, n, off, data) && WriteAll(v, n, off, data).Some?
    ensures var w := WriteAll(v, n, off, data).value; Inv(w) && w.inodes.Keys == v.inodes.Keys
    decreases |data|
  {
    if data == [] {
    } else {
      RoundIsSound(v, n, off, Now(off, data));
      WriteIsSound(Round(v, n, off, Now(off, data)).value, n, Next(off, data), Rest(off, data));
    }
  }

  // ----- Runs ---------------------------------------------------------------

  datatype Op = Writes(n: nat, off: nat, data: seq<u8>) | Truncates(n: nat)

  function Do(v: Vol, op: Op): Option<Vol> {
    match op
    case Writes(n, off, data) => if n in v.inodes then WriteAll(v, n, off, data) else None
    case Truncates(n) => if n in v.inodes then Truncate(v, n) else None
  }

  predicate CleanOp(v: Vol, op: Op) {
    op.Writes? ==> CleanWrite(v, op.n, op.off, op.data)
  }

  function DoAll(v: Vol, ops: seq<Op>): Option<Vol>
    decreases |ops|
  {
    if ops == [] then Some(v)
    else if Do(v, ops[0]) == None then None
    else DoAll(Do(v, ops[0]).value, ops[1..])
  }

  predicate CleanRun(v: Vol, ops: seq<Op>)
    decreases |ops|
  {
    ops == [] ||
    (CleanOp(v, ops[0]) &&
     match Do(v, ops[0])
     case None => true
     case Some(w) => CleanRun(w, ops[1..]))
  }

  lemma {:induction false} OpIsSound(v: Vol, op: Op)
    requires Inv(v) && CleanOp(v, op) && Do(v, op).Some?
    ensures Inv(Do(v, op).value)
  {
    match op
    case Writes(n, off, data) =>
      WriteIsSound(v, n, off, data);
    case Truncates(n) =>
      TruncateClears(v, n);
      TruncateKeepsInv(v, n);
  }

  /** Over every run of writes and truncates the volume stays sound, as long as each block
      that becomes an index block reads as zero words when it is taken. */
  lemma {:induction false} MixedRunKeepsInv(v: Vol, ops: seq<Op>)
    requires Inv(v) && CleanRun(v, ops) && DoAll(v, ops).Some?
    ensures Inv(DoAll(v, ops).value)
    decreases |ops|
  {
    if ops == [] {
    } else {
      OpIsSound(v, ops[0]);
      MixedRunKeepsInv(Do(v, ops[0]).value, ops[1..]);
    }
  }

  // ----- What makes a run clean ---------------------------------------------

  /** While free zones are zero, every write is clean. */
  lemma {:induction false} ZeroGrowIsClean(v: Vol, n: nat, p: seq<nat>, k: nat)
    requires Inv(v) && FreeZero(v) && n in v.inodes && IsPath(p) && 1 <= k <= |p| + 1
    requires k == 1 || ZoneAt(v, n, p[..k - 1]) != 0
    ensures CleanGrow(v, n, p, k)
    decreases |p| + 1 - k
  {
    if k > |p| {
    } else {
      SlotBelow(v, n, p, k);
      if ZoneAt(v, n, p[..k]) != 0 {
        ZeroGrowIsClean(v, n, p, k + 1);
      } else if CanAlloc(v) {
        NextZoneIsUnused(v);
        ZeroIsClean();
        AllocGrows(v, n, p, k);
        ZeroGrowIsClean(Alloc(v, n, p[..k]), n, p, k + 1);
      }
    }
  }
}
