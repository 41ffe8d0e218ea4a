/** Where the bytes of a file lie on the disk: the tree of zones is in file order, and its entries
    are found by numbers (src/fs/bmap.c, src/fs/inode.c). */
module Layout {
  import opened Volume

  // ----- The tree is in file order ------------------------------------------

  /** The first place where p and q differ, and p goes to the smaller entry there. */
  predicate SmallerAt(p: seq<nat>, q: seq<nat>, k: nat) {
    k < |p| && k < |q| && p[k] < q[k] && forall i :: 0 <= i < k ==> p[i] == q[i]
  }

  /** p comes before q in the order of the entries, slots first. */
  ghost predicate Before(p: seq<nat>, q: seq<nat>) {
    exists k: nat :: SmallerAt(p, q, k)
  }

  lemma Splits(a: nat, b: nat)
    requires a < b
    ensures a / BLOCK_INDEXES < b / BLOCK_INDEXES ||
            (a / BLOCK_INDEXES == b / BLOCK_INDEXES && a % BLOCK_INDEXES < b % BLOCK_INDEXES)
  {
  }

  lemma LaterIsBehind(b: nat, c: nat)
    requires b < c < TOTAL_BLOCK
    ensures Before(BlockPath(b), BlockPath(c))
  {
    var p, q := BlockPath(b), BlockPath(c);
    if p[0] < q[0] {
      assert SmallerAt(p, q, 0);
    } else if b < INDIRECT2 {
      assert SmallerAt(p, q, 1);
    } else {
      Splits(b - INDIRECT2, c - INDIRECT2);
      assert SmallerAt(p, q, if p[1] < q[1] then 1 else 2);
    }
  }

  lemma NotBothBefore(p: seq<nat>, q: seq<nat>)
    ensures !(Before(p, q) && Before(q, p)) && !Before(p, p)
  {
  }

  /** Blocks come in the order of their places in the tree. With BlockOfPath, by which every data
      place has its block, no other numbering of the places does. */
  lemma FileOrderIff(b: nat, c: nat)
    requires b < TOTAL_BLOCK && c < TOTAL_BLOCK
    ensures b < c <==> Before(BlockPath(b), BlockPath(c))
  {
    NotBothBefore(BlockPath(b), BlockPath(c));
    if b < c {
      LaterIsBehind(b, c);
    } else if c < b {
      LaterIsBehind(c, b);
    }
  }

  // ----- The zone of a block, by numbers ------------------------------------

  /** The bytes of an entry of an index block: the low one first. */
  lemma WordBytes(b: Block, i: nat, w: u16)
    requires i < BLOCK_INDEXES
    ensures Word(b, i) % 256 == b[2 * i] && Word(b, i) / 256 == b[2 * i + 1]
    ensures SetWord(b, i, w)[2 * i] == w % 256 && SetWord(b, i, w)[2 * i + 1] == w / 256
    ensures forall j :: 0 <= j < BLOCK_SIZE && j / 2 != i ==> SetWord(b, i, w)[j] == b[j]
  {
  }

  /** The first seven blocks are named by the inode. */
  lemma DirectZone(v: Vol, n: nat, block: nat)
    requires Sized(v) && n in v.inodes && block < 7
    ensures ZoneAt(v, n, BlockPath(block)) == v.inodes[n].zone[block]
  {
  }

  /** The next 512 by the block in slot 7: two bytes each, the low one first. */
  lemma {:induction false} IndirectZone(v: Vol, n: nat, block: nat)
    requires Inv(v) && n in v.inodes && 7 <= block < 519
    ensures var z := v.inodes[n].zone[7];
            && z < |v.disk|
            && (ZoneAt(v, n, BlockPath(block)) ==
                if z == 0 then 0 else v.disk[z][2 * (block - 7)] as int + 256 * v.disk[z][2 * (block - 7) + 1] as int)
  {
    SlotZone(v, n, 7);
    assert Parent(BlockPath(block)) == [7];
  }

  /** The others by the blocks that the block in slot 8 names, 512 each. */
  lemma {:induction false} DoubleZone(v: Vol, n: nat, block: nat)
    requires Inv(v) && n in v.inodes && 519 <= block < TOTAL_BLOCK
    ensures var i, j, z := (block - 519) / 512, (block - 519) % 512, v.inodes[n].zone[8];
            && z < |v.disk|
            && var y := if z == 0 then 0 else v.disk[z][2 * i] as int + 256 * v.disk[z][2 * i + 1] as int;
               && y < |v.disk|
               && ZoneAt(v, n, BlockPath(block)) ==
                  if y == 0 then 0 else v.disk[y][2 * j] as int + 256 * v.disk[y][2 * j + 1] as int
  {
    var i := (block - 519) / 512;
    SlotZone(v, n, 8);
    assert Parent(BlockPath(block)) == [8, i] && Parent([8, i]) == [8];
    assert ZoneAt(v, n, [8, i]) != 0 ==> Used(v, ZoneAt(v, n, [8, i]));
  }

  lemma {:induction false} SlotZone(v: Vol, n: nat, slot: nat)
    requires Inv(v) && n in v.inodes && slot < ZONE_SLOTS
    ensures ZoneAt(v, n, [slot]) == v.inodes[n].zone[slot] < |v.disk|
  {
    assert ZoneAt(v, n, [slot]) != 0 ==> Used(v, ZoneAt(v, n, [slot]));
  }

  /** A byte of a file lies in the zone of its block, as far from its start as from the start of
      the block. */
  lemma ByteOnDisk(v: Vol, n: nat, off: nat)
    requires Inv(v) && off / BLOCK_SIZE < TOTAL_BLOCK
    ensures var z := ZoneAt(v, n, BlockPath(off / BLOCK_SIZE));
            z < |v.disk| && ByteAt(v, n, off) == if z == 0 then 0 else v.disk[z][off - off / 1024 * 1024]
  {
    var z := ZoneAt(v, n, BlockPath(off / BLOCK_SIZE));
    assert z != 0 ==> Used(v, z);
  }

  /** The bit of a data zone: that of the first one is bit 1. */
  lemma ZoneBit(v: Vol, k: nat)
    requires Sized(v) && v.first + k < |v.disk|
    ensures Used(v, v.first + k) <==> v.zmap[k + 1]
    ensures Unused(v, v.first + k) <==> !v.zmap[k + 1]
  {
  }
}
