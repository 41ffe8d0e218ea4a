/** The file layer as it runs: the zone bitmap in place, index blocks and zone arrays
    updated one entry at a time, every block through the buffer cache (src/fs/bmap.c,
    src/fs/inode.c). */
module VolumeStore {
  import opened Wrappers
  import Bitmap
  import BufferCache
  import BufferRun
  import opened BufferStore
  import opened Volume
  import opened BlockMap
  import opened FileData
  import opened Truncation

  lemma FirstClearIs(bits: seq<bool>, k: nat)
    requires k < |bits| && !bits[k] && forall i :: 0 <= i < k ==> bits[i]
    ensures FirstClear(bits) == k
  {
  }

  lemma NoClear(bits: seq<bool>)
    requires forall i :: 0 <= i < |bits| ==> bits[i]
    ensures FirstClear(bits) == |bits|
  {
  }

  /** Where an entry of a file's tree is stored: in the inode or in an index block. */
  datatype Holder = InInode | InZone(zone: nat)

  /** The array of the entry at position p. */
  ghost predicate Holds(h: Holder, v: Vol, n: nat, p: seq<nat>) {
    HasSlot(v, n, p) && h == if |p| == 1 then InInode else InZone(ZoneAt(v, n, Parent(p)))
  }

  lemma MarkedHolds(v: Vol, z: nat, h: Holder, n: nat, p: seq<nat>)
    requires CanAlloc(v) && z == NextZone(v) && Holds(h, v, n, p)
    ensures Holds(h, Mark(v, z, true), n, p)
    ensures SetPtr(Mark(v, z, true), n, p, z) == Alloc(v, n, p)
  {
    if |p| > 1 {
      MarkedAt(v, z, true, n, Parent(p));
    }
  }

  class Store {
    const first: nat
    /** sb->desc->zones, and the device that the volume is on. */
    const zones: nat
    const dev: BufferCache.u32
    const zbits: array<bv8>
    const cache: Buffers
    /** The blocks of the device as the cache shows them. */
    ghost var disk: seq<Block>
    var inodes: map<nat, Inode>

    /** Nobody else uses the cache meanwhile. */
    ghost predicate Valid()
      reads this, cache
    {
      && zbits.Length == BLOCK_SIZE && first >= 1 && |disk| == zones
      && cache.Serves(dev, disk)
    }

    /** A mounted volume: its bitmap and inodes are in memory, its blocks on device dev. */
    constructor (first: nat, zones: nat, dev: BufferCache.u32, zbits: array<bv8>, cache: Buffers,
                 ghost disk: seq<Block>, inodes: map<nat, Inode>)
      requires zbits.Length == BLOCK_SIZE && first >= 1 && |disk| == zones
      requires cache.Serves(dev, disk)
      ensures Valid() && this.zbits == zbits && this.cache == cache
      ensures State() == Vol(first, Bitmap.Bits(zbits[..]), disk, inodes)
    {
      this.first, this.zones, this.dev, this.zbits, this.cache := first, zones, dev, zbits, cache;
      this.disk, this.inodes := disk, inodes;
    }

    ghost function State(): (v: Vol)
      reads this, zbits
    {
      Vol(first, Bitmap.Bits(zbits[..]), disk, inodes)
    }

    /** Sound, and fit for bmap with create. */
    ghost predicate Ready()
      reads this, zbits, cache
    {
      Valid() && Inv(State()) && FreeZero(State())
    }

    /** What bmap needs. */
    ghost predicate Fit(create: bool)
      reads this, zbits, cache
    {
      match create
      case true => Ready()
      case false => Valid() && Inv(State())
    }

    /** bread, and brelse when the block has been looked at. */
    method ReadZone(z: nat) returns (b: Block)
      requires Valid() && z < |disk|
      modifies cache
      ensures Valid() && b == disk[z]
    {
      ghost var c := cache.State();
      b := cache.ReadBlock(BufferCache.Key(dev, z));
      BufferRun.ShownAlike(c, cache.State(), dev, disk);
    }

    /** bread, a change that sets dirty, and brelse, which writes the block. */
    method WriteZone(z: nat, b: Block)
      requires Valid() && z < |disk|
      modifies this`disk, cache
      ensures Valid() && disk == old(disk)[z := b]
    {
      ghost var c := cache.State();
      cache.WriteBlock(BufferCache.Key(dev, z), b);
      BufferRun.ShownChanged(c, cache.State(), dev, disk, z, b);
      disk := disk[z := b];
    }

    /** balloc: the first clear bit, which must lie below the end of the volume. */
    method Balloc() returns (ok: bool, z: nat)
      requires Valid() && |disk| < 65536
      modifies zbits
      ensures Valid()
      ensures ok <==> CanAlloc(old(State()))
      ensures ok ==> z == NextZone(old(State())) && State() == Mark(old(State()), z, true)
    {
      ghost var v := State();
      var bit := Bitmap.Scan(zbits, first - 1, 1);
      ScanIsFirstClear(v, bit);
      if bit == Bitmap.EOF || bit >= zones {
        return false, 0;
      }
      assert Bitmap.ClearRun(v.zmap, bit - (first - 1), 1);
      assert State().zmap == v.zmap[bit - (first - 1) := true];
      return true, bit;
    }

    lemma ScanIsFirstClear(v: Vol, bit: int)
      requires v.first >= 1
      requires bit == Bitmap.EOF ==> forall s :: !Bitmap.ClearRun(v.zmap, s, 1)
      requires bit != Bitmap.EOF ==>
                 && v.first - 1 <= bit && Bitmap.ClearRun(v.zmap, bit - (v.first - 1), 1)
                 && forall s :: 0 <= s < bit - (v.first - 1) ==> !Bitmap.ClearRun(v.zmap, s, 1)
      ensures bit == Bitmap.EOF ==> FirstClear(v.zmap) == |v.zmap|
      ensures bit != Bitmap.EOF ==> FirstClear(v.zmap) < |v.zmap| && bit == NextZone(v)
    {
      if bit == Bitmap.EOF {
        forall i | 0 <= i < |v.zmap|
          ensures v.zmap[i]
        {
          assert !Bitmap.ClearRun(v.zmap, i, 1);
        }
        NoClear(v.zmap);
      } else {
        forall i | 0 <= i < bit - (v.first - 1)
          ensures v.zmap[i]
        {
          assert !Bitmap.ClearRun(v.zmap, i, 1);
        }
        FirstClearIs(v.zmap, bit - (v.first - 1));
      }
    }

    /** bfree. */
    method Free(z: nat) returns (ok: bool)
      requires Valid()
      modifies zbits
      ensures Valid()
      ensures ok <==> Bfree(old(State()), z).Some?
      ensures ok ==> State() == Bfree(old(State()), z).value
      ensures !ok ==> State() == old(State())
    {
      if z >= zones || z > BLOCK_BITS || z < first - 1 || z - (first - 1) >= BLOCK_BITS {
        return false;
      }
      ok := Bitmap.Test(zbits, first - 1, z);
      if ok {
        Bitmap.Set(zbits, first - 1, z, false);
      }
    }

    /** array[index]. */
    method Load(h: Holder, n: nat, index: nat, ghost p: seq<nat>) returns (z: nat)
      requires Valid() && Holds(h, State(), n, p) && index == Last(p)
      modifies cache
      ensures Valid() && z == ZoneAt(State(), n, p)
    {
      match h
      case InInode => z := inodes[n].zone[index];
      case InZone(b) =>
        var block := ReadZone(b);
        z := Word(block, index);
    }

    /** array[index] = z. */
    method Save(h: Holder, n: nat, index: nat, z: u16, ghost p: seq<nat>)
      requires Valid() && Holds(h, State(), n, p) && index == Last(p)
      modifies this, cache
      ensures Valid() && State() == SetPtr(old(State()), n, p, z)
    {
      match h
      case InInode => inodes := inodes[n := inodes[n].(zone := inodes[n].zone[index := z])];
      case InZone(b) =>
        var block := ReadZone(b);
        WriteZone(b, SetWord(block, index, z));
    }

    /** array[index] = balloc(dev). */
    method Fill(h: Holder, n: nat, index: nat, ghost p: seq<nat>) returns (ok: bool, z: nat)
      requires Ready() && Holds(h, State(), n, p) && index == Last(p) && ZoneAt(State(), n, p) == 0
      modifies this, zbits, cache
      ensures Valid()
      ensures ok <==> CanAlloc(old(State()))
      ensures ok ==> z == NextZone(old(State())) && State() == Alloc(old(State()), n, p)
    {
      ghost var v := State();
      ok, z := Balloc();
      if ok {
        MarkedHolds(v, z, h, n, p);
        Save(h, n, index, z, p);
      }
    }

    /** One level of bmap: the entry of one array, allocated if it is missing. */
    method Entry(h: Holder, n: nat, index: nat, create: bool, ghost p: seq<nat>, ghost k: nat)
      returns (ok: bool, entry: nat)
      requires Fit(create) && n in inodes
      requires IsPath(p) && 1 <= k <= |p| && Holds(h, State(), n, p[..k]) && index == p[k - 1]
      modifies this, zbits, cache
      ensures Valid()
      ensures !create ==> ok && State() == old(State())
      ensures !ok ==> Grow(old(State()), n, p, k) == None
      ensures ok ==> entry == ZoneAt(State(), n, p[..k]) && Fit(create) && n in inodes
      ensures ok && create ==> entry != 0 && Grow(State(), n, p, k + 1) == Grow(old(State()), n, p, k)
    {
      ok := true;
      entry := Load(h, n, index, p[..k]);
      if entry == 0 && create {
        AllocGrowsIf(State(), n, p, k);
        ok, entry := Fill(h, n, index, p[..k]);
      }
    }

    /** The start of bmap: the zone slot of a block, and what is left to look up. */
    method Reckon(block: nat) returns (index: nat, level: nat, divider: nat, rest: nat)
      requires block < TOTAL_BLOCK
      ensures Reckoned(BlockPath(block), 1, index, level, rest, divider)
    {
      index, level, divider, rest := block, 0, 1, block;
      if block < DIRECT_BLOCK {
        return;
      }
      rest := rest - DIRECT_BLOCK;
      if rest < BLOCK_INDEXES {
        index, level, divider := DIRECT_BLOCK, 1, 1;
        return;
      }
      rest := rest - BLOCK_INDEXES;
      index, level, divider := DIRECT_BLOCK + 1, 2, BLOCK_INDEXES;
    }

    /** bmap: the zone of a block, or 0; with create, missing zones are allocated. */
    method Bmap(n: nat, block: nat, create: bool) returns (ok: bool, nr: nat)
      requires Valid() && Inv(State()) && n in inodes && (create ==> FreeZero(State()))
      modifies this, zbits, cache
      ensures Valid()
      ensures ok <==> block < TOTAL_BLOCK && (create ==> Grow(old(State()), n, BlockPath(block), 1).Some?)
      ensures ok && create ==> State() == Grow(old(State()), n, BlockPath(block), 1).value
      ensures !create ==> State() == old(State())
      ensures ok ==> nr == ZoneAt(State(), n, BlockPath(block))
    {
      if block >= TOTAL_BLOCK {
        return false, 0;
      }
      ghost var v := State();
      ghost var p := BlockPath(block);
      var index: nat, level: nat, divider: nat, rest: nat := Reckon(block);
      var h := InInode;
      ghost var k := 1;
      assert Holds(h, State(), n, p[..1]);
      while true
        invariant IsPath(p) && Reckoned(p, k, index, level, rest, divider)
        invariant Fit(create)
        invariant Holds(h, State(), n, p[..k])
        invariant create ==> Grow(State(), n, p, k) == Grow(v, n, p, 1)
        invariant !create ==> State() == v
        decreases level
      {
        var entry;
        ok, entry := Entry(h, n, index, create, p, k);
        if !ok {
          return false, 0;
        }
        if level == 0 || entry == 0 {
          Arrived(State(), n, p, k);
          return true, entry;
        }
        Descends(State(), n, p, k);
        NextIndex(p, k, index, level, rest, divider);
        h, index := InZone(entry), rest / divider;
        rest, divider, level := rest % divider, divider / BLOCK_INDEXES, level - 1;
        k := k + 1;
      }
    }

    /** inode_read. */
    method InodeRead(n: nat, len: nat, offset: nat) returns (r: ReadResult)
      requires Valid() && Inv(State()) && n in inodes
      modifies this, zbits, cache
      ensures Valid()
      ensures State() == old(State()) && r == Read(State(), n, len, offset)
    {
      if offset >= inodes[n].size {
        return Eof;
      }
      ghost var v := State();
      var total := Min(len, inodes[n].size - offset);
      var buf, off, left := [], offset, total;
      while left > 0
        invariant Valid() && State() == v && off == offset + |buf| && |buf| + left == total
        invariant RangeMapped(v, n, offset, |buf|) && buf == Bytes(v, n, offset, |buf|)
      {
        var ok, nr := Bmap(n, off / BLOCK_SIZE, false);
        if !ok || nr == 0 {
          assert !HasByte(v, n, off);
          return Panic;
        }
        var chars := Chunk(off, left);
        RoundReads(v, n, offset, off, |buf|, chars);
        var block := ReadZone(nr);
        buf := buf + block[off % BLOCK_SIZE..off % BLOCK_SIZE + chars];
        off, left := off + chars, left - chars;
      }
      return Data(buf);
    }

    /** inode_write. */
    method InodeWrite(n: nat, data: seq<u8>, offset: nat) returns (ok: bool, written: nat)
      requires Ready() && n in inodes
      modifies this, zbits, cache
      ensures Valid()
      ensures ok <==> WriteAll(old(State()), n, offset, data).Some?
      ensures ok ==> State() == WriteAll(old(State()), n, offset, data).value && written == |data|
    {
      ghost var v := State();
      ghost var goal := WriteAll(v, n, offset, data);
      var buf, off := data, offset;
      while buf != []
        invariant Ready() && n in inodes && off + |buf| == offset + |data|
        invariant v == State() && WriteAll(v, n, off, buf) == goal
        decreases |buf|
      {
        ok := WriteRound(n, Now(off, buf), off);
        if !ok {
          return false, 0;
        }
        RoundKeepsReady(v, n, off, Now(off, buf));
        v := State();
        buf, off := Rest(off, buf), Next(off, buf);
      }
      return true, off - offset;
    }

    /** One round of its loop. */
    method WriteRound(n: nat, data: seq<u8>, off: nat) returns (ok: bool)
      requires Ready() && n in inodes && data != [] && off % BLOCK_SIZE + |data| <= BLOCK_SIZE
      modifies this, zbits, cache
      ensures Valid()
      ensures Round(old(State()), n, off, data) == if ok then Some(State()) else None
    {
      ghost var v := State();
      var nr;
      ok, nr := MapBlock(n, off);
      if !ok {
        RoundFails(v, n, off, data);
        return;
      }
      RoundIs(v, n, off, data, State(), nr);
      PutChunk(n, nr, data, off);
    }

    /** bmap(inode, offset / BLOCK_SIZE, true), and the assertion that it found a zone. */
    method MapBlock(n: nat, off: nat) returns (ok: bool, nr: nat)
      requires Ready() && n in inodes
      modifies this, zbits, cache
      ensures Valid()
      ensures !ok ==> off / BLOCK_SIZE >= TOTAL_BLOCK || Grow(old(State()), n, BlockPath(off / BLOCK_SIZE), 1) == None
      ensures ok ==> BmapGives(old(State()), n, off, State(), nr)
    {
      ok, nr := Bmap(n, off / BLOCK_SIZE, true);
    }

    /** The rest of the round: memcpy into the block, and the size of the file. */
    method PutChunk(n: nat, nr: nat, data: seq<u8>, off: nat)
      requires Valid() && n in inodes && nr < |disk| && off % BLOCK_SIZE + |data| <= BLOCK_SIZE
      modifies this, cache
      ensures Valid() && State() == Put(old(State()), n, nr, off % BLOCK_SIZE, data, off + |data|)
    {
      var block := ReadZone(nr);
      WriteZone(nr, Patch(block, off % BLOCK_SIZE, data));
      if off + |data| > inodes[n].size {
        inodes := inodes[n := inodes[n].(size := off + |data|)];
      }
    }

    /** inode_bfree. */
    method InodeBfree(z: nat, level: nat) returns (ok: bool)
      requires Valid()
      modifies zbits, cache
      ensures Valid()
      ensures ok <==> FreeTree(old(State()), z, level).Some?
      ensures ok ==> State() == FreeTree(old(State()), z, level).value
      decreases level, 1
    {
      if z == 0 {
        return true;
      }
      if level == 0 {
        ok := Free(z);
        return;
      }
      if z >= zones {
        return false;
      }
      var b := ReadZone(z);
      ok := FreeEntries(b, level);
      if ok {
        ok := Free(z);
      }
    }

    /** Its loop over the entries of an index block. */
    method FreeEntries(b: Block, level: nat) returns (ok: bool)
      requires Valid() && level >= 1
      modifies zbits, cache
      ensures Valid()
      ensures ok <==> FreeWords(old(State()), b, level, BLOCK_INDEXES).Some?
      ensures ok ==> State() == FreeWords(old(State()), b, level, BLOCK_INDEXES).value
      decreases level, 0
    {
      for i := 0 to BLOCK_INDEXES
        invariant Valid() && FreeWords(old(State()), b, level, i) == Some(State())
      {
        ok := InodeBfree(Word(b, i), level - 1);
        if !ok {
          NoneStays(old(State()), b, level, i + 1, BLOCK_INDEXES);
          return;
        }
      }
      ok := true;
    }

    /** One round of inode_truncate: the tree of a slot, and then the slot. */
    method FreeSlot(n: nat, i: nat) returns (ok: bool)
      requires Valid() && n in inodes && i < |inodes[n].zone|
      modifies this, zbits, cache
      ensures Valid() && n in inodes
      ensures var f := FreeTree(old(State()), old(inodes[n].zone[i]), SlotLevel(i));
              && (ok <==> f.Some?)
              && (ok ==>
                    var was := old(inodes[n]);
                    State() == f.value.(inodes := f.value.inodes[n := was.(zone := was.zone[i := 0])]))
    {
      FreeKeepsInodes(State(), inodes[n].zone[i], SlotLevel(i));
      ok := InodeBfree(inodes[n].zone[i], if i < DIRECT_BLOCK then 0 else i - DIRECT_BLOCK + 1);
      if ok {
        inodes := inodes[n := inodes[n].(zone := inodes[n].zone[i := 0])];
      }
    }

    /** inode_truncate. */
    method InodeTruncate(n: nat) returns (ok: bool)
      requires Valid() && n in inodes && |inodes[n].zone| == ZONE_SLOTS
      modifies this, zbits, cache
      ensures Valid()
      ensures ok <==> Truncate(old(State()), n).Some?
      ensures ok ==> State() == Truncate(old(State()), n).value
    {
      for i := 0 to ZONE_SLOTS
        invariant Valid() && n in inodes && |inodes[n].zone| == ZONE_SLOTS
        invariant FreeSlots(old(State()), n, i) == Some(State())
      {
        ok := FreeSlot(n, i);
        if !ok {
          NoSlots(old(State()), n, i + 1, ZONE_SLOTS);
          return;
        }
      }
      inodes := inodes[n := inodes[n].(size := 0)];
      return true;
    }
  }

  /** inode_bfree changes bits only. */
  lemma {:induction false} FreeKeepsInodes(v: Vol, z: nat, level: nat)
    ensures FreeTree(v, z, level).Some? ==> FreeTree(v, z, level).value.inodes == v.inodes
  {
    FreeTreeFrame(v, z, level, v);
  }

  /** The indices that bmap has still to take from the block number. */
  predicate Remaining(p: seq<nat>, level: nat, rest: nat, divider: nat) {
    && level < |p| <= 3
    && (level == 1 ==> divider == 1 && rest == p[|p| - 1])
    && (level == 2 ==> divider == BLOCK_INDEXES && rest == p[|p| - 2] * BLOCK_INDEXES + p[|p| - 1])
    && (|p| >= 2 ==> p[1] < BLOCK_INDEXES) && (|p| >= 3 ==> p[2] < BLOCK_INDEXES)
  }

  /** bmap stands at the k-th array on the way to p, with so many levels below it. */
  predicate Reckoned(p: seq<nat>, k: nat, index: nat, level: nat, rest: nat, divider: nat) {
    1 <= k <= |p| && level == |p| - k && index == p[k - 1] && Remaining(p, level, rest, divider)
  }

  lemma Arrived(v: Vol, n: nat, p: seq<nat>, k: nat)
    requires IsPath(p) && 1 <= k <= |p| && (k == |p| || ZoneAt(v, n, p[..k]) == 0)
    ensures ZoneAt(v, n, p) == ZoneAt(v, n, p[..k])
    ensures k == |p| ==> Grow(v, n, p, k + 1) == Some(v)
  {
    assert p[..|p|] == p;
    if k < |p| {
      EmptyBelow(v, n, p, k);
    }
  }

  lemma Descends(v: Vol, n: nat, p: seq<nat>, k: nat)
    requires Inv(v) && n in v.inodes && IsPath(p) && 1 <= k < |p| && ZoneAt(v, n, p[..k]) != 0
    ensures Holds(InZone(ZoneAt(v, n, p[..k])), v, n, p[..k + 1])
  {
    assert p[..k + 1][..k] == p[..k] == Parent(p[..k + 1]);
    SlotBelow(v, n, p, k + 1);
  }

  lemma NextIndex(p: seq<nat>, k: nat, index: nat, level: nat, rest: nat, divider: nat)
    requires Reckoned(p, k, index, level, rest, divider) && level >= 1
    ensures divider > 0 && Reckoned(p, k + 1, rest / divider, level - 1, rest % divider, divider / BLOCK_INDEXES)
  {
  }

  /** One level of bmap with create, as Grow describes it. */
  lemma AllocGrowsIf(v: Vol, n: nat, p: seq<nat>, k: nat)
    requires Inv(v) && FreeZero(v) && IsPath(p) && 1 <= k <= |p| && HasSlot(v, n, p[..k]) && ZoneAt(v, n, p[..k]) == 0
    ensures !CanAlloc(v) ==> Grow(v, n, p, k) == None
    ensures CanAlloc(v) ==>
              && Inv(Alloc(v, n, p[..k])) && FreeZero(Alloc(v, n, p[..k]))
              && ZoneAt(Alloc(v, n, p[..k]), n, p[..k]) == NextZone(v) != 0
              && Grow(v, n, p, k) == Grow(Alloc(v, n, p[..k]), n, p, k + 1)
  {
    if CanAlloc(v) {
      AllocGrows(v, n, p, k);
      AllocIsThere(v, n, p[..k]);
    }
  }

  lemma {:induction false} NoneStays(v: Vol, b: Block, level: nat, i: nat, k: nat)
    requires level >= 1 && i <= k <= BLOCK_INDEXES && FreeWords(v, b, level, i) == None
    ensures FreeWords(v, b, level, k) == None
  {
    if i >= k {
    } else {
      NoneStays(v, b, level, i, k - 1);
    }
  }

  lemma {:induction false} NoSlots(v: Vol, n: nat, i: nat, k: nat)
    requires i <= k && FreeSlots(v, n, i) == None
    ensures FreeSlots(v, n, k) == None
  {
    if i >= k {
    } else {
      NoSlots(v, n, i, k - 1);
    }
  }

  lemma BytesExtend(v: Vol, n: nat, offset: nat, a: nat, b: nat)
    ensures Bytes(v, n, offset, a + b) == Bytes(v, n, offset, a) + Bytes(v, n, offset + a, b)
  {
  }

  /** The bytes of a file that lie in one of its blocks. */
  lemma BytesOfBlock(v: Vol, n: nat, off: nat, chars: nat)
    requires InBlock(off, chars) && 0 < ZoneAt(v, n, BlockPath(off / BLOCK_SIZE)) < |v.disk|
    ensures Bytes(v, n, off, chars) ==
            v.disk[ZoneAt(v, n, BlockPath(off / BLOCK_SIZE))][off % BLOCK_SIZE..off % BLOCK_SIZE + chars]
  {
    var s := v.disk[ZoneAt(v, n, BlockPath(off / BLOCK_SIZE))][off % BLOCK_SIZE..off % BLOCK_SIZE + chars];
    forall i | 0 <= i < |s|
      ensures s[i] == Bytes(v, n, off, chars)[i]
    {
      BlockOffsets(off, chars, off + i);
      assert (off + i) / BLOCK_SIZE == off / BLOCK_SIZE;
      assert Bytes(v, n, off, chars)[i] == ByteOr0(v, n, off + i);
    }
  }

  /** What one round of inode_read appends. */
  lemma RoundReads(v: Vol, n: nat, offset: nat, off: nat, len: nat, chars: nat)
    requires off == offset + len && InBlock(off, chars) && RangeMapped(v, n, offset, len)
    requires 0 < ZoneAt(v, n, BlockPath(off / BLOCK_SIZE)) < |v.disk|
    ensures Bytes(v, n, offset, len) +
            v.disk[ZoneAt(v, n, BlockPath(off / BLOCK_SIZE))][off % BLOCK_SIZE..off % BLOCK_SIZE + chars] ==
            Bytes(v, n, offset, len + chars)
    ensures RangeMapped(v, n, offset, len + chars)
  {
    RoundMaps(v, n, off, chars);
    forall o: nat | offset <= o < offset + (len + chars)
      ensures HasByte(v, n, o)
    {
      if o >= off {
        assert HasByte(v, n, o);
      }
    }
    BytesOfBlock(v, n, off, chars);
    BytesExtend(v, n, offset, len, chars);
  }

  /** bmap decides how a round comes out. */
  predicate BmapGives(v: Vol, n: nat, off: nat, g: Vol, z: nat) {
    && off / BLOCK_SIZE < TOTAL_BLOCK
    && Grow(v, n, BlockPath(off / BLOCK_SIZE), 1) == Some(g) && z == ZoneAt(g, n, BlockPath(off / BLOCK_SIZE))
  }

  lemma {:induction false} RoundIs(v: Vol, n: nat, off: nat, data: seq<u8>, g: Vol, z: nat)
    requires Inv(v) && FreeZero(v) && n in v.inodes && off % BLOCK_SIZE + |data| <= BLOCK_SIZE
    requires BmapGives(v, n, off, g, z)
    ensures n in g.inodes && z < |g.disk|
    ensures Round(v, n, off, data) == Some(Put(g, n, z, off % BLOCK_SIZE, data, off + |data|))
  {
    RoundGrows(v, n, off);
  }

  lemma {:induction false} RoundFails(v: Vol, n: nat, off: nat, data: seq<u8>)
    requires off / BLOCK_SIZE >= TOTAL_BLOCK || Grow(v, n, BlockPath(off / BLOCK_SIZE), 1) == None
    ensures Round(v, n, off, data) == None
  {
  }

  lemma {:induction false} RoundKeepsReady(v: Vol, n: nat, off: nat, data: seq<u8>)
    requires Inv(v) && FreeZero(v) && data != [] && Round(v, n, off, data).Some?
    ensures var w := Round(v, n, off, data).value; Inv(w) && FreeZero(w) && n in w.inodes
  {
    RoundWrites(v, n, off, data, Round(v, n, off, data).value);
  }
}
