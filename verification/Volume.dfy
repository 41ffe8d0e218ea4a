/** A Minix volume as one value: zones of 1024 bytes, a zone bitmap, and inodes whose
    nine zone numbers root a tree of data zones (src/fs/bmap.c, src/fs/inode.c). The
    buffer cache below it is taken as the flat disk that it refines. */
module Volume {
  import opened Wrappers

  const BLOCK_SIZE: nat := 1024
  const BLOCK_BITS: nat := 8192
  const BLOCK_INDEXES: nat := 512
  const DIRECT_BLOCK: nat := 7
  const INDIRECT2: nat := DIRECT_BLOCK + BLOCK_INDEXES
  const TOTAL_BLOCK: nat := INDIRECT2 + BLOCK_INDEXES * BLOCK_INDEXES
  const ZONE_SLOTS: nat := 9

  type u8 = x: int | 0 <= x < 256
  type u16 = x: int | 0 <= x < 65536

  type Block = s: seq<u8> | |s| == BLOCK_SIZE witness seq(BLOCK_SIZE, _ => 0)

  function ZeroBlock(): Block {
    seq(BLOCK_SIZE, _ => 0)
  }

  /** Entry i of a block read as an array of u16. */
  function Word(b: Block, i: nat): u16
    requires i < BLOCK_INDEXES
  {
    b[2 * i] as int + 256 * (b[2 * i + 1] as int)
  }

  function SetWord(b: Block, i: nat, w: u16): Block
    requires i < BLOCK_INDEXES
  {
    b[2 * i := w % 256][2 * i + 1 := w / 256]
  }

  datatype Inode = Inode(zone: seq<u16>, size: nat)

  /** One volume. Bit k of zmap stands for zone first - 1 + k; there is one bitmap block. */
  datatype Vol = Vol(first: nat, zmap: seq<bool>, disk: seq<Block>, inodes: map<nat, Inode>)

  /** Sizes: the zones of the volume are the blocks of the disk. Bit 0, which belongs to
      no data zone, is set when the volume is made. */
  ghost predicate Sized(v: Vol) {
    && 1 <= v.first <= |v.disk| < 65536 && |v.disk| <= v.first - 1 + BLOCK_BITS
    && |v.zmap| == BLOCK_BITS && v.zmap[0]
    && forall n :: n in v.inodes ==> |v.inodes[n].zone| == ZONE_SLOTS
  }

  predicate DataZone(v: Vol, z: nat) {
    v.first <= z < |v.disk| && z - (v.first - 1) < |v.zmap|
  }

  predicate Used(v: Vol, z: nat) {
    DataZone(v, z) && v.zmap[z - (v.first - 1)]
  }

  predicate Unused(v: Vol, z: nat) {
    DataZone(v, z) && !v.zmap[z - (v.first - 1)]
  }

  // ----- Positions in the tree of an inode ----------------------------------

  /** A position: a zone slot of the inode, then indices into index blocks. Slots 0-6
      are direct, 7 has one level of index blocks and 8 has two. */
  predicate IsPath(p: seq<nat>) {
    && 1 <= |p| <= 3 && p[0] < ZONE_SLOTS
    && (|p| >= 2 ==> p[0] >= DIRECT_BLOCK && p[1] < BLOCK_INDEXES)
    && (|p| == 3 ==> p[0] == DIRECT_BLOCK + 1 && p[2] < BLOCK_INDEXES)
  }

  /** Levels of index blocks below and at this position; 0 for a data zone. */
  function Level(p: seq<nat>): nat
    requires IsPath(p)
  {
    if p[0] < DIRECT_BLOCK then 0 else p[0] - DIRECT_BLOCK + 2 - |p|
  }

  function Parent(p: seq<nat>): seq<nat>
    requires |p| >= 1
  {
    p[..|p| - 1]
  }

  function Last(p: seq<nat>): nat
    requires |p| >= 1
  {
    p[|p| - 1]
  }

  /** The zone at a position, or 0; what the index blocks say on the way. */
  function ZoneAt(v: Vol, n: nat, p: seq<nat>): nat
    decreases |p|
  {
    if n !in v.inodes || !IsPath(p) then 0 else
    if |p| == 1 then (if p[0] < |v.inodes[n].zone| then v.inodes[n].zone[p[0]] else 0) else
    var z := ZoneAt(v, n, Parent(p));
    if z == 0 || z >= |v.disk| then 0 else Word(v.disk[z], Last(p))
  }

  /** bmap's choice of slot and indices for a block number. */
  function BlockPath(block: nat): (p: seq<nat>)
    requires block < TOTAL_BLOCK
    ensures IsPath(p) && Level(p) == 0
  {
    if block < DIRECT_BLOCK then [block]
    else if block < INDIRECT2 then [DIRECT_BLOCK, block - DIRECT_BLOCK]
    else [DIRECT_BLOCK + 1, (block - INDIRECT2) / BLOCK_INDEXES, (block - INDIRECT2) % BLOCK_INDEXES]
  }

  lemma BlockPathInjective(b: nat, c: nat)
    requires b < TOTAL_BLOCK && c < TOTAL_BLOCK && BlockPath(b) == BlockPath(c)
    ensures b == c
  {
    assert BlockPath(b)[0] == BlockPath(c)[0];
    if b >= INDIRECT2 {
      assert BlockPath(b)[1] == BlockPath(c)[1] && BlockPath(b)[2] == BlockPath(c)[2];
    } else if b >= DIRECT_BLOCK {
      assert BlockPath(b)[1] == BlockPath(c)[1];
    }
  }

  /** Every data position belongs to a block. */
  lemma BlockOfPath(p: seq<nat>) returns (b: nat)
    requires IsPath(p) && Level(p) == 0
    ensures b < TOTAL_BLOCK && BlockPath(b) == p
  {
    if p[0] < DIRECT_BLOCK {
      b := p[0];
    } else if p[0] == DIRECT_BLOCK {
      b := DIRECT_BLOCK + p[1];
    } else {
      b := INDIRECT2 + p[1] * BLOCK_INDEXES + p[2];
    }
  }

  // ----- The invariant ------------------------------------------------------

  ghost predicate ZonesUsed(v: Vol) {
    forall n, p :: ZoneAt(v, n, p) != 0 ==> Used(v, ZoneAt(v, n, p))
  }

  /** No zone hangs in two places, of one inode or of two. */
  ghost predicate ZonesOnce(v: Vol) {
    forall n, p, m, q :: ZoneAt(v, n, p) == ZoneAt(v, m, q) != 0 ==> n == m && p == q
  }

  ghost predicate Inv(v: Vol) {
    Sized(v) && ZonesUsed(v) && ZonesOnce(v)
  }

  /** balloc never clears a zone, so an index block is sound only if free zones are zero. */
  ghost predicate FreeZero(v: Vol) {
    forall z: nat :: Unused(v, z) ==> v.disk[z] == ZeroBlock()
  }

  /** What a data position holds; a hole reads as zeros. */
  function DataAt(v: Vol, n: nat, p: seq<nat>): Block {
    var z := ZoneAt(v, n, p);
    if z == 0 || z >= |v.disk| then ZeroBlock() else v.disk[z]
  }

  /** Byte off of file n. */
  function ByteAt(v: Vol, n: nat, off: nat): u8
    requires off / BLOCK_SIZE < TOTAL_BLOCK
  {
    DataAt(v, n, BlockPath(off / BLOCK_SIZE))[off % BLOCK_SIZE]
  }

  ghost function UsedSet(v: Vol): set<nat> {
    set z | v.first <= z < |v.disk| && Used(v, z)
  }

  ghost function FreeSet(v: Vol): set<nat> {
    set z | v.first <= z < |v.disk| && Unused(v, z)
  }

  // ----- balloc and bmap ----------------------------------------------------

  function FirstClear(bits: seq<bool>): (k: nat)
    ensures k <= |bits|
    ensures k < |bits| ==> !bits[k]
    ensures forall i :: 0 <= i < k ==> bits[i]
    decreases |bits|
  {
    if bits == [] || !bits[0] then 0 else
    var k := FirstClear(bits[1..]);
    assert forall i :: 1 <= i < 1 + k ==> bits[i] == bits[1..][i - 1];
    1 + k
  }

  /** The zone that balloc takes. */
  function NextZone(v: Vol): nat
    requires v.first >= 1
  {
    FirstClear(v.zmap) + v.first - 1
  }

  /** balloc finds a clear bit below the end of the volume; otherwise it panics. */
  predicate CanAlloc(v: Vol) {
    v.first >= 1 && FirstClear(v.zmap) < |v.zmap| && NextZone(v) < |v.disk| && NextZone(v) < 65536
  }

  function Mark(v: Vol, z: nat, used: bool): Vol
    requires 1 <= v.first <= z + 1 && z - (v.first - 1) < |v.zmap|
  {
    v.(zmap := v.zmap[z - (v.first - 1) := used])
  }

  /** array[index] = z, where the array is the inode's or that of an index block. */
  function SetPtr(v: Vol, n: nat, p: seq<nat>, z: u16): Vol
    requires n in v.inodes && IsPath(p)
    requires |p| == 1 ==> p[0] < |v.inodes[n].zone|
    requires |p| > 1 ==> ZoneAt(v, n, Parent(p)) < |v.disk|
  {
    if |p| == 1 then
      v.(inodes := v.inodes[n := v.inodes[n].(zone := v.inodes[n].zone[p[0] := z])])
    else
      var parent := ZoneAt(v, n, Parent(p));
      v.(disk := v.disk[parent := SetWord(v.disk[parent], Last(p), z)])
  }

  /** A place where a zone can be hung: its index block is there. */
  predicate HasSlot(v: Vol, n: nat, p: seq<nat>) {
    && n in v.inodes && IsPath(p)
    && if |p| == 1 then p[0] < |v.inodes[n].zone| else 0 < ZoneAt(v, n, Parent(p)) < |v.disk|
  }

  /** One allocation of bmap. */
  function Alloc(v: Vol, n: nat, p: seq<nat>): Vol
    requires CanAlloc(v) && HasSlot(v, n, p)
  {
    Mark(SetPtr(v, n, p, NextZone(v)), NextZone(v), true)
  }

  /** bmap with create, from the k-th zone on the way down to position p: allocate
      what is missing. None is a panic of balloc. */
  function Grow(v: Vol, n: nat, p: seq<nat>, k: nat): Option<Vol>
    requires IsPath(p) && k >= 1
    decreases |p| + 1 - k
  {
    if k > |p| then Some(v)
    else if ZoneAt(v, n, p[..k]) != 0 then Grow(v, n, p, k + 1)
    else if CanAlloc(v) && HasSlot(v, n, p[..k]) then Grow(Alloc(v, n, p[..k]), n, p, k + 1)
    else None
  }

  // ----- inode_write and inode_read -----------------------------------------

  function Min(a: nat, b: nat): nat {
    if a < b then a else b
  }

  /** memcpy of data into a block, from byte start on. */
  function Patch(b: Block, start: nat, data: seq<u8>): Block
    requires start + |data| <= BLOCK_SIZE
  {
    b[..start] + data + b[start + |data|..]
  }

  /** Data stored in zone z of file n, which now reaches to end at least. */
  function Put(v: Vol, n: nat, z: nat, start: nat, data: seq<u8>, end: nat): Vol
    requires n in v.inodes && z < |v.disk| && start + |data| <= BLOCK_SIZE
  {
    var i := v.inodes[n];
    v.(disk := v.disk[z := Patch(v.disk[z], start, data)],
       inodes := v.inodes[n := i.(size := if end > i.size then end else i.size)])
  }

  /** The bytes of one round of the loops: up to the end of the block. */
  function Chunk(off: nat, left: nat): (c: nat)
    ensures c <= left && (left > 0 ==> c > 0)
  {
    Min(BLOCK_SIZE - off % BLOCK_SIZE, left)
  }

  /** The bytes of [off, off + len) lie in one block of a file. */
  predicate InBlock(off: nat, len: nat) {
    off / BLOCK_SIZE < TOTAL_BLOCK && off % BLOCK_SIZE + len <= BLOCK_SIZE
  }

  /** One round of inode_write: bmap with create, then memcpy. None is a failed assertion. */
  function Round(v: Vol, n: nat, off: nat, data: seq<u8>): Option<Vol> {
    if n !in v.inodes || !InBlock(off, |data|) then None else
    var p := BlockPath(off / BLOCK_SIZE);
    match Grow(v, n, p, 1)
    case None => None
    case Some(v1) =>
      var z := ZoneAt(v1, n, p);
      if z == 0 || z >= |v1.disk| || n !in v1.inodes then None
      else Some(Put(v1, n, z, off % BLOCK_SIZE, data, off + |data|))
  }

  /** What the first round of the loop writes, what is left, and where that goes. */
  function Now(off: nat, data: seq<u8>): seq<u8> {
    data[..Chunk(off, |data|)]
  }

  function Rest(off: nat, data: seq<u8>): (r: seq<u8>)
    ensures data != [] ==> |r| < |data|
  {
    data[Chunk(off, |data|)..]
  }

  function Next(off: nat, data: seq<u8>): nat {
    off + Chunk(off, |data|)
  }

  /** inode_write from offset off on. */
  function WriteAll(v: Vol, n: nat, off: nat, data: seq<u8>): Option<Vol>
    decreases |data|
  {
    if data == [] then Some(v) else
    var r := Round(v, n, off, Now(off, data));
    if r == None then None else WriteAll(r.value, n, Next(off, data), Rest(off, data))
  }

  /** Every block that holds a byte of [off, off + len) has a zone. */
  ghost predicate RangeMapped(v: Vol, n: nat, off: nat, len: nat) {
    forall o: nat :: off <= o < off + len ==> HasByte(v, n, o)
  }

  predicate HasByte(v: Vol, n: nat, off: nat) {
    off / BLOCK_SIZE < TOTAL_BLOCK && ZoneAt(v, n, BlockPath(off / BLOCK_SIZE)) != 0
  }

  function ByteOr0(v: Vol, n: nat, off: nat): u8 {
    if off / BLOCK_SIZE < TOTAL_BLOCK then ByteAt(v, n, off) else 0
  }

  function Bytes(v: Vol, n: nat, off: nat, len: nat): (s: seq<u8>)
    ensures |s| == len
  {
    seq<u8>(len, i requires 0 <= i < len => ByteOr0(v, n, off + i))
  }

  /** What inode_read delivers: EOF, a failed assertion (a hole), or bytes. */
  datatype ReadResult = Eof | Panic | Data(bytes: seq<u8>)

  ghost function Read(v: Vol, n: nat, len: nat, off: nat): ReadResult
    requires n in v.inodes
  {
    var size := v.inodes[n].size;
    if off >= size then Eof
    else if RangeMapped(v, n, off, Min(len, size - off)) then Data(Bytes(v, n, off, Min(len, size - off)))
    else Panic
  }

  // ----- bfree, inode_bfree and inode_truncate ------------------------------

  /** bfree, with one bitmap block: a zone above BLOCK_BITS is looked for in the next
      bitmap block, which is not there; a clear bit is a failed assertion. */
  function Bfree(v: Vol, z: nat): Option<Vol> {
    if v.first >= 1 && v.first - 1 <= z < |v.disk| && z <= BLOCK_BITS && z - (v.first - 1) < |v.zmap|
        && v.zmap[z - (v.first - 1)]
    then Some(Mark(v, z, false))
    else None
  }

  /** inode_bfree of an array entry that holds z. */
  function FreeTree(v: Vol, z: nat, level: nat): Option<Vol>
    decreases level, BLOCK_INDEXES + 1
  {
    if z == 0 then Some(v)
    else if level == 0 then Bfree(v, z)
    else if z >= |v.disk| then None
    else
      var r := FreeWords(v, v.disk[z], level, BLOCK_INDEXES);
      if r == None then None else Bfree(r.value, z)
  }

  /** The first k rounds of the loop of inode_bfree over an index block. */
  function FreeWords(v: Vol, b: Block, level: nat, k: nat): Option<Vol>
    requires level >= 1 && k <= BLOCK_INDEXES
    decreases level, k
  {
    if k == 0 then Some(v) else
    var r := FreeWords(v, b, level, k - 1);
    if r == None then None else FreeTree(r.value, Word(b, k - 1), level - 1)
  }

  /** Levels of index blocks under a zone slot. */
  function SlotLevel(i: nat): nat {
    if i < DIRECT_BLOCK then 0 else i - DIRECT_BLOCK + 1
  }

  /** The first k slots of inode_truncate. */
  function FreeSlots(v: Vol, n: nat, k: nat): Option<Vol> {
    if k == 0 then Some(v) else
    var r := FreeSlots(v, n, k - 1);
    if r == None || n !in r.value.inodes || k > |r.value.inodes[n].zone| then None else
    var i := r.value.inodes[n];
    var f := FreeTree(r.value, i.zone[k - 1], SlotLevel(k - 1));
    if f == None then None
    else Some(f.value.(inodes := f.value.inodes[n := i.(zone := i.zone[k - 1 := 0])]))
  }

  function Truncate(v: Vol, n: nat): Option<Vol> {
    var r := FreeSlots(v, n, ZONE_SLOTS);
    if r == None || n !in r.value.inodes then None
    else Some(r.value.(inodes := r.value.inodes[n := r.value.inodes[n].(size := 0)]))
  }
}
