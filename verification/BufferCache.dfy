/** The buffer cache (src/kernel/buffer.c): blocks of the devices kept in buffers, found
    through 31 hash chains and recycled from a free list. */
module BufferCache {
  import opened Wrappers
  import Volume

  type Block = Volume.Block

  const HASH_COUNT: nat := 31

  type u32 = x: int | 0 <= x < 0x1_0000_0000

  datatype Key = Key(dev: u32, block: u32)

  // ----- Sectors ------------------------------------------------------------

  const SECTOR_SIZE: nat := 512
  const BLOCK_SECS: nat := 2

  function Sector(b: Block, s: nat): seq<Volume.u8> {
    if s == 0 then b[..SECTOR_SIZE] else b[SECTOR_SIZE..]
  }

  /** Block d with sector s of block b. */
  function WithSector(d: Block, b: Block, s: nat): Block {
    if s == 0 then b[..SECTOR_SIZE] + d[SECTOR_SIZE..] else d[..SECTOR_SIZE] + b[SECTOR_SIZE..]
  }

  /** A sector that is sent covers its 512 bytes, and no other. */
  lemma SectorBytes(d: Block, b: Block, s: nat, i: nat)
    requires s < BLOCK_SECS && i < Volume.BLOCK_SIZE
    ensures WithSector(d, b, s)[i] == if 512 * s <= i < 512 * s + 512 then b[i] else d[i]
    ensures i < 512 ==> Sector(b, s)[i] == b[512 * s + i]
  {
  }

  lemma SectorsMakeBlock(a: Block, b: Block)
    ensures a == b <==> forall s :: 0 <= s < BLOCK_SECS ==> Sector(a, s) == Sector(b, s)
  {
    assert a == Sector(a, 0) + Sector(a, 1) && b == Sector(b, 0) + Sector(b, 1);
  }

  lemma WithSectorHas(d: Block, b: Block, s: nat, t: nat)
    requires s < BLOCK_SECS && t < BLOCK_SECS
    ensures Sector(WithSector(d, b, s), t) == Sector(if t == s then b else d, t)
  {
  }

  // ----- Buffers ------------------------------------------------------------

  /** A call of bwrite that is under way: it has given the device so many sectors. release
      tells that brelse called it. */
  datatype Writing = Writing(sent: nat, release: bool)

  /** writes lists the calls of bwrite on the buffer that are under way. */
  datatype Buf = Buf(key: Key, count: nat, dirty: bool, valid: bool, data: Block, writes: seq<Writing>)

  /** Buffers are named by the order in which get_new_buffer carved them out of the pool,
      which holds capacity of them. The front of a list is its most recent entry. history
      lists the releases that made a count zero, oldest first. */
  datatype Cache = Cache(bufs: seq<Buf>, chains: seq<seq<nat>>, free: seq<nat>, capacity: nat,
                         disk: map<Key, Block>, history: seq<nat>)

  function Hash(k: Key): (h: nat)
    ensures h < HASH_COUNT
  {
    ((k.dev as bv32 ^ k.block as bv32) as int) % HASH_COUNT
  }

  // ----- Lists --------------------------------------------------------------

  ghost predicate NoDup(s: seq<nat>) {
    forall i, j :: 0 <= i < j < |s| ==> s[i] != s[j]
  }

  /** The list without x. */
  function Remove(s: seq<nat>, x: nat): seq<nat> {
    if s == [] then [] else if s[0] == x then s[1..] else [s[0]] + Remove(s[1..], x)
  }

  lemma PushKeeps(s: seq<nat>, x: nat)
    requires NoDup(s) && x !in s
    ensures NoDup([x] + s) && forall y :: y in [x] + s <==> y == x || y in s
  {
  }

  lemma {:induction false} RemoveKeeps(s: seq<nat>, x: nat)
    requires NoDup(s)
    ensures NoDup(Remove(s, x)) && forall y :: y in Remove(s, x) <==> y in s && y != x
  {
    if s == [] {
    } else {
      var t := s[1..];
      assert s == [s[0]] + t;
      assert NoDup(t) by {
        forall i, j | 0 <= i < j < |t|
          ensures t[i] != t[j]
        {
          assert s[i + 1] != s[j + 1];
        }
      }
      assert s[0] !in t;
      RemoveKeeps(t, x);
      if s[0] != x {
        PushKeeps(Remove(t, x), s[0]);
      }
    }
  }

  lemma {:induction false} RemoveLast(s: seq<nat>)
    requires s != [] && NoDup(s)
    ensures Remove(s, s[|s| - 1]) == s[..|s| - 1]
  {
    if |s| <= 1 {
    } else {
      var t := s[1..];
      assert t[|t| - 1] == s[|s| - 1];
      RemoveLast(t);
      assert [s[0]] + t[..|t| - 1] == s[..|s| - 1];
    }
  }

  /** The buffer of block k in a chain. */
  function FindIn(bufs: seq<Buf>, chain: seq<nat>, k: Key): Option<nat> {
    if chain == [] then None
    else if chain[0] < |bufs| && bufs[chain[0]].key == k then Some(chain[0])
    else FindIn(bufs, chain[1..], k)
  }

  lemma {:induction false} FindInFinds(bufs: seq<Buf>, chain: seq<nat>, k: Key)
    ensures match FindIn(bufs, chain, k)
            case Some(id) => id in chain && id < |bufs| && bufs[id].key == k
            case None => forall id :: id in chain && id < |bufs| ==> bufs[id].key != k
  {
    if chain == [] {
    } else {
      assert chain == [chain[0]] + chain[1..];
      FindInFinds(bufs, chain[1..], k);
    }
  }

  // ----- The invariant ------------------------------------------------------

  /** No two buffers hold one block. */
  ghost predicate KeysDiffer(bufs: seq<Buf>) {
    forall i, j :: 0 <= i < j < |bufs| ==> bufs[i].key != bufs[j].key
  }

  predicate InChain(chains: seq<seq<nat>>, h: nat, id: nat) {
    h < |chains| && id in chains[h]
  }

  predicate HashesTo(bufs: seq<Buf>, h: nat, id: nat) {
    id < |bufs| && Hash(bufs[id].key) == h
  }

  /** A buffer is in the chain of its hash, once, and in no other. */
  ghost predicate Chained(bufs: seq<Buf>, chains: seq<seq<nat>>) {
    && |chains| == HASH_COUNT
    && (forall h :: 0 <= h < |chains| ==> NoDup(chains[h]))
    && (forall h, id :: InChain(chains, h, id) <==> HashesTo(bufs, h, id))
  }

  /** A buffer is on the free list, once, exactly when nobody holds it. */
  ghost predicate FreeListed(bufs: seq<Buf>, free: seq<nat>) {
    NoDup(free) && forall id: nat :: id in free <==> id < |bufs| && bufs[id].count == 0
  }

  /** Sector s of the buffer is still to reach the device: a write under way has not sent
      it yet, or there is none and the buffer is dirty. */
  predicate Pending(b: Buf, s: nat) {
    if b.writes == [] then b.dirty else exists w :: 0 <= w < |b.writes| && b.writes[w].sent <= s
  }

  /** Nothing that was put into a valid buffer is lost: each sector is pending, or on the
      device. */
  ghost predicate Kept(b: Buf, d: Block) {
    b.valid ==> forall s :: 0 <= s < BLOCK_SECS ==> Sector(b.data, s) == Sector(d, s) || Pending(b, s)
  }

  /** Only held buffers are dirty; every write under way holds the buffer. */
  ghost predicate Counts(b: Buf) {
    && (b.dirty ==> b.count > 0 && b.valid)
    && |b.writes| <= b.count && (b.writes != [] ==> b.valid)
    && forall w :: 0 <= w < |b.writes| ==> b.writes[w].sent <= BLOCK_SECS
  }

  ghost predicate Agrees(bufs: seq<Buf>, disk: map<Key, Block>) {
    forall id :: 0 <= id < |bufs| ==> bufs[id].key in disk && Counts(bufs[id]) && Kept(bufs[id], disk[bufs[id].key])
  }

  /** The position of the last release of a buffer, from 1 on; 0 if there was none. */
  function LastRelease(history: seq<nat>, id: nat): nat {
    if history == [] then 0
    else if history[|history| - 1] == id then |history|
    else LastRelease(history[..|history| - 1], id)
  }

  /** The free list is in the order of release. */
  ghost predicate InOrder(free: seq<nat>, history: seq<nat>) {
    forall i, j :: 0 <= i < j < |free| ==> LastRelease(history, free[i]) > LastRelease(history, free[j])
  }

  ghost predicate Inv(c: Cache) {
    match c
    case Cache(bufs, chains, free, capacity, disk, history) =>
      && KeysDiffer(bufs) && Chained(bufs, chains) && FreeListed(bufs, free)
      && Agrees(bufs, disk) && InOrder(free, history) && |bufs| <= capacity
  }

  // ----- The flat disk ------------------------------------------------------

  /** What block k holds: the valid buffer of it if there is one, else the device. */
  ghost predicate Caches(c: Cache, id: nat, k: Key) {
    id < |c.bufs| && c.bufs[id].key == k && c.bufs[id].valid
  }

  ghost function ViewAt(c: Cache, k: Key): Block
    requires k in c.disk
  {
    if id: nat :| Caches(c, id, k) then c.bufs[id].data else c.disk[k]
  }

  ghost function View(c: Cache): map<Key, Block> {
    map k | k in c.disk :: ViewAt(c, k)
  }

  // ----- Operations ---------------------------------------------------------

  function Lookup(c: Cache, k: Key): Option<nat>
    requires |c.chains| == HASH_COUNT
  {
    FindIn(c.bufs, c.chains[Hash(k)], k)
  }

  function Held(b: Buf): Buf {
    b.(count := b.count + 1)
  }

  /** A buffer of which getblk has just made the buffer of block k. */
  function NewBuf(k: Key, data: Block): Buf {
    Buf(k, 1, false, false, data, [])
  }

  function Located(chains: seq<seq<nat>>, id: nat, k: Key): seq<seq<nat>>
    requires |chains| == HASH_COUNT
  {
    chains[Hash(k) := [id] + chains[Hash(k)]]
  }

  function Unlocated(chains: seq<seq<nat>>, id: nat, k: Key): seq<seq<nat>>
    requires |chains| == HASH_COUNT
  {
    chains[Hash(k) := Remove(chains[Hash(k)], id)]
  }

  datatype Got = Got(cache: Cache, id: nat) | Waits

  /** getblk. Waits is the case in which the caller sleeps until a buffer is released. */
  function Getblk(c: Cache, k: Key): Got
    requires |c.chains| == HASH_COUNT
  {
    match Lookup(c, k)
    case Some(id) =>
      if id < |c.bufs| then Got(c.(bufs := c.bufs[id := Held(c.bufs[id])], free := Remove(c.free, id)), id)
      else Waits
    case None =>
      if |c.bufs| < c.capacity then
        var id := |c.bufs|;
        Got(c.(bufs := c.bufs + [NewBuf(k, Volume.ZeroBlock())], chains := Located(c.chains, id, k)), id)
      else if c.free != [] && c.free[|c.free| - 1] < |c.bufs| then
        var id := c.free[|c.free| - 1];
        var b := c.bufs[id];
        Got(c.(bufs := c.bufs[id := NewBuf(k, b.data)], free := c.free[..|c.free| - 1],
               chains := Located(Unlocated(c.chains, id, b.key), id, k)), id)
      else Waits
  }

  /** The part of bread after getblk. */
  function Load(c: Cache, id: nat): Cache
    requires id < |c.bufs| && c.bufs[id].key in c.disk
  {
    var b := c.bufs[id];
    if b.valid then c else c.(bufs := c.bufs[id := b.(dirty := false, valid := true, data := c.disk[b.key])])
  }

  /** A caller changes the data of a buffer it holds and marks it dirty. */
  function Edit(c: Cache, id: nat, data: Block): Cache
    requires id < |c.bufs|
  {
    c.(bufs := c.bufs[id := c.bufs[id].(dirty := true, data := data)])
  }

  /** bwrite up to device_request; a buffer that is not dirty is left alone. */
  function Begin(c: Cache, id: nat, release: bool): Cache
    requires id < |c.bufs|
  {
    var b := c.bufs[id];
    if b.dirty then c.(bufs := c.bufs[id := b.(writes := b.writes + [Writing(0, release)])]) else c
  }

  predicate UnderWay(c: Cache, id: nat, w: nat) {
    id < |c.bufs| && w < |c.bufs[id].writes| && c.bufs[id].key in c.disk
  }

  /** The device takes the next sector as the buffer holds it now; after it, the writer sleeps. */
  function Transfer(c: Cache, id: nat, w: nat): Cache
    requires UnderWay(c, id, w)
  {
    var b := c.bufs[id];
    var s := b.writes[w].sent;
    c.(bufs := c.bufs[id := b.(writes := b.writes[w := b.writes[w].(sent := s + 1)])],
       disk := c.disk[b.key := WithSector(c.disk[b.key], b.data, s)])
  }

  function Without<T>(s: seq<T>, i: nat): seq<T>
    requires i < |s|
  {
    s[..i] + s[i + 1..]
  }

  /** The rest of bwrite. */
  function Written(b: Buf, w: nat): Buf
    requires w < |b.writes|
  {
    b.(dirty := false, valid := true, writes := Without(b.writes, w))
  }

  /** The rest of brelse. */
  function Drop(c: Cache, id: nat): Cache
    requires id < |c.bufs| && c.bufs[id].count > 0
  {
    var b := c.bufs[id];
    var d := c.(bufs := c.bufs[id := b.(count := b.count - 1)]);
    if b.count > 1 then d else d.(free := [id] + d.free, history := d.history + [id])
  }

  /** A write ends, and the brelse that called it, if one did. */
  function End(c: Cache, id: nat, w: nat): Cache
    requires UnderWay(c, id, w) && c.bufs[id].count > 0
  {
    var d := c.(bufs := c.bufs[id := Written(c.bufs[id], w)]);
    if c.bufs[id].writes[w].release then Drop(d, id) else d
  }

  /** brelse up to device_request, and all of it for a buffer that is not dirty. */
  function Release(c: Cache, id: nat): Cache
    requires id < |c.bufs| && c.bufs[id].count > 0
  {
    if c.bufs[id].dirty then Begin(c, id, true) else Drop(c, id)
  }
}
