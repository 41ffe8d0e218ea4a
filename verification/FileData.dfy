/** inode_write and inode_read: what is written is what is read, and nothing else moves. */
module FileData {
  import opened Wrappers
  import opened Volume
  import opened BlockMap

  /** Storing data in the zone of one data position moves no zone. */
  lemma {:induction false} PutAt(v: Vol, n: nat, p: seq<nat>, start: nat, data: seq<u8>, end: nat, m: nat, q: seq<nat>)
    requires Inv(v) && n in v.inodes && IsPath(p) && Level(p) == 0 && ZoneAt(v, n, p) != 0
    requires start + |data| <= BLOCK_SIZE && ZoneAt(v, n, p) < |v.disk|
    ensures ZoneAt(Put(v, n, ZoneAt(v, n, p), start, data, end), m, q) == ZoneAt(v, m, q)
    decreases |q|
  {
    if m !in v.inodes || !IsPath(q) || |q| <= 1 {
    } else {
      ParentIsPath(q);
      PutAt(v, n, p, start, data, end, m, Parent(q));
      assert Parent(q) != p;
      assert ZoneAt(v, m, Parent(q)) != ZoneAt(v, n, p);
    }
  }

  /** v' has the zones of v where they were. */
  ghost predicate SameZones(v: Vol, v': Vol) {
    && v'.first == v.first && |v'.disk| == |v.disk| && v'.inodes.Keys == v.inodes.Keys && v'.zmap == v.zmap
    && forall m, q :: ZoneAt(v', m, q) == ZoneAt(v, m, q)
  }

  /** The data of one position of file n is patched, and all other data kept. */
  ghost predicate Patched(v: Vol, v': Vol, n: nat, p: seq<nat>, start: nat, data: seq<u8>) {
    && start + |data| <= BLOCK_SIZE
    && forall m, q :: IsPath(q) && Level(q) == 0 ==>
                        DataAt(v', m, q) ==
                        if m == n && q == p then Patch(DataAt(v, m, q), start, data) else DataAt(v, m, q)
  }

  lemma {:induction false} PutKeepsZones(v: Vol, n: nat, p: seq<nat>, start: nat, data: seq<u8>, end: nat)
    requires Inv(v) && n in v.inodes && IsPath(p) && Level(p) == 0 && ZoneAt(v, n, p) != 0
    requires start + |data| <= BLOCK_SIZE && ZoneAt(v, n, p) < |v.disk|
    ensures SameZones(v, Put(v, n, ZoneAt(v, n, p), start, data, end))
  {
    forall m, q
      ensures ZoneAt(Put(v, n, ZoneAt(v, n, p), start, data, end), m, q) == ZoneAt(v, m, q)
    {
      PutAt(v, n, p, start, data, end, m, q);
    }
  }

  lemma SameZonesKeepInv(v: Vol, v': Vol)
    requires Inv(v) && SameZones(v, v') && forall m :: m in v.inodes ==> v'.inodes[m].zone == v.inodes[m].zone
    ensures Inv(v')
  {
    forall m, q | ZoneAt(v', m, q) != 0
      ensures Used(v', ZoneAt(v', m, q))
    {
      assert Used(v, ZoneAt(v, m, q));
    }
  }

  lemma {:induction false} PutKeepsInv(v: Vol, n: nat, p: seq<nat>, start: nat, data: seq<u8>, end: nat)
    requires Inv(v) && FreeZero(v) && n in v.inodes && IsPath(p) && Level(p) == 0 && ZoneAt(v, n, p) != 0
    requires start + |data| <= BLOCK_SIZE && ZoneAt(v, n, p) < |v.disk|
    ensures Inv(Put(v, n, ZoneAt(v, n, p), start, data, end))
    ensures FreeZero(Put(v, n, ZoneAt(v, n, p), start, data, end))
  {
    PutKeepsZones(v, n, p, start, data, end);
    SameZonesKeepInv(v, Put(v, n, ZoneAt(v, n, p), start, data, end));
    assert Used(v, ZoneAt(v, n, p));
  }

  lemma {:induction false} PutPatches(v: Vol, n: nat, p: seq<nat>, start: nat, data: seq<u8>, end: nat)
    requires Inv(v) && n in v.inodes && IsPath(p) && Level(p) == 0 && ZoneAt(v, n, p) != 0
    requires start + |data| <= BLOCK_SIZE && ZoneAt(v, n, p) < |v.disk|
    ensures Patched(v, Put(v, n, ZoneAt(v, n, p), start, data, end), n, p, start, data)
  {
    var v' := Put(v, n, ZoneAt(v, n, p), start, data, end);
    forall m, q | IsPath(q) && Level(q) == 0
      ensures DataAt(v', m, q) == if m == n && q == p then Patch(DataAt(v, m, q), start, data) else DataAt(v, m, q)
    {
      PutAt(v, n, p, start, data, end, m, q);
    }
  }

  /** What a write leaves alone: no zone is lost or moved, no other file gets one. */
  ghost predicate Kept(v: Vol, v': Vol, n: nat) {
    && v'.first == v.first && |v'.disk| == |v.disk| && v'.inodes.Keys == v.inodes.Keys
    && (forall m, q :: ZoneAt(v, m, q) != 0 ==> ZoneAt(v', m, q) == ZoneAt(v, m, q))
    && (forall m, q :: m != n ==> ZoneAt(v', m, q) == ZoneAt(v, m, q))
  }

  /** Byte o of file m, after data was written at off in file n. */
  function ByteAfter(v: Vol, n: nat, off: nat, data: seq<u8>, m: nat, o: nat): u8 {
    if m == n && off <= o < off + |data| then data[o - off] else ByteOr0(v, m, o)
  }

  ghost predicate BytesAfter(v: Vol, v': Vol, n: nat, off: nat, data: seq<u8>) {
    forall m, o: nat :: ByteOr0(v', m, o) == ByteAfter(v, n, off, data, m, o)
  }

  function SizeAfter(v: Vol, n: nat, end: nat, m: nat): nat
    requires m in v.inodes
  {
    if m == n && end > v.inodes[m].size then end else v.inodes[m].size
  }

  ghost predicate SizesAfter(v: Vol, v': Vol, n: nat, end: nat) {
    v'.inodes.Keys == v.inodes.Keys && forall m :: m in v.inodes ==> v'.inodes[m].size == SizeAfter(v, n, end, m)
  }

  /** Data was written at off in file n: its zones, its bytes and all others, the sizes. */
  ghost predicate Written(v: Vol, v': Vol, n: nat, off: nat, data: seq<u8>) {
    && Inv(v') && FreeZero(v') && Kept(v, v', n) && RangeMapped(v', n, off, |data|)
    && BytesAfter(v, v', n, off, data) && SizesAfter(v, v', n, if data == [] then 0 else off + |data|)
  }

  /** Offsets o and off are in one block, or o is outside a chunk of the block of off. */
  lemma BlockOffsets(off: nat, len: nat, o: nat)
    requires off % BLOCK_SIZE + len <= BLOCK_SIZE
    ensures o / BLOCK_SIZE == off / BLOCK_SIZE ==> o - off == o % BLOCK_SIZE - off % BLOCK_SIZE
    ensures o / BLOCK_SIZE != off / BLOCK_SIZE ==> !(off <= o < off + len)
  {
  }

  lemma PatchByte(b: Block, start: nat, data: seq<u8>, i: nat)
    requires start + |data| <= BLOCK_SIZE && i < BLOCK_SIZE
    ensures Patch(b, start, data)[i] == if start <= i < start + |data| then data[i - start] else b[i]
  {
  }

  lemma PatchedByte(v: Vol, v': Vol, n: nat, off: nat, data: seq<u8>, m: nat, o: nat)
    requires InBlock(off, |data|)
    requires Patched(v, v', n, BlockPath(off / BLOCK_SIZE), off % BLOCK_SIZE, data)
    ensures ByteOr0(v', m, o) == ByteAfter(v, n, off, data, m, o)
  {
    var b, c := o / BLOCK_SIZE, off / BLOCK_SIZE;
    BlockOffsets(off, |data|, o);
    if b < TOTAL_BLOCK {
      PatchByte(DataAt(v, m, BlockPath(b)), off % BLOCK_SIZE, data, o % BLOCK_SIZE);
      if BlockPath(b) == BlockPath(c) {
        BlockPathInjective(b, c);
      }
    }
  }

  lemma GrownBytes(v: Vol, v': Vol, n: nat, p: seq<nat>, m: nat, o: nat)
    requires Grown(v, v', n, p)
    ensures ByteOr0(v', m, o) == ByteOr0(v, m, o)
  {
  }

  /** The state in the middle of a round. */
  lemma {:induction false} RoundGrows(v: Vol, n: nat, off: nat)
    requires Inv(v) && FreeZero(v) && n in v.inodes && off / BLOCK_SIZE < TOTAL_BLOCK
    requires Grow(v, n, BlockPath(off / BLOCK_SIZE), 1).Some?
    ensures var v1 := Grow(v, n, BlockPath(off / BLOCK_SIZE), 1).value;
            && Grown(v, v1, n, BlockPath(off / BLOCK_SIZE))
            && 0 < ZoneAt(v1, n, BlockPath(off / BLOCK_SIZE)) < |v1.disk| && n in v1.inodes
  {
    var p := BlockPath(off / BLOCK_SIZE);
    GrowKeeps(v, n, p, 1);
    var v1 := Grow(v, n, p, 1).value;
    assert Used(v1, ZoneAt(v1, n, p));
  }

  lemma RoundKeeps(v: Vol, v1: Vol, v2: Vol, n: nat, p: seq<nat>)
    requires Grown(v, v1, n, p) && SameZones(v1, v2)
    ensures Kept(v, v2, n)
  {
  }

  lemma RoundMaps(v: Vol, n: nat, off: nat, len: nat)
    requires InBlock(off, len)
    requires ZoneAt(v, n, BlockPath(off / BLOCK_SIZE)) != 0
    ensures RangeMapped(v, n, off, len)
  {
    forall o: nat | off <= o < off + len
      ensures HasByte(v, n, o)
    {
      assert o / BLOCK_SIZE == off / BLOCK_SIZE;
    }
  }

  lemma RoundBytes(v: Vol, v1: Vol, v2: Vol, n: nat, off: nat, data: seq<u8>)
    requires InBlock(off, |data|)
    requires Grown(v, v1, n, BlockPath(off / BLOCK_SIZE))
    requires Patched(v1, v2, n, BlockPath(off / BLOCK_SIZE), off % BLOCK_SIZE, data)
    ensures BytesAfter(v, v2, n, off, data)
  {
    forall m, o: nat
      ensures ByteOr0(v2, m, o) == ByteAfter(v, n, off, data, m, o)
    {
      PatchedByte(v1, v2, n, off, data, m, o);
      GrownBytes(v, v1, n, BlockPath(off / BLOCK_SIZE), m, o);
    }
  }

  lemma RoundSizes(v: Vol, v1: Vol, n: nat, p: seq<nat>, z: nat, start: nat, data: seq<u8>, end: nat)
    requires Grown(v, v1, n, p) && n in v1.inodes && z < |v1.disk| && start + |data| <= BLOCK_SIZE
    ensures SizesAfter(v, Put(v1, n, z, start, data, end), n, end)
  {
  }

  /** One round writes its chunk. */
  lemma {:induction false} RoundWrites(v: Vol, n: nat, off: nat, data: seq<u8>, v2: Vol)
    requires Inv(v) && FreeZero(v) && data != [] && Round(v, n, off, data) == Some(v2)
    ensures Written(v, v2, n, off, data)
  {
    var p := BlockPath(off / BLOCK_SIZE);
    RoundGrows(v, n, off);
    var v1 := Grow(v, n, p, 1).value;
    PutWrites(v, v1, n, off, p, data, v2);
  }

  lemma {:induction false} PutWrites(v: Vol, v1: Vol, n: nat, off: nat, p: seq<nat>, data: seq<u8>, v2: Vol)
    requires data != [] && InBlock(off, |data|)
    requires p == BlockPath(off / BLOCK_SIZE) && Grown(v, v1, n, p)
    requires n in v1.inodes && 0 < ZoneAt(v1, n, p) < |v1.disk|
    requires v2 == Put(v1, n, ZoneAt(v1, n, p), off % BLOCK_SIZE, data, off + |data|)
    ensures Written(v, v2, n, off, data)
  {
    var start, end := off % BLOCK_SIZE, off + |data|;
    var z := ZoneAt(v1, n, p);
    assert v2 == Put(v1, n, z, start, data, end);
    PutKeepsInv(v1, n, p, start, data, end);
    assert Kept(v, v2, n) && RangeMapped(v2, n, off, |data|) by {
      PutKeepsZones(v1, n, p, start, data, end);
      RoundKeeps(v, v1, v2, n, p);
      RoundMaps(v2, n, off, |data|);
    }
    assert BytesAfter(v, v2, n, off, data) by {
      PutPatches(v1, n, p, start, data, end);
      RoundBytes(v, v1, v2, n, off, data);
    }
    RoundSizes(v, v1, n, p, z, start, data, end);
  }

  lemma RangesJoin(v: Vol, v': Vol, n: nat, off: nat, a: nat, b: nat)
    requires Kept(v, v', n) && RangeMapped(v, n, off, a) && RangeMapped(v', n, off + a, b)
    ensures RangeMapped(v', n, off, a + b)
  {
    forall o: nat | off <= o < off + (a + b)
      ensures HasByte(v', n, o)
    {
      if o < off + a {
        assert HasByte(v, n, o);
      }
    }
  }

  lemma BytesJoin(v: Vol, v1: Vol, v2: Vol, n: nat, off: nat, a: seq<u8>, b: seq<u8>)
    requires BytesAfter(v, v1, n, off, a) && BytesAfter(v1, v2, n, off + |a|, b)
    ensures BytesAfter(v, v2, n, off, a + b)
  {
    forall m, o: nat
      ensures ByteOr0(v2, m, o) == ByteAfter(v, n, off, a + b, m, o)
    {
      assert ByteOr0(v2, m, o) == ByteAfter(v1, n, off + |a|, b, m, o);
      assert ByteOr0(v1, m, o) == ByteAfter(v, n, off, a, m, o);
    }
  }

  lemma {:induction false} WrittenAgain(v: Vol, v1: Vol, v2: Vol, n: nat, off: nat, next: nat, a: seq<u8>, b: seq<u8>)
    requires next == off + |a| && a != []
    requires Written(v, v1, n, off, a) && Written(v1, v2, n, next, b)
    ensures Written(v, v2, n, off, a + b)
  {
    RangesJoin(v1, v2, n, off, |a|, |b|);
    BytesJoin(v, v1, v2, n, off, a, b);
    KeptAgain(v, v1, v2, n);
  }

  lemma KeptAgain(v: Vol, v1: Vol, v2: Vol, n: nat)
    requires Kept(v, v1, n) && Kept(v1, v2, n)
    ensures Kept(v, v2, n)
  {
  }

  lemma NowRest(off: nat, data: seq<u8>)
    requires data != []
    ensures Now(off, data) != [] && Next(off, data) == off + |Now(off, data)|
        && data == Now(off, data) + Rest(off, data)
  {
  }

  /** inode_write puts the data there, keeps every other byte of every file, makes the
      size reach the end of the data, and keeps the volume sound. */
  lemma {:induction false} WriteWrites(v: Vol, n: nat, off: nat, data: seq<u8>, w: Vol)
    requires Inv(v) && FreeZero(v) && n in v.inodes && WriteAll(v, n, off, data) == Some(w)
    ensures Written(v, w, n, off, data)
    decreases |data|
  {
    if data == [] {
    } else {
      var v1 := Round(v, n, off, Now(off, data)).value;
      RoundWrites(v, n, off, Now(off, data), v1);
      WriteWrites(v1, n, Next(off, data), Rest(off, data), w);
      NowRest(off, data);
      WrittenAgain(v, v1, w, n, off, Next(off, data), Now(off, data), Rest(off, data));
    }
  }

  /** Reading the range that was just written returns what was written. */
  lemma {:induction false} ReadAfterWrite(v: Vol, n: nat, off: nat, data: seq<u8>, w: Vol)
    requires Inv(v) && FreeZero(v) && n in v.inodes && data != [] && WriteAll(v, n, off, data) == Some(w)
    ensures n in w.inodes && Read(w, n, |data|, off) == Data(data)
  {
    WriteWrites(v, n, off, data, w);
    forall i: nat | i < |data|
      ensures ByteOr0(w, n, off + i) == data[i]
    {
      assert ByteOr0(w, n, off + i) == ByteAfter(v, n, off, data, n, off + i);
    }
    assert Bytes(w, n, off, |data|) == data;
  }

  // ----- Enough room --------------------------------------------------------

  /** The rounds of the loop, one for each block touched. */
  function Rounds(off: nat, len: nat): nat
    decreases len
  {
    if len == 0 then 0 else 1 + Rounds(off + Chunk(off, len), len - Chunk(off, len))
  }

  lemma ChunkInBlock(off: nat, left: nat)
    requires left > 0 && off + left <= TOTAL_BLOCK * BLOCK_SIZE
    ensures InBlock(off, Chunk(off, left))
  {
  }

  lemma {:induction false} RoundSucceeds(v: Vol, n: nat, off: nat, data: seq<u8>) returns (v2: Vol)
    requires Inv(v) && FreeZero(v) && n in v.inodes && InBlock(off, |data|) && |FreeSet(v)| >= 3
    ensures Round(v, n, off, data) == Some(v2) && |FreeSet(v2)| >= |FreeSet(v)| - 3
  {
    var p := BlockPath(off / BLOCK_SIZE);
    GrowSucceeds(v, n, p, 1);
    RoundGrows(v, n, off);
    var v1 := Grow(v, n, p, 1).value;
    v2 := Round(v, n, off, data).value;
    SameFree(v1, v2);
  }

  lemma SameFree(v: Vol, v': Vol)
    requires v'.first == v.first && |v'.disk| == |v.disk| && v'.zmap == v.zmap
    ensures FreeSet(v') == FreeSet(v)
  {
    assert forall z :: Unused(v', z) <==> Unused(v, z);
  }

  /** With three unused zones for every block touched, no assertion of inode_write fails
      below the largest offset. */
  lemma {:induction false} WriteSucceeds(v: Vol, n: nat, off: nat, data: seq<u8>)
    requires Inv(v) && FreeZero(v) && n in v.inodes && off + |data| <= TOTAL_BLOCK * BLOCK_SIZE
    requires |FreeSet(v)| >= 3 * Rounds(off, |data|)
    ensures WriteAll(v, n, off, data).Some?
    decreases |data|
  {
    if data == [] {
    } else {
      ChunkInBlock(off, |data|);
      assert Rounds(off, |data|) == 1 + Rounds(Next(off, data), |Rest(off, data)|);
      var v1 := RoundSucceeds(v, n, off, Now(off, data));
      RoundWrites(v, n, off, Now(off, data), v1);
      WriteSucceeds(v1, n, Next(off, data), Rest(off, data));
    }
  }

  // ----- Runs of writes to any files ----------------------------------------

  datatype Writing = Writing(n: nat, off: nat, data: seq<u8>)

  /** inode_write after inode_write; None if an assertion fails on the way. */
  function WriteRun(v: Vol, ws: seq<Writing>): Option<Vol> {
    if ws == [] then Some(v) else
    var r := WriteRun(v, ws[..|ws| - 1]);
    var w := ws[|ws| - 1];
    if r == None || w.n !in r.value.inodes then None else WriteAll(r.value, w.n, w.off, w.data)
  }

  /** The byte that was last written there, or the one that was there before. */
  function LastWritten(v: Vol, ws: seq<Writing>, m: nat, o: nat): u8 {
    if ws == [] then ByteOr0(v, m, o) else
    var w := ws[|ws| - 1];
    if m == w.n && w.off <= o < w.off + |w.data| then w.data[o - w.off] else LastWritten(v, ws[..|ws| - 1], m, o)
  }

  /** Over every run of writes the volume stays sound, no zone of a file is lost or moved,
      and every byte of every file is the one last written there. */
  lemma {:induction false} RunIsLastWritten(v: Vol, ws: seq<Writing>, e: Vol)
    requires Inv(v) && FreeZero(v) && WriteRun(v, ws) == Some(e)
    ensures Inv(e) && FreeZero(e) && e.inodes.Keys == v.inodes.Keys
    ensures forall m, q :: ZoneAt(v, m, q) != 0 ==> ZoneAt(e, m, q) == ZoneAt(v, m, q)
    ensures forall m, o :: ByteOr0(e, m, o) == LastWritten(v, ws, m, o)
  {
    if ws == [] {
    } else {
      var w, u := ws[|ws| - 1], WriteRun(v, ws[..|ws| - 1]).value;
      RunIsLastWritten(v, ws[..|ws| - 1], u);
      WriteWrites(u, w.n, w.off, w.data, e);
      forall m, o: nat
        ensures ByteOr0(e, m, o) == LastWritten(v, ws, m, o)
      {
        assert ByteOr0(e, m, o) == ByteAfter(u, w.n, w.off, w.data, m, o);
      }
    }
  }
}
