/** What inode_read delivers at every offset and length, at the end of a file as before it, and
    after any run of writes (src/fs/inode.c). */
module FileRead {
  import opened Wrappers
  import opened Volume
  import opened FileData
  import opened Truncation

  /** Every read: the end of the file, a hole, or as many of the bytes from off on as were asked for
      and as the file has. */
  lemma ReadIs(v: Vol, n: nat, len: nat, off: nat)
    requires n in v.inodes
    ensures Read(v, n, len, off) == Eof <==> off >= v.inodes[n].size
    ensures Read(v, n, len, off) == Panic <==>
            exists o: nat :: off <= o < off + len && o < v.inodes[n].size && !HasByte(v, n, o)
    ensures Read(v, n, len, off).Data? ==>
              var s, size := Read(v, n, len, off).bytes, v.inodes[n].size;
              && |s| <= len && off + |s| <= size && (|s| == len || off + |s| == size)
              && forall o: nat :: off <= o < off + |s| ==> HasByte(v, n, o) && s[o - off] == ByteAt(v, n, o)
  {
    var size := v.inodes[n].size;
    var total := if off < size then Min(len, size - off) else 0;
    forall o: nat | off <= o < off + total
      ensures Bytes(v, n, off, total)[o - off] == ByteOr0(v, n, o)
    {
    }
  }

  // ----- After a run of writes ----------------------------------------------

  predicate Covers(w: Writing, m: nat, o: nat) {
    w.n == m && w.off <= o < w.off + |w.data|
  }

  predicate WrittenIn(ws: seq<Writing>, m: nat, o: nat) {
    exists i :: 0 <= i < |ws| && Covers(ws[i], m, o)
  }

  /** One past the last byte that the file had or was given. */
  function EndOf(v: Vol, ws: seq<Writing>, m: nat): nat
    requires m in v.inodes
  {
    if ws == [] then v.inodes[m].size else
    var w, e := ws[|ws| - 1], EndOf(v, ws[..|ws| - 1], m);
    if w.n == m && w.data != [] && w.off + |w.data| > e then w.off + |w.data| else e
  }

  /** It is the old size, or the end of one of the writes, and none of these is larger. */
  lemma {:induction false} EndIsLargest(v: Vol, ws: seq<Writing>, m: nat)
    requires m in v.inodes
    ensures EndOf(v, ws, m) >= v.inodes[m].size
    ensures forall o: nat :: WrittenIn(ws, m, o) ==> o < EndOf(v, ws, m)
    ensures EndOf(v, ws, m) == v.inodes[m].size || WrittenIn(ws, m, EndOf(v, ws, m) - 1)
  {
    if ws == [] {
    } else {
      var r, w := ws[..|ws| - 1], ws[|ws| - 1];
      EndIsLargest(v, r, m);
      forall o: nat
        ensures WrittenIn(ws, m, o) <==> WrittenIn(r, m, o) || Covers(w, m, o)
      {
        WrittenSplits(ws, m, o);
      }
    }
  }

  lemma WrittenSplits(ws: seq<Writing>, m: nat, o: nat)
    requires ws != []
    ensures WrittenIn(ws, m, o) <==> WrittenIn(ws[..|ws| - 1], m, o) || Covers(ws[|ws| - 1], m, o)
  {
    var r := ws[..|ws| - 1];
    if WrittenIn(r, m, o) {
      var i :| 0 <= i < |r| && Covers(r[i], m, o);
      assert Covers(ws[i], m, o);
    }
    if WrittenIn(ws, m, o) && !Covers(ws[|ws| - 1], m, o) {
      var i :| 0 <= i < |ws| && Covers(ws[i], m, o);
      assert Covers(r[i], m, o);
    }
  }

  /** A run of writes leaves each file with that end, and with a zone for every byte that had one or
      was written. */
  lemma {:induction false} RunReaches(v: Vol, ws: seq<Writing>, e: Vol, m: nat)
    requires Inv(v) && FreeZero(v) && WriteRun(v, ws) == Some(e) && m in v.inodes
    ensures m in e.inodes && e.inodes[m].size == EndOf(v, ws, m)
    ensures forall o: nat :: HasByte(v, m, o) || WrittenIn(ws, m, o) ==> HasByte(e, m, o)
  {
    if ws == [] {
    } else {
      var r, w := ws[..|ws| - 1], ws[|ws| - 1];
      var u := WriteRun(v, r).value;
      RunReaches(v, r, u, m);
      RunIsLastWritten(v, r, u);
      WriteWrites(u, w.n, w.off, w.data, e);
      forall o: nat | HasByte(v, m, o) || WrittenIn(ws, m, o)
        ensures HasByte(e, m, o)
      {
        WrittenSplits(ws, m, o);
        WriteReaches(u, w, e, m, o);
      }
    }
  }

  lemma WriteReaches(u: Vol, w: Writing, e: Vol, m: nat, o: nat)
    requires Written(u, e, w.n, w.off, w.data) && (HasByte(u, m, o) || Covers(w, m, o))
    ensures HasByte(e, m, o)
  {
  }

  /** Any read after any run of writes: the end of the file is where the writes left it, and every
      byte delivered is the one last written there. */
  lemma {:induction false} ReadAfterRun(v: Vol, ws: seq<Writing>, e: Vol, n: nat, len: nat, off: nat)
    requires Inv(v) && FreeZero(v) && WriteRun(v, ws) == Some(e) && n in v.inodes
    ensures n in e.inodes && (Read(e, n, len, off) == Eof <==> off >= EndOf(v, ws, n))
    ensures Read(e, n, len, off).Data? ==>
              var s := Read(e, n, len, off).bytes;
              && |s| <= len && off + |s| <= EndOf(v, ws, n) && (|s| == len || off + |s| == EndOf(v, ws, n))
              && forall o: nat :: off <= o < off + |s| ==> s[o - off] == LastWritten(v, ws, n, o)
    ensures Read(e, n, len, off) == Panic ==>
              exists o: nat :: off <= o < off + len && o < EndOf(v, ws, n) && !HasByte(v, n, o) && !WrittenIn(ws, n, o)
  {
    RunReaches(v, ws, e, n);
    RunIsLastWritten(v, ws, e);
    ReadIs(e, n, len, off);
    if Read(e, n, len, off).Data? {
      var s := Read(e, n, len, off).bytes;
      forall o: nat | off <= o < off + |s|
        ensures s[o - off] == LastWritten(v, ws, n, o)
      {
        assert s[o - off] == ByteOr0(e, n, o);
      }
    }
  }

  // ----- After inode_truncate -----------------------------------------------

  lemma SameReads(v: Vol, w: Vol, m: nat, len: nat, off: nat)
    requires m in v.inodes && m in w.inodes && w.inodes[m].size == v.inodes[m].size
    requires forall q :: ZoneAt(w, m, q) == ZoneAt(v, m, q) && DataAt(w, m, q) == DataAt(v, m, q)
    ensures Read(w, m, len, off) == Read(v, m, len, off)
  {
    forall o: nat
      ensures HasByte(w, m, o) == HasByte(v, m, o) && ByteOr0(w, m, o) == ByteOr0(v, m, o)
    {
      if o / BLOCK_SIZE < TOTAL_BLOCK {
        var q := BlockPath(o / BLOCK_SIZE);
        assert ZoneAt(w, m, q) == ZoneAt(v, m, q) && DataAt(w, m, q) == DataAt(v, m, q);
      }
    }
    var size := v.inodes[m].size;
    if off < size {
      var total := Min(len, size - off);
      assert Bytes(w, m, off, total) == Bytes(v, m, off, total);
    }
  }

  /** A truncated file is at its end everywhere; every other file reads as before. */
  lemma ReadAfterTruncate(v: Vol, n: nat, w: Vol, m: nat, len: nat, off: nat)
    requires Inv(v) && n in v.inodes && m in v.inodes && Truncate(v, n) == Some(w)
    ensures m in w.inodes
    ensures Read(w, m, len, off) == if m == n then Eof else Read(v, m, len, off)
  {
    TruncateClears(v, n);
    TruncatedState(v, n);
    if m != n {
      SameReads(v, w, m, len, off);
    }
  }
}
