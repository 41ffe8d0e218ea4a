/** The cache refines a flat disk: whatever is cached, evicted or written back, each block
    reads as the last edit of it. */
module BufferView {
  import opened Wrappers
  import opened BufferCache

  /** A buffer is found exactly when there is one. */
  lemma LookupFinds(c: Cache, k: Key)
    requires Inv(c)
    ensures match Lookup(c, k)
            case Some(id) => id < |c.bufs| && c.bufs[id].key == k
            case None => forall id :: 0 <= id < |c.bufs| ==> c.bufs[id].key != k
  {
    FindInFinds(c.bufs, c.chains[Hash(k)], k);
    forall id | 0 <= id < |c.bufs| && c.bufs[id].key == k
      ensures id in c.chains[Hash(k)]
    {
      assert HashesTo(c.bufs, Hash(k), id) && InChain(c.chains, Hash(k), id);
    }
  }

  ghost predicate SameKeys(bufs: seq<Buf>, bufs': seq<Buf>) {
    |bufs'| == |bufs| && forall i :: 0 <= i < |bufs| ==> bufs'[i].key == bufs[i].key
  }

  lemma SameKeysKeepChains(bufs: seq<Buf>, bufs': seq<Buf>, chains: seq<seq<nat>>)
    requires KeysDiffer(bufs) && Chained(bufs, chains) && SameKeys(bufs, bufs')
    ensures KeysDiffer(bufs') && Chained(bufs', chains)
  {
    assert forall h, id :: HashesTo(bufs', h, id) <==> HashesTo(bufs, h, id);
  }

  // ----- getblk keeps the structure -----------------------------------------

  lemma HitKeepsInv(c: Cache, id: nat)
    requires Inv(c) && id < |c.bufs|
    ensures Inv(c.(bufs := c.bufs[id := Held(c.bufs[id])], free := Remove(c.free, id)))
  {
    RemoveKeeps(c.free, id);
    RemoveOrder(c.free, id, c.history);
    SameKeysKeepChains(c.bufs, c.bufs[id := Held(c.bufs[id])], c.chains);
  }

  lemma {:induction false} RemoveOrder(s: seq<nat>, x: nat, history: seq<nat>)
    requires NoDup(s) && InOrder(s, history)
    ensures InOrder(Remove(s, x), history)
  {
    if s == [] || s[0] == x {
    } else {
      var t := s[1..];
      RemoveOrder(t, x, history);
      RemoveKeeps(t, x);
      var r := Remove(t, x);
      forall j | 0 <= j < |r|
        ensures LastRelease(history, s[0]) > LastRelease(history, r[j])
      {
        assert r[j] in t;
      }
    }
  }

  /** Buffer id, until now in no chain, is entered under its key. */
  lemma LocatedIsChained(bufs: seq<Buf>, chains: seq<seq<nat>>, bufs': seq<Buf>, id: nat)
    requires |chains| == HASH_COUNT && id < |bufs'|
    requires forall h :: 0 <= h < |chains| ==> NoDup(chains[h])
    requires forall h, i :: InChain(chains, h, i) <==> i != id && HashesTo(bufs', h, i)
    ensures Chained(bufs', Located(chains, id, bufs'[id].key))
  {
    assert !InChain(chains, Hash(bufs'[id].key), id);
    PushKeeps(chains[Hash(bufs'[id].key)], id);
  }

  lemma UnlocatedKeeps(bufs: seq<Buf>, chains: seq<seq<nat>>, id: nat)
    requires Chained(bufs, chains) && id < |bufs|
    ensures var r := Unlocated(chains, id, bufs[id].key);
            && (forall h :: 0 <= h < |r| ==> NoDup(r[h]))
            && (forall h, i :: InChain(r, h, i) <==> i != id && HashesTo(bufs, h, i))
  {
    var k := Hash(bufs[id].key);
    RemoveKeeps(chains[k], id);
    var r := Unlocated(chains, id, bufs[id].key);
    forall h: nat, i: nat
      ensures InChain(r, h, i) <==> i != id && HashesTo(bufs, h, i)
    {
      assert InChain(chains, h, i) <==> HashesTo(bufs, h, i);
      assert h < |chains| && h != k ==> r[h] == chains[h];
    }
  }

  lemma NewKeepsInv(c: Cache, k: Key)
    requires Inv(c) && Lookup(c, k) == None && |c.bufs| < c.capacity && k in c.disk
    ensures Getblk(c, k).Got?
    ensures Inv(Getblk(c, k).cache)
  {
    LookupFinds(c, k);
    var d := Getblk(c, k).cache;
    LocatedIsChained(c.bufs, c.chains, d.bufs, |c.bufs|);
  }

  lemma RecycleKeepsInv(c: Cache, k: Key)
    requires Inv(c) && Lookup(c, k) == None && |c.bufs| >= c.capacity && c.free != [] && k in c.disk
    ensures Getblk(c, k).Got?
    ensures Inv(Getblk(c, k).cache)
  {
    LookupFinds(c, k);
    assert c.free[|c.free| - 1] in c.free;
    var d, id := Getblk(c, k).cache, c.free[|c.free| - 1];
    UnlocatedKeeps(c.bufs, c.chains, id);
    LocatedIsChained(c.bufs, Unlocated(c.chains, id, c.bufs[id].key), d.bufs, id);
    RemoveLast(c.free);
    RemoveKeeps(c.free, id);
  }

  lemma GetblkKeepsInv(c: Cache, k: Key)
    requires Inv(c) && k in c.disk && Getblk(c, k).Got?
    ensures Inv(Getblk(c, k).cache)
    ensures var g := Getblk(c, k);
            g.id < |g.cache.bufs| && g.cache.bufs[g.id].key == k && g.cache.bufs[g.id].count > 0
  {
    LookupFinds(c, k);
    match Lookup(c, k)
    case Some(id) => HitKeepsInv(c, id);
    case None =>
      if |c.bufs| < c.capacity {
        NewKeepsInv(c, k);
      } else {
        RecycleKeepsInv(c, k);
      }
  }

  // ----- The other operations -----------------------------------------------

  lemma LoadKeepsInv(c: Cache, id: nat)
    requires Inv(c) && id < |c.bufs|
    ensures Inv(Load(c, id))
  {
    SameKeysKeepChains(c.bufs, Load(c, id).bufs, c.chains);
  }

  /** No sector that the edit changes has been sent by every write of the buffer under way. */
  predicate EditIsSafe(c: Cache, id: nat, data: Block) {
    id < |c.bufs| && c.bufs[id].key in c.disk ==>
      var b := c.bufs[id];
      b.writes == [] || forall s :: 0 <= s < BLOCK_SECS ==> Sector(data, s) == Sector(c.disk[b.key], s) || Pending(b, s)
  }

  lemma EditKeepsInv(c: Cache, id: nat, data: Block)
    requires Inv(c) && id < |c.bufs| && c.bufs[id].count > 0 && c.bufs[id].valid && EditIsSafe(c, id, data)
    ensures Inv(Edit(c, id, data))
  {
    SameKeysKeepChains(c.bufs, Edit(c, id, data).bufs, c.chains);
  }

  lemma BeginKeepsInv(c: Cache, id: nat, release: bool)
    requires Inv(c) && id < |c.bufs| && |c.bufs[id].writes| < c.bufs[id].count
    ensures Inv(Begin(c, id, release))
  {
    SameKeysKeepChains(c.bufs, Begin(c, id, release).bufs, c.chains);
    var b, d := c.bufs[id], Begin(c, id, release).bufs[id];
    assert b.dirty ==> d.writes[|b.writes|] == Writing(0, release);
  }

  /** A sector that is sent is on the device; the others are pending as before. */
  lemma TransferKeepsInv(c: Cache, id: nat, w: nat)
    requires Inv(c) && UnderWay(c, id, w) && c.bufs[id].writes[w].sent < BLOCK_SECS
    ensures Inv(Transfer(c, id, w))
  {
    var d, b := Transfer(c, id, w), c.bufs[id];
    var e, s := d.bufs[id], b.writes[w].sent;
    SameKeysKeepChains(c.bufs, d.bufs, c.chains);
    forall i | 0 <= i < |c.bufs| && i != id
      ensures c.bufs[i].key != b.key
    {
    }
    forall t | 0 <= t < BLOCK_SECS
      ensures Sector(e.data, t) == Sector(d.disk[b.key], t) || Pending(e, t)
    {
      WithSectorHas(c.disk[b.key], b.data, s, t);
      if t != s && Pending(b, t) {
        var v :| 0 <= v < |b.writes| && b.writes[v].sent <= t;
        assert e.writes[v].sent <= t;
      }
    }
  }

  /** A write that ends has sent all, so that what is pending is pending for another write. */
  lemma WrittenKeeps(b: Buf, w: nat, d: Block)
    requires Counts(b) && Kept(b, d) && w < |b.writes| && b.writes[w].sent == BLOCK_SECS
    ensures Counts(Written(b, w)) && Kept(Written(b, w), d)
  {
    var e := Written(b, w);
    forall v | 0 <= v < |e.writes|
      ensures e.writes[v] == b.writes[if v < w then v else v + 1]
    {
    }
    forall s | 0 <= s < BLOCK_SECS && Pending(b, s)
      ensures Pending(e, s)
    {
      var v :| 0 <= v < |b.writes| && b.writes[v].sent <= s;
      assert e.writes[if v < w then v else v - 1].sent <= s;
    }
  }

  /** The middle of End, when dirty is cleared. */
  function Ended(c: Cache, id: nat, w: nat): Cache
    requires UnderWay(c, id, w)
  {
    c.(bufs := c.bufs[id := Written(c.bufs[id], w)])
  }

  lemma EndedKeepsInv(c: Cache, id: nat, w: nat)
    requires Inv(c) && UnderWay(c, id, w) && c.bufs[id].writes[w].sent == BLOCK_SECS
    ensures Inv(Ended(c, id, w)) && c.bufs[id].count > 0
  {
    WrittenKeeps(c.bufs[id], w, c.disk[c.bufs[id].key]);
    SameKeysKeepChains(c.bufs, Ended(c, id, w).bufs, c.chains);
  }

  lemma NewestRelease(history: seq<nat>, id: nat)
    ensures LastRelease(history + [id], id) == |history| + 1
    ensures forall i :: i != id ==> LastRelease(history + [id], i) == LastRelease(history, i) <= |history|
  {
    var h := history + [id];
    assert h[..|h| - 1] == history;
    forall i
      ensures LastRelease(history, i) <= |history|
    {
      ReleaseBound(history, i);
    }
  }

  lemma {:induction false} ReleaseBound(history: seq<nat>, i: nat)
    ensures LastRelease(history, i) <= |history|
  {
    if history == [] {
    } else {
      ReleaseBound(history[..|history| - 1], i);
    }
  }

  lemma DropKeepsInv(c: Cache, id: nat)
    requires Inv(c) && id < |c.bufs| && |c.bufs[id].writes| < c.bufs[id].count && !c.bufs[id].dirty
    ensures Inv(Drop(c, id))
  {
    var d := Drop(c, id);
    SameKeysKeepChains(c.bufs, d.bufs, c.chains);
    if c.bufs[id].count == 1 {
      PushKeeps(c.free, id);
      NewestRelease(c.history, id);
      PushOrder(c.free, id, c.history);
    }
  }

  lemma PushOrder(free: seq<nat>, id: nat, history: seq<nat>)
    requires InOrder(free, history) && id !in free
    ensures InOrder([id] + free, history + [id])
  {
    NewestRelease(history, id);
  }

  // ----- The view -----------------------------------------------------------

  lemma ViewIs(c: Cache, id: nat)
    requires Inv(c) && id < |c.bufs| && c.bufs[id].valid
    ensures ViewAt(c, c.bufs[id].key) == c.bufs[id].data
  {
    assert Caches(c, id, c.bufs[id].key);
  }

  /** Two caches that keep the same buffer of block k, or none, and then the same device block. */
  lemma SameAt(c: Cache, d: Cache, k: Key)
    requires Inv(c) && Inv(d) && k in c.disk && k in d.disk
    requires forall i: nat :: Caches(d, i, k) <==> Caches(c, i, k)
    requires forall i: nat :: Caches(c, i, k) && Caches(d, i, k) ==> d.bufs[i].data == c.bufs[i].data
    requires (forall i: nat :: !Caches(c, i, k)) ==> d.disk[k] == c.disk[k]
    ensures ViewAt(d, k) == ViewAt(c, k)
  {
  }

  lemma SameViews(c: Cache, d: Cache)
    requires c.disk.Keys == d.disk.Keys && forall k :: k in c.disk ==> ViewAt(d, k) == ViewAt(c, k)
    ensures View(d) == View(c)
  {
  }

  /** A buffer with no sector pending holds what the device holds. */
  lemma QuietAgrees(b: Buf, d: Block)
    requires Kept(b, d) && b.valid && !b.dirty && b.writes == []
    ensures b.data == d
  {
    assert forall s :: 0 <= s < BLOCK_SECS ==> !Pending(b, s);
    SectorsMakeBlock(b.data, d);
  }

  /** Buffer id, which is not valid, stands for a block that no buffer of c stands for;
      what it stood for in c, it left to the device. */
  lemma RenewedKeepsView(c: Cache, d: Cache, id: nat, k: Key)
    requires Inv(c) && Inv(d) && d.disk == c.disk && id <= |c.bufs| <= |d.bufs| <= |c.bufs| + 1 && id < |d.bufs|
    requires forall i :: 0 <= i < |d.bufs| && i != id ==> i < |c.bufs| && d.bufs[i] == c.bufs[i]
    requires !d.bufs[id].valid
    requires id < |c.bufs| && c.bufs[id].valid ==> c.bufs[id].data == c.disk[c.bufs[id].key]
    ensures View(d) == View(c)
  {
    forall j | j in c.disk
      ensures ViewAt(d, j) == ViewAt(c, j)
    {
      forall i: nat | Caches(d, i, j)
        ensures d.bufs[i].data == ViewAt(c, j)
      {
        assert Caches(c, i, j);
      }
      forall i: nat | Caches(c, i, j)
        ensures Caches(d, i, j) || d.disk[j] == ViewAt(c, j)
      {
        assert i != id ==> Caches(d, i, j);
      }
    }
    SameViews(c, d);
  }

  lemma GetblkKeepsView(c: Cache, k: Key)
    requires Inv(c) && k in c.disk && Getblk(c, k).Got?
    ensures View(Getblk(c, k).cache) == View(c)
  {
    var d, id := Getblk(c, k).cache, Getblk(c, k).id;
    GetblkKeepsInv(c, k);
    LookupFinds(c, k);
    if Lookup(c, k).Some? {
      BookkeepingKeepsView(c, d);
    } else {
      if |c.bufs| >= c.capacity {
        assert id in c.free;
        if c.bufs[id].valid {
          QuietAgrees(c.bufs[id], c.disk[c.bufs[id].key]);
        }
      }
      RenewedKeepsView(c, d, id, k);
    }
  }

  lemma LoadKeepsView(c: Cache, id: nat)
    requires Inv(c) && id < |c.bufs|
    ensures View(Load(c, id)) == View(c)
    ensures Load(c, id).bufs[id].data == View(c)[c.bufs[id].key]
  {
    var d := Load(c, id);
    LoadKeepsInv(c, id);
    ViewIs(d, id);
    forall j | j in c.disk
      ensures ViewAt(d, j) == ViewAt(c, j)
    {
      forall i: nat
        ensures Caches(d, i, j) <==> Caches(c, i, j) || (i == id && j == c.bufs[id].key)
      {
      }
    }
    SameViews(c, d);
  }

  /** Steps that only touch the bookkeeping of a buffer. */
  lemma BookkeepingKeepsView(c: Cache, d: Cache)
    requires Inv(c) && Inv(d) && d.disk == c.disk && |d.bufs| == |c.bufs|
    requires forall i :: 0 <= i < |c.bufs| ==>
               d.bufs[i].key == c.bufs[i].key && d.bufs[i].valid == c.bufs[i].valid && d.bufs[i].data == c.bufs[i].data
    ensures View(d) == View(c)
  {
    forall j | j in c.disk
      ensures ViewAt(d, j) == ViewAt(c, j)
    {
      SameAt(c, d, j);
    }
    SameViews(c, d);
  }

  lemma TransferKeepsView(c: Cache, id: nat, w: nat)
    requires Inv(c) && UnderWay(c, id, w) && c.bufs[id].writes[w].sent < BLOCK_SECS
    ensures View(Transfer(c, id, w)) == View(c)
  {
    var d := Transfer(c, id, w);
    TransferKeepsInv(c, id, w);
    assert Caches(c, id, c.bufs[id].key);
    forall j | j in c.disk
      ensures ViewAt(d, j) == ViewAt(c, j)
    {
      SameAt(c, d, j);
    }
    SameViews(c, d);
  }

  lemma EditChangesView(c: Cache, id: nat, data: Block)
    requires Inv(c) && id < |c.bufs| && c.bufs[id].count > 0 && c.bufs[id].valid && EditIsSafe(c, id, data)
    ensures View(Edit(c, id, data)) == View(c)[c.bufs[id].key := data]
  {
    var d := Edit(c, id, data);
    EditKeepsInv(c, id, data);
    ViewIs(d, id);
    forall j | j in c.disk && j != c.bufs[id].key
      ensures ViewAt(d, j) == ViewAt(c, j)
    {
      SameAt(c, d, j);
    }
    ViewsDiffer(c, d, c.bufs[id].key, data);
  }

  lemma ViewsDiffer(c: Cache, d: Cache, k: Key, data: Block)
    requires k in c.disk && c.disk.Keys == d.disk.Keys && ViewAt(d, k) == data
    requires forall j :: j in c.disk && j != k ==> ViewAt(d, j) == ViewAt(c, j)
    ensures View(d) == View(c)[k := data]
  {
  }

  // ----- What follows from the invariant ------------------------------------

  /** When nobody holds a buffer, the devices hold the flat disk. */
  lemma QuietDisk(c: Cache)
    requires Inv(c) && forall id :: 0 <= id < |c.bufs| ==> c.bufs[id].count == 0
    ensures c.disk == View(c)
  {
    forall k | k in c.disk
      ensures ViewAt(c, k) == c.disk[k]
    {
      if id: nat :| Caches(c, id, k) {
        ViewIs(c, id);
        QuietAgrees(c.bufs[id], c.disk[k]);
      }
    }
  }

  /** A recycled buffer is the one whose release lies furthest back. */
  lemma VictimIsOldest(c: Cache, k: Key)
    requires Inv(c) && k in c.disk && Lookup(c, k) == None && |c.bufs| >= c.capacity && Getblk(c, k).Got?
    ensures var id := Getblk(c, k).id;
            && id < |c.bufs| && c.bufs[id].count == 0
            && forall i :: 0 <= i < |c.bufs| && c.bufs[i].count == 0 && i != id ==>
                             LastRelease(c.history, id) < LastRelease(c.history, i)
  {
    var id := Getblk(c, k).id;
    assert id in c.free;
    forall i | 0 <= i < |c.bufs| && c.bufs[i].count == 0 && i != id
      ensures LastRelease(c.history, id) < LastRelease(c.history, i)
    {
      assert i in c.free;
    }
  }

  /** getblk leaves every held buffer its block and its data. */
  lemma HeldStays(c: Cache, k: Key, i: nat)
    requires Inv(c) && k in c.disk && Getblk(c, k).Got? && i < |c.bufs| && c.bufs[i].count > 0
    ensures var d := Getblk(c, k).cache;
            && i < |d.bufs| && d.bufs[i].key == c.bufs[i].key && d.bufs[i].data == c.bufs[i].data
            && d.bufs[i].valid == c.bufs[i].valid && d.bufs[i].count >= c.bufs[i].count
  {
    LookupFinds(c, k);
    if Lookup(c, k) == None && |c.bufs| >= c.capacity {
      VictimIsOldest(c, k);
    }
  }

  /** getblk must wait exactly when the pool is used up and every buffer is held for
      some other block. */
  lemma WaitsIff(c: Cache, k: Key)
    requires Inv(c)
    ensures Getblk(c, k) == Waits <==>
            |c.bufs| == c.capacity && forall id :: 0 <= id < |c.bufs| ==> c.bufs[id].count > 0 && c.bufs[id].key != k
  {
    LookupFinds(c, k);
    if c.free != [] {
      assert c.free[|c.free| - 1] in c.free;
    } else {
      forall id: nat | id < |c.bufs|
        ensures c.bufs[id].count > 0
      {
        assert id !in c.free;
      }
    }
  }
}
