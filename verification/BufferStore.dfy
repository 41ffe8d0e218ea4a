/** The cache as it runs: buffer fields, hash chains and the free list changed in place. */
module BufferStore {
  import opened Wrappers
  import Volume
  import opened BufferCache
  import opened BufferView
  import opened BufferRun

  /** list_search. */
  method Search(s: seq<nat>, x: nat) returns (found: bool)
    ensures found <==> x in s
  {
    for i := 0 to |s|
      invariant x !in s[..i]
    {
      if s[i] == x {
        return true;
      }
    }
    return false;
  }

  class Buffers {
    var bufs: seq<Buf>
    var chains: seq<seq<nat>>
    var free: seq<nat>
    const capacity: nat
    var disk: map<Key, Block>
    ghost var history: seq<nat>

    ghost function State(): Cache
      reads this
    {
      Cache(bufs, chains, free, capacity, disk, history)
    }

    constructor (capacity: nat, disk: map<Key, Block>)
      ensures this.capacity == capacity && this.disk == disk && bufs == []
      ensures Inv(State()) && View(State()) == disk
    {
      this.capacity := capacity;
      this.disk := disk;
      bufs, free, history := [], [], [];
      chains := seq(HASH_COUNT, _ => []);
    }

    /** The loop of get_from_hash_table over one chain. */
    method SearchChain(k: Key) returns (r: Option<nat>)
      requires Inv(State())
      ensures r == Lookup(State(), k)
    {
      var list := chains[Hash(k)];
      for i := 0 to |list|
        invariant FindIn(bufs, list[i..], k) == FindIn(bufs, list, k)
      {
        assert InChain(chains, Hash(k), list[i]) && HashesTo(bufs, Hash(k), list[i]);
        if bufs[list[i]].key == k {
          return Some(list[i]);
        }
        assert list[i..][1..] == list[i + 1..];
      }
      assert list[|list|..] == [];
      return None;
    }

    /** get_from_hash_table: a buffer that is found leaves the free list. */
    method GetFromHashTable(k: Key) returns (r: Option<nat>)
      requires Inv(State())
      modifies this`free
      ensures r == Lookup(old(State()), k)
      ensures free == if r.Some? then Remove(old(free), r.value) else old(free)
    {
      r := SearchChain(k);
      if r.Some? {
        var listed := Search(free, r.value);
        if listed {
          free := Remove(free, r.value);
        } else {
          RemoveAbsent(free, r.value);
        }
      }
    }

    /** hash_locate; list_push asserts that the buffer is in no place of the chain. */
    method HashLocate(id: nat)
      requires id < |bufs| && |chains| == HASH_COUNT && id !in chains[Hash(bufs[id].key)]
      modifies this`chains
      ensures chains == Located(old(chains), id, bufs[id].key)
    {
      var h := Hash(bufs[id].key);
      chains := chains[h := [id] + chains[h]];
    }

    /** hash_remove; it asserts that the buffer is in its chain. */
    method HashRemove(id: nat)
      requires id < |bufs| && |chains| == HASH_COUNT && id in chains[Hash(bufs[id].key)]
      modifies this`chains
      ensures chains == Unlocated(old(chains), id, bufs[id].key)
    {
      var h := Hash(bufs[id].key);
      chains := chains[h := Remove(chains[h], id)];
    }

    /** get_free_buffer without its sleep: None is a caller that has to wait. A buffer is
        taken from the pool, which leaves key for getblk to set, or off the end of the free list. */
    method GetFreeBuffer(k: Key) returns (r: Option<nat>)
      requires Inv(State()) && Lookup(State(), k) == None
      modifies this`bufs, this`free, this`chains
      ensures r == None ==> State() == old(State()) && Getblk(old(State()), k) == Waits
      ensures r.Some? ==>
                var g, id := Getblk(old(State()), k), r.value;
                && g.Got? && id == g.id < |bufs| == |g.cache.bufs|
                && bufs[id].count == 0 && !bufs[id].dirty && !bufs[id].valid && bufs[id].writes == []
                && g.cache.bufs == bufs[id := NewBuf(k, bufs[id].data)]
                && free == g.cache.free && |chains| == HASH_COUNT
                && id !in chains[Hash(k)] && g.cache.chains == Located(chains, id, k)
    {
      if |bufs| < capacity {
        assert !HashesTo(bufs, Hash(k), |bufs|) && !InChain(chains, Hash(k), |bufs|);
        bufs := bufs + [Buf(k, 0, false, false, Volume.ZeroBlock(), [])];
        return Some(|bufs| - 1);
      }
      if free == [] {
        return None;
      }
      var id := free[|free| - 1];
      assert id in free;
      assert HashesTo(bufs, Hash(bufs[id].key), id) && InChain(chains, Hash(bufs[id].key), id);
      UnlocatedKeeps(bufs, chains, id);
      free := free[..|free| - 1];
      HashRemove(id);
      assert !InChain(chains, Hash(k), id);
      bufs := bufs[id := bufs[id].(valid := false)];
      return Some(id);
    }

    /** The second half of getblk: a buffer becomes that of block k. */
    method Adopt(k: Key) returns (ok: bool, id: nat)
      requires Inv(State()) && k in disk && Lookup(State(), k) == None
      modifies this`bufs, this`free, this`chains
      ensures ok <==> Getblk(old(State()), k).Got?
      ensures if ok then Got(State(), id) == Getblk(old(State()), k) else State() == old(State())
    {
      var got := GetFreeBuffer(k);
      if got == None {
        return false, 0;
      }
      id := got.value;
      bufs := bufs[id := bufs[id].(count := 1, key := k)];
      HashLocate(id);
      return true, id;
    }

    /** getblk. */
    method GetBlock(k: Key) returns (ok: bool, id: nat)
      requires Inv(State()) && k in disk
      modifies this`bufs, this`free, this`chains
      ensures ok <==> Getblk(old(State()), k).Got?
      ensures ok ==> Got(State(), id) == Getblk(old(State()), k) && id < |bufs|
      ensures Inv(State())
    {
      ghost var c := State();
      LookupFinds(c, k);
      ghost var g := Getblk(c, k);
      if g.Got? {
        GetblkKeepsInv(c, k);
      }
      var found := GetFromHashTable(k);
      if found.Some? {
        id := found.value;
        Hold(id);
        ok := true;
      } else {
        ok, id := Adopt(k);
      }
      assert if ok then Got(State(), id) == g else State() == c;
    }

    /** bf->count++. */
    method Hold(id: nat)
      requires id < |bufs|
      modifies this`bufs
      ensures bufs == old(bufs)[id := Held(old(bufs)[id])]
    {
      bufs := bufs[id := bufs[id].(count := bufs[id].count + 1)];
    }

    /** The part of bread after getblk. */
    method LoadBlock(id: nat)
      requires id < |bufs| && bufs[id].key in disk
      modifies this`bufs
      ensures State() == Load(old(State()), id)
    {
      if bufs[id].valid {
        return;
      }
      bufs := bufs[id := bufs[id].(data := disk[bufs[id].key], dirty := false, valid := true)];
    }

    /** bread. */
    method Bread(k: Key) returns (ok: bool, id: nat)
      requires Inv(State()) && k in disk
      modifies this`bufs, this`free, this`chains
      ensures ok <==> Getblk(old(State()), k).Got?
      ensures Inv(State()) && (ok ==> View(State()) == View(old(State())))
      ensures ok ==>
          id < |bufs| && bufs[id].key == k && bufs[id].count > 0 && bufs[id].valid && bufs[id].data == View(State())[k]
      ensures ok ==> State() == Taken(old(State()), k) && id == Getblk(old(State()), k).id
    {
      ghost var c := State();
      ok, id := GetBlock(k);
      if !ok {
        return;
      }
      GetblkKeepsInv(c, k);
      GetblkKeepsView(c, k);
      LoadKeepsInv(State(), id);
      LoadKeepsView(State(), id);
      LoadBlock(id);
    }

    /** A holder changes the data and sets dirty. */
    method EditBlock(id: nat, data: Block)
      requires id < |bufs|
      modifies this`bufs
      ensures State() == Edit(old(State()), id, data)
    {
      bufs := bufs[id := bufs[id].(dirty := true, data := data)];
    }

    /** bwrite up to device_request; begun tells that there is something to write. */
    method BeginWrite(id: nat, release: bool) returns (begun: bool)
      requires id < |bufs|
      modifies this`bufs
      ensures State() == Begin(old(State()), id, release) && begun == old(bufs[id].dirty)
    {
      if !bufs[id].dirty {
        return false;
      }
      bufs := bufs[id := bufs[id].(writes := bufs[id].writes + [Writing(0, release)])];
      return true;
    }

    /** One round of the loop of ide_pio_write, up to its task_block. */
    method SendSector(id: nat, w: nat)
      requires UnderWay(State(), id, w)
      modifies this`bufs, this`disk
      ensures State() == Transfer(old(State()), id, w)
    {
      var b := bufs[id];
      var i := b.writes[w].sent;
      disk := disk[b.key := WithSector(disk[b.key], b.data, i)];
      bufs := bufs[id := b.(writes := b.writes[w := b.writes[w].(sent := i + 1)])];
    }

    /** What follows bwrite in brelse. */
    method DropBlock(id: nat)
      requires id < |bufs| && bufs[id].count > 0
      modifies this`bufs, this`free, this`history
      ensures State() == Drop(old(State()), id)
    {
      bufs := bufs[id := bufs[id].(count := bufs[id].count - 1)];
      if bufs[id].count > 0 {
        return;
      }
      free := [id] + free;
      history := history + [id];
    }

    /** bwrite after device_request, and what follows it in the brelse that called it. */
    method EndWrite(id: nat, w: nat)
      requires UnderWay(State(), id, w) && bufs[id].count > 0
      modifies this`bufs, this`free, this`history
      ensures State() == End(old(State()), id, w)
    {
      var release := bufs[id].writes[w].release;
      bufs := bufs[id := bufs[id].(dirty := false, valid := true, writes := Without(bufs[id].writes, w))];
      if release {
        DropBlock(id);
      }
    }

    /** brelse up to device_request; the wakeup of a waiting task is not part of this model. */
    method BeginRelease(id: nat) returns (begun: bool)
      requires id < |bufs| && bufs[id].count > 0
      modifies this`bufs, this`free, this`history
      ensures State() == Release(old(State()), id) && begun == old(bufs[id].dirty)
    {
      begun := bufs[id].dirty;
      if begun {
        begun := BeginWrite(id, true);
      } else {
        DropBlock(id);
      }
    }

    /** Any step that a task can take. */
    method Perform(a: Action)
      requires Inv(State()) && Enabled(State(), a)
      modifies this
      ensures State() == Step(old(State()), a)
    {
      match a {
        case Get(k) =>
          var ok, id := GetBlock(k);
        case Fill(id) =>
          LoadBlock(id);
        case Change(id, _, data) =>
          EditBlock(id, data);
        case Write(id) =>
          var begun := BeginWrite(id, false);
        case GiveUp(id) =>
          var begun := BeginRelease(id);
        case Send(id, w) =>
          SendSector(id, w);
        case Finish(id, w) =>
          EndWrite(id, w);
      }
    }

    /** The steps of any number of tasks, in the order in which they come. */
    method PerformAll(run: seq<Action>)
      requires Inv(State()) && CanRun(State(), run) && AllSafe(State(), run)
      modifies this
      ensures State() == Run(old(State()), run)
      ensures Inv(State()) && View(State()) == FlatRun(View(old(State())), run)
    {
      ghost var c := State();
      RunRefines(c, run);
      for i := 0 to |run|
        invariant Inv(State()) && CanRun(State(), run[i..]) && AllSafe(State(), run[i..])
        invariant Run(State(), run[i..]) == Run(c, run)
      {
        assert run[i..][1..] == run[i + 1..];
        StepRefines(State(), run[i]);
        Perform(run[i]);
      }
    }

    /** The loop of ide_pio_write when no other task comes between. */
    method SendAll(id: nat, w: nat)
      requires UnderWay(State(), id, w) && bufs[id].writes[w].sent == 0
      modifies this`bufs, this`disk
      ensures State() == Sent(old(State()), id, w)
    {
      ghost var c := State();
      SendSector(id, w);
      SendSector(id, w);
      SentIs(c, id, w);
    }

    /** bwrite when no other task comes between. */
    method WriteBack(id: nat)
      requires id < |bufs| && bufs[id].key in disk && bufs[id].count > 0
      modifies this
      ensures State() == Bwrite(old(State()), id)
    {
      ghost var c := State();
      var w := |bufs[id].writes|;
      var begun := BeginWrite(id, false);
      if begun {
        SendAll(id, w);
        EndWrite(id, w);
        WholeWrite(c, id, false);
      }
    }

    /** brelse when no other task comes between. */
    method ReleaseBlock(id: nat)
      requires id < |bufs| && bufs[id].key in disk && bufs[id].count > 0
      modifies this
      ensures State() == Brelse(old(State()), id)
    {
      ghost var c := State();
      var w := |bufs[id].writes|;
      var begun := BeginRelease(id);
      if begun {
        SendAll(id, w);
        EndWrite(id, w);
        WholeWrite(c, id, true);
      }
    }

    // ----- A caller that takes one block at a time --------------------------

    /** Sound, and nobody holds a buffer. */
    ghost predicate Quiet()
      reads this
    {
      Inv(State()) && capacity > 0 && forall id :: 0 <= id < |bufs| ==> bufs[id].count == 0
    }

    /** Nobody holds a buffer, and the blocks of a device are those of a flat disk. */
    ghost predicate Serves(dev: u32, disk: seq<Block>)
      reads this
    {
      match State()
      case Cache(_, _, _, _, _, _) => Quiet() && Presents(State(), dev, disk)
    }

    /** bread, a look at the data, and brelse. */
    method ReadBlock(k: Key) returns (b: Block)
      requires Quiet() && k in disk
      modifies this
      ensures Quiet() && View(State()) == View(old(State())) && k in View(State()) && b == View(State())[k]
    {
      ghost var c := State();
      OneIsHeld(c, k);
      var ok, id := Bread(k);
      b := bufs[id].data;
      BrelseKeeps(State(), id);
      ReleaseBlock(id);
    }

    /** bread, a change of the block that sets dirty, and brelse. */
    method WriteBlock(k: Key, b: Block)
      requires Quiet() && k in disk
      modifies this
      ensures Quiet() && View(State()) == View(old(State()))[k := b]
    {
      ghost var c := State();
      OneIsHeld(c, k);
      var ok, id := Bread(k);
      EditKeepsInv(State(), id, b);
      EditChangesView(State(), id, b);
      EditBlock(id, b);
      BrelseKeeps(State(), id);
      ReleaseBlock(id);
    }
  }

  /** What bread makes of the cache. */
  ghost function Taken(c: Cache, k: Key): Cache
    requires |c.chains| == HASH_COUNT && Getblk(c, k).Got?
  {
    var g := Getblk(c, k);
    if g.id < |g.cache.bufs| && g.cache.bufs[g.id].key in g.cache.disk then Load(g.cache, g.id) else g.cache
  }

  ghost predicate OnlyHolds(c: Cache, id: nat) {
    && id < |c.bufs| && c.bufs[id].count == 1 && c.bufs[id].writes == [] && c.bufs[id].key in c.disk
    && forall i :: 0 <= i < |c.bufs| && i != id ==> c.bufs[i].count == 0
  }

  /** Taken out of a cache that nobody uses, the block is the only one held. */
  lemma OneIsHeld(c: Cache, k: Key)
    requires Inv(c) && k in c.disk && c.capacity > 0 && forall id :: 0 <= id < |c.bufs| ==> c.bufs[id].count == 0
    ensures Getblk(c, k).Got? && OnlyHolds(Taken(c, k), Getblk(c, k).id)
  {
    WaitsIff(c, k);
    assert c.bufs != [] ==> c.bufs[0].count == 0;
    LookupFinds(c, k);
    GetblkKeepsInv(c, k);
  }

  /** brelse of the one block that is held leaves a cache that nobody uses. */
  lemma BrelseKeeps(c: Cache, id: nat)
    requires Inv(c) && OnlyHolds(c, id)
    ensures Inv(Brelse(c, id)) && View(Brelse(c, id)) == View(c)
    ensures forall i :: 0 <= i < |Brelse(c, id).bufs| ==> Brelse(c, id).bufs[i].count == 0
  {
    BwriteKeeps(c, id);
    DropKeepsInv(Bwrite(c, id), id);
    BookkeepingKeepsView(Bwrite(c, id), Brelse(c, id));
  }

  lemma BwriteKeeps(c: Cache, id: nat)
    requires Inv(c) && id < |c.bufs| && c.bufs[id].writes == [] && c.bufs[id].count > 0
    ensures Inv(Bwrite(c, id)) && View(Bwrite(c, id)) == View(c)
  {
    var d, b := Bwrite(c, id), c.bufs[id];
    if b.dirty {
      SameKeysKeepChains(c.bufs, d.bufs, c.chains);
      forall i | 0 <= i < |c.bufs| && i != id
        ensures c.bufs[i].key != b.key
      {
      }
      assert Inv(d);
      assert Caches(c, id, b.key);
      forall j | j in c.disk
        ensures ViewAt(d, j) == ViewAt(c, j)
      {
        SameAt(c, d, j);
      }
      SameViews(c, d);
    }
  }

  /** All of the buffer is with the device. */
  ghost function Sent(c: Cache, id: nat, w: nat): Cache
    requires UnderWay(c, id, w)
  {
    var b := c.bufs[id];
    c.(bufs := c.bufs[id := b.(writes := b.writes[w := b.writes[w].(sent := BLOCK_SECS)])],
       disk := c.disk[b.key := b.data])
  }

  lemma SentIs(c: Cache, id: nat, w: nat)
    requires UnderWay(c, id, w) && c.bufs[id].writes[w].sent == 0
    ensures UnderWay(Transfer(c, id, w), id, w) && Transfer(Transfer(c, id, w), id, w) == Sent(c, id, w)
  {
    var b, d := c.bufs[id], Transfer(c, id, w);
    assert WithSector(WithSector(c.disk[b.key], b.data, 0), b.data, 1) == b.data;
    var x := b.writes[w];
    assert b.writes[w := x.(sent := 1)][w := x.(sent := 2)] == b.writes[w := x.(sent := 2)];
    assert Transfer(d, id, w).bufs == Sent(c, id, w).bufs;
  }

  /** bwrite and brelse as their caller sees them when it alone runs: the device holds the
      buffer, which is clean. */
  ghost function Bwrite(c: Cache, id: nat): Cache
    requires id < |c.bufs|
  {
    var b := c.bufs[id];
    if !b.dirty then c
    else c.(bufs := c.bufs[id := b.(dirty := false, valid := true)], disk := c.disk[b.key := b.data])
  }

  ghost function Brelse(c: Cache, id: nat): Cache
    requires id < |c.bufs| && c.bufs[id].count > 0
  {
    Drop(Bwrite(c, id), id)
  }

  lemma WholeWrite(c: Cache, id: nat, release: bool)
    requires id < |c.bufs| && c.bufs[id].dirty && c.bufs[id].count > 0 && c.bufs[id].key in c.disk
    ensures var w, d := |c.bufs[id].writes|, Begin(c, id, release);
            && UnderWay(d, id, w)
            && End(Sent(d, id, w), id, w) == if release then Brelse(c, id) else Bwrite(c, id)
  {
    var b := c.bufs[id];
    var w, d := |b.writes|, Begin(c, id, release);
    var e := Sent(d, id, w);
    assert Without(e.bufs[id].writes, w) == b.writes;
    assert e.bufs[id := Written(e.bufs[id], w)] == Bwrite(c, id).bufs;
  }

  lemma {:induction false} RemoveAbsent(s: seq<nat>, x: nat)
    requires x !in s
    ensures Remove(s, x) == s
  {
    if s == [] {
    } else {
      RemoveAbsent(s[1..], x);
    }
  }
}
