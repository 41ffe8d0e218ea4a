/** Runs of the cache: tasks take, edit, write and release buffers, and sleep wherever a
    sector is with the device. */
module BufferRun {
  import opened Wrappers
  import opened BufferCache
  import opened BufferView

  // ----- The steps ----------------------------------------------------------

  /** bread is Get followed by Fill, between which it may sleep. A write is Write or Release,
      a Send for each sector, and Finish; between any two of them other tasks may run. */
  datatype Action =
    | Get(k: Key)
    | Fill(id: nat)
    | Change(id: nat, k: Key, data: Block)
    | Write(id: nat)
    | GiveUp(id: nat)
    | Send(id: nat, w: nat)
    | Finish(id: nat, w: nat)

  predicate HeldBy(c: Cache, id: nat) {
    id < |c.bufs| && c.bufs[id].count > 0
  }

  /** Somebody holds the buffer who is not in the middle of writing it. */
  predicate Idle(c: Cache, id: nat) {
    id < |c.bufs| && |c.bufs[id].writes| < c.bufs[id].count
  }

  predicate Enabled(c: Cache, a: Action) {
    match a
    case Get(k) => k in c.disk && |c.chains| == HASH_COUNT && Getblk(c, k).Got?
    case Fill(id) => Idle(c, id) && c.bufs[id].key in c.disk
    case Change(id, k, _) => Idle(c, id) && c.bufs[id].valid && c.bufs[id].key == k
    case Write(id) => Idle(c, id)
    case GiveUp(id) => Idle(c, id)
    case Send(id, w) => UnderWay(c, id, w) && c.bufs[id].writes[w].sent < BLOCK_SECS
    case Finish(id, w) => UnderWay(c, id, w) && HeldBy(c, id) && c.bufs[id].writes[w].sent == BLOCK_SECS
  }

  function Step(c: Cache, a: Action): Cache
    requires Enabled(c, a)
  {
    match a
    case Get(k) => Getblk(c, k).cache
    case Fill(id) => Load(c, id)
    case Change(id, _, data) => Edit(c, id, data)
    case Write(id) => Begin(c, id, false)
    case GiveUp(id) => Release(c, id)
    case Send(id, w) => Transfer(c, id, w)
    case Finish(id, w) => End(c, id, w)
  }

  /** The step is no edit, or one of sectors that are still pending. */
  predicate Safe(c: Cache, a: Action) {
    a.Change? ==> EditIsSafe(c, a.id, a.data)
  }

  /** The flat disk takes the edits and nothing else. */
  function FlatStep(f: map<Key, Block>, a: Action): map<Key, Block> {
    if a.Change? then f[a.k := a.data] else f
  }

  lemma StepRefines(c: Cache, a: Action)
    requires Inv(c) && Enabled(c, a) && Safe(c, a)
    ensures Inv(Step(c, a)) && View(Step(c, a)) == FlatStep(View(c), a)
  {
    match a
    case Get(k) => GetblkKeepsInv(c, k); GetblkKeepsView(c, k);
    case Fill(id) => LoadKeepsInv(c, id); LoadKeepsView(c, id);
    case Change(id, k, data) => EditKeepsInv(c, id, data); EditChangesView(c, id, data);
    case Write(id) => BeginRefines(c, id, false);
    case GiveUp(id) => ReleaseRefines(c, id);
    case Send(id, w) => TransferKeepsInv(c, id, w); TransferKeepsView(c, id, w);
    case Finish(id, w) => EndRefines(c, id, w);
  }

  lemma BeginRefines(c: Cache, id: nat, release: bool)
    requires Inv(c) && Idle(c, id)
    ensures Inv(Begin(c, id, release)) && View(Begin(c, id, release)) == View(c)
  {
    BeginKeepsInv(c, id, release);
    BookkeepingKeepsView(c, Begin(c, id, release));
  }

  lemma ReleaseRefines(c: Cache, id: nat)
    requires Inv(c) && Idle(c, id)
    ensures Inv(Release(c, id)) && View(Release(c, id)) == View(c)
  {
    if c.bufs[id].dirty {
      BeginRefines(c, id, true);
    } else {
      DropKeepsInv(c, id);
      BookkeepingKeepsView(c, Drop(c, id));
    }
  }

  lemma EndRefines(c: Cache, id: nat, w: nat)
    requires Inv(c) && Enabled(c, Finish(id, w))
    ensures Inv(End(c, id, w)) && View(End(c, id, w)) == View(c)
  {
    var d := Ended(c, id, w);
    EndedKeepsInv(c, id, w);
    BookkeepingKeepsView(c, d);
    if c.bufs[id].writes[w].release {
      DropKeepsInv(d, id);
      BookkeepingKeepsView(d, Drop(d, id));
    }
  }

  // ----- Runs ---------------------------------------------------------------

  predicate CanRun(c: Cache, run: seq<Action>)
    decreases |run|
  {
    run == [] || (Enabled(c, run[0]) && CanRun(Step(c, run[0]), run[1..]))
  }

  function Run(c: Cache, run: seq<Action>): Cache
    requires CanRun(c, run)
    decreases |run|
  {
    if run == [] then c else Run(Step(c, run[0]), run[1..])
  }

  function FlatRun(f: map<Key, Block>, run: seq<Action>): map<Key, Block>
    decreases |run|
  {
    if run == [] then f else FlatRun(FlatStep(f, run[0]), run[1..])
  }

  /** No edit of the run comes between the transfer of a sector that it changes and the end
      of that write, unless another write under way will send the sector again. */
  predicate AllSafe(c: Cache, run: seq<Action>)
    requires CanRun(c, run)
    decreases |run|
  {
    run == [] || (Safe(c, run[0]) && AllSafe(Step(c, run[0]), run[1..]))
  }

  /** Over every such run the cache shows what the flat disk holds. */
  lemma {:induction false} RunRefines(c: Cache, run: seq<Action>)
    requires Inv(c) && CanRun(c, run) && AllSafe(c, run)
    ensures Inv(Run(c, run)) && View(Run(c, run)) == FlatRun(View(c), run)
    decreases |run|
  {
    if run == [] {
    } else {
      StepRefines(c, run[0]);
      RunRefines(Step(c, run[0]), run[1..]);
    }
  }

  /** bread after such a run delivers the last edit of its block. */
  lemma ReadAfterRun(c: Cache, run: seq<Action>, k: Key)
    requires Inv(c) && CanRun(c, run) && AllSafe(c, run) && Enabled(Run(c, run), Get(k))
    ensures var g := Getblk(Run(c, run), k);
            && g.id < |g.cache.bufs| && g.cache.bufs[g.id].key in g.cache.disk
            && k in FlatRun(View(c), run)
            && Load(g.cache, g.id).bufs[g.id].data == FlatRun(View(c), run)[k]
  {
    RunRefines(c, run);
    var e := Run(c, run);
    GetblkKeepsInv(e, k);
    GetblkKeepsView(e, k);
    LoadKeepsView(Getblk(e, k).cache, Getblk(e, k).id);
  }

  // ----- Edits that are kept ------------------------------------------------

  predicate NoChange(f: seq<Action>) {
    forall i :: 0 <= i < |f| ==> !f[i].Change?
  }

  lemma {:induction false} NoChangeIsSafe(c: Cache, f: seq<Action>)
    requires CanRun(c, f) && NoChange(f)
    ensures AllSafe(c, f)
    ensures forall m :: FlatRun(m, f) == m
    decreases |f|
  {
    if f == [] {
    } else {
      NoChangeIsSafe(Step(c, f[0]), f[1..]);
    }
  }

  /** The device holds what the flat disk holds, wherever a buffer is left to itself. */
  ghost predicate Settled(c: Cache, flat: map<Key, Block>) {
    forall id :: 0 <= id < |c.bufs| && c.bufs[id].count == 0 && c.bufs[id].valid ==>
                   && c.bufs[id].key in c.disk && c.bufs[id].key in flat
                   && c.disk[c.bufs[id].key] == flat[c.bufs[id].key]
  }

  /** The first j steps of the run, followed by steps without an edit, leave a settled cache. */
  ghost predicate Settles(c: Cache, run: seq<Action>, j: nat, f: seq<Action>) {
    j <= |run| && CanRun(c, run[..j]) && CanRun(Run(c, run[..j]), f) && NoChange(f) ==>
      Settled(Run(Run(c, run[..j]), f), FlatRun(View(c), run[..j]))
  }

  lemma InvSettles(c: Cache)
    requires Inv(c)
    ensures Settled(c, View(c))
  {
    forall id | 0 <= id < |c.bufs| && c.bufs[id].count == 0 && c.bufs[id].valid
      ensures c.disk[c.bufs[id].key] == View(c)[c.bufs[id].key]
    {
      QuietAgrees(c.bufs[id], c.disk[c.bufs[id].key]);
      ViewIs(c, id);
    }
  }

  lemma {:induction false} PrefixIsSafe(c: Cache, run: seq<Action>, j: nat)
    requires CanRun(c, run) && j <= |run|
    ensures CanRun(c, run[..j]) && (AllSafe(c, run) ==> AllSafe(c, run[..j]))
    decreases |run|
  {
    if j == 0 {
    } else {
      assert run[..j][1..] == run[1..][..j - 1];
      PrefixIsSafe(Step(c, run[0]), run[1..], j - 1);
    }
  }

  lemma SafeRunSettles(c: Cache, run: seq<Action>, j: nat, f: seq<Action>)
    requires Inv(c) && CanRun(c, run) && AllSafe(c, run)
    ensures Settles(c, run, j, f)
  {
    if j <= |run| && CanRun(c, run[..j]) && CanRun(Run(c, run[..j]), f) && NoChange(f) {
      PrefixIsSafe(c, run, j);
      RunRefines(c, run[..j]);
      NoChangeIsSafe(Run(c, run[..j]), f);
      RunRefines(Run(c, run[..j]), f);
      InvSettles(Run(Run(c, run[..j]), f));
    }
  }

  /** Sector s of the buffer will not be sent any more. */
  ghost predicate Stuck(c: Cache, id: nat, s: nat) {
    && id < |c.bufs| && s < BLOCK_SECS && c.bufs[id].key in c.disk && c.bufs[id].valid
    && Counts(c.bufs[id]) && !Pending(c.bufs[id], s)
  }

  ghost function OnDevice(c: Cache, id: nat): Block
    requires id < |c.bufs| && c.bufs[id].key in c.disk
  {
    c.disk[c.bufs[id].key]
  }

  /** The next step of the losing run: a write goes on, or a holder lets go. */
  ghost function Winding(c: Cache, id: nat): Action
    requires id < |c.bufs|
  {
    if c.bufs[id].writes == [] then GiveUp(id)
    else if c.bufs[id].writes[0].sent < BLOCK_SECS then Send(id, 0)
    else Finish(id, 0)
  }

  lemma WindingKeepsStuck(c: Cache, id: nat, s: nat)
    requires Stuck(c, id, s) && c.bufs[id].count > 0
    ensures var a := Winding(c, id);
            && Enabled(c, a) && !a.Change? && Stuck(Step(c, a), id, s) && Step(c, a).bufs[id].key == c.bufs[id].key
            && Sector(OnDevice(Step(c, a), id), s) == Sector(OnDevice(c, id), s)
            && var b, e := c.bufs[id], Step(c, a).bufs[id];
               || e.count < b.count
               || (e.count == b.count && |e.writes| < |b.writes|)
               || (e.count == b.count && |e.writes| == |b.writes| > 0 && e.writes[0].sent > b.writes[0].sent)
  {
    var b := c.bufs[id];
    if b.writes != [] {
      assert b.writes[0].sent > s;
      if b.writes[0].sent < BLOCK_SECS {
        WithSectorHas(OnDevice(c, id), b.data, b.writes[0].sent, s);
      }
    }
  }

  /** From there the writes end and the holders let go, and the device keeps the old sector. */
  lemma {:induction false} LosingRun(c: Cache, id: nat, s: nat) returns (f: seq<Action>)
    requires Stuck(c, id, s)
    ensures NoChange(f) && CanRun(c, f)
    ensures var d := Run(c, f);
            && Stuck(d, id, s) && d.bufs[id].count == 0 && d.bufs[id].key == c.bufs[id].key
            && Sector(OnDevice(d, id), s) == Sector(OnDevice(c, id), s)
    decreases c.bufs[id].count, |c.bufs[id].writes|,
              if c.bufs[id].writes == [] then 0 else BLOCK_SECS - c.bufs[id].writes[0].sent
  {
    if c.bufs[id].count == 0 {
      f := [];
    } else {
      var a := Winding(c, id);
      WindingKeepsStuck(c, id, s);
      var g := LosingRun(Step(c, a), id, s);
      f := [a] + g;
      assert f[1..] == g;
    }
  }

  /** After an edit that is not safe, the steps of others alone bring the cache to a point
      where the edit is in no buffer that will be written and not on the device. */
  lemma UnsafeEditIsLost(c: Cache, a: Action) returns (f: seq<Action>)
    requires Inv(c) && Enabled(c, a) && !Safe(c, a)
    ensures NoChange(f) && CanRun(Step(c, a), f)
    ensures !Settled(Run(Step(c, a), f), FlatStep(View(c), a))
  {
    var b := c.bufs[a.id];
    var s :| 0 <= s < BLOCK_SECS && Sector(a.data, s) != Sector(c.disk[b.key], s) && !Pending(b, s);
    var e := Step(c, a);
    f := LosingRun(e, a.id, s);
    assert Sector(OnDevice(Run(e, f), a.id), s) != Sector(a.data, s);
  }

  lemma {:induction false} PrefixStep(c: Cache, run: seq<Action>, j: nat)
    requires 1 <= j <= |run| && Enabled(c, run[0])
    ensures CanRun(c, run[..j]) <==> CanRun(Step(c, run[0]), run[1..][..j - 1])
    ensures CanRun(c, run[..j]) ==> Run(c, run[..j]) == Run(Step(c, run[0]), run[1..][..j - 1])
    ensures forall m :: FlatRun(m, run[..j]) == FlatRun(FlatStep(m, run[0]), run[1..][..j - 1])
  {
    assert run[..j][1..] == run[1..][..j - 1] && run[..j][0] == run[0];
  }

  lemma {:induction false} UnsafeRunIsLost(c: Cache, run: seq<Action>) returns (j: nat, f: seq<Action>)
    requires Inv(c) && CanRun(c, run) && !AllSafe(c, run)
    ensures j <= |run| && !Settles(c, run, j, f)
    decreases |run|
  {
    if !Safe(c, run[0]) {
      f := UnsafeEditIsLost(c, run[0]);
      j := 1;
      PrefixStep(c, run, j);
      assert run[1..][..0] == [];
    } else {
      StepRefines(c, run[0]);
      j, f := UnsafeRunIsLost(Step(c, run[0]), run[1..]);
      j := j + 1;
      PrefixStep(c, run, j);
    }
  }

  /** The writes of a run bring every edit to the device, however the run is broken off and
      whatever happens then without an edit, exactly when no edit changes a sector that
      every write of the buffer under way has sent already. */
  lemma {:induction false} EditsAreKeptIff(c: Cache, run: seq<Action>)
    requires Inv(c) && CanRun(c, run)
    ensures AllSafe(c, run) <==> forall j: nat, f :: Settles(c, run, j, f)
  {
    if AllSafe(c, run) {
      forall j: nat, f
        ensures Settles(c, run, j, f)
      {
        SafeRunSettles(c, run, j, f);
      }
    } else {
      var j, f := UnsafeRunIsLost(c, run);
    }
  }

  /** With one write under way, an edit of the whole block is safe exactly before its first transfer. */
  lemma OneWriteIff(c: Cache, id: nat, data: Block)
    requires Inv(c) && id < |c.bufs| && |c.bufs[id].writes| == 1
    requires forall s :: 0 <= s < BLOCK_SECS ==> Sector(data, s) != Sector(c.disk[c.bufs[id].key], s)
    ensures EditIsSafe(c, id, data) <==> c.bufs[id].writes[0].sent == 0
  {
    var b := c.bufs[id];
    if EditIsSafe(c, id, data) {
      assert Sector(data, 0) != Sector(c.disk[b.key], 0) && Pending(b, 0);
    } else {
      var s :| 0 <= s < BLOCK_SECS && !Pending(b, s);
      assert b.writes[0].sent > s;
    }
  }

  // ----- A run that loses an edit -------------------------------------------

  /** A cache of one buffer that has just been set up. */
  function Boot(disk: map<Key, Block>): Cache {
    Cache([], seq(HASH_COUNT, _ => []), [], 1, disk, [])
  }

  lemma BootInv(disk: map<Key, Block>)
    ensures Inv(Boot(disk)) && View(Boot(disk)) == disk
  {
  }

  /** Two tasks hold the buffer of block k. One writes first; while it sleeps behind the
      transfer of the first sector the other edits the block to second; the write ends, both
      let go, and the buffer is taken for block j. */
  function Meeting(k: Key, j: Key, first: Block, second: Block): seq<Action> {
    [Get(k), Fill(0), Get(k), Change(0, k, first), GiveUp(0), Send(0, 0), Change(0, k, second),
     Send(0, 0), Finish(0, 0), GiveUp(0), Get(j)]
  }

  /** A cache whose one buffer is that of block k. */
  function One(k: Key, b: Buf, disk: map<Key, Block>): Cache {
    Cache([b], seq(HASH_COUNT, _ => [])[Hash(k) := [0]], if b.count == 0 then [0] else [], 1, disk,
          if b.count == 0 then [0] else [])
  }

  lemma OneBuf(b: Buf, e: Buf)
    ensures [b][0 := e] == [e]
  {
  }

  lemma {:induction false} FirstInOne(disk: map<Key, Block>, k: Key)
    requires k in disk
    ensures Getblk(Boot(disk), k) == Got(One(k, NewBuf(k, Volume.ZeroBlock()), disk), 0)
  {
    assert FindIn([], [], k) == None;
    assert [0] + [] == [0];
  }

  lemma {:induction false} AgainInOne(k: Key, b: Buf, disk: map<Key, Block>)
    requires b.key == k && k in disk && b.count > 0
    ensures Getblk(One(k, b, disk), k) == Got(One(k, Held(b), disk), 0)
  {
    var c := One(k, b, disk);
    assert c.chains[Hash(k)] == [0] && FindIn([b], [0], k) == Some(0);
    assert Remove([], 0) == [];
    OneBuf(b, Held(b));
  }

  /** The buffer of k is recycled for j, and what it held is forgotten. */
  lemma {:induction false} OtherInOne(k: Key, j: Key, b: Buf, disk: map<Key, Block>)
    requires b.key == k != j && k in disk && j in disk && b.count == 0
    ensures var g := Getblk(One(k, b, disk), j);
            g.Got? && |g.cache.bufs| == 1 && g.cache.bufs[0].key == j && g.cache.disk == disk
  {
    var c := One(k, b, disk);
    assert c.chains[Hash(j)] == [] || c.chains[Hash(j)] == [0];
    assert FindIn([b], [], j) == None;
    assert [0][1..] == [] && FindIn([b], [0], j) == None;
  }

  lemma {:induction false} StepInOne(k: Key, b: Buf, disk: map<Key, Block>, data: Block)
    requires b.key == k && k in disk && b.count > 0
    ensures Edit(One(k, b, disk), 0, data) == One(k, b.(dirty := true, data := data), disk)
    ensures !b.valid ==> Load(One(k, b, disk), 0) == One(k, b.(dirty := false, valid := true, data := disk[k]), disk)
    ensures !b.dirty ==> Release(One(k, b, disk), 0) == One(k, b.(count := b.count - 1), disk)
    ensures b.dirty ==> Release(One(k, b, disk), 0) == One(k, b.(writes := b.writes + [Writing(0, true)]), disk)
  {
    OneBuf(b, b.(dirty := true, data := data));
    OneBuf(b, b.(dirty := false, valid := true, data := disk[k]));
    OneBuf(b, b.(writes := b.writes + [Writing(0, true)]));
    OneBuf(b, b.(count := b.count - 1));
    assert [0] + [] == [0];
  }

  lemma {:induction false} SendInOne(k: Key, b: Buf, disk: map<Key, Block>, s: nat)
    requires b.key == k && k in disk && b.count > 1 && b.writes == [Writing(s, true)]
    ensures Transfer(One(k, b, disk), 0, 0) ==
        One(k, b.(writes := [Writing(s + 1, true)]), disk[k := WithSector(disk[k], b.data, s)])
    ensures End(One(k, b, disk), 0, 0) ==
        One(k, b.(dirty := false, valid := true, writes := [], count := b.count - 1), disk)
  {
    assert b.writes[0 := Writing(s + 1, true)] == [Writing(s + 1, true)];
    OneBuf(b, b.(writes := [Writing(s + 1, true)]));
    assert Without(b.writes, 0) == [];
    OneBuf(b, Written(b, 0));
    OneBuf(Written(b, 0), Written(b, 0).(count := b.count - 1));
  }

  lemma {:induction false} TailStep(c: Cache, run: seq<Action>, i: nat, d: Cache)
    requires i < |run| && Enabled(c, run[i]) && Step(c, run[i]) == d && CanRun(d, run[i + 1..])
    ensures CanRun(c, run[i..]) && Run(c, run[i..]) == Run(d, run[i + 1..])
  {
    assert run[i..][1..] == run[i + 1..];
  }

  /** The state behind the first transfer: two holders, one write under way. */
  function Midway(disk: map<Key, Block>, k: Key, first: Block): Cache
    requires k in disk
  {
    One(k, Buf(k, 2, true, true, first, [Writing(1, true)]), disk[k := WithSector(disk[k], first, 0)])
  }

  /** The state in which both tasks hold the buffer. */
  function Shared(disk: map<Key, Block>, k: Key): Cache
    requires k in disk
  {
    One(k, Buf(k, 2, false, true, disk[k], []), disk)
  }

  lemma {:induction false} MeetingOpens(disk: map<Key, Block>, k: Key, j: Key, first: Block, second: Block)
    requires k in disk && CanRun(Shared(disk, k), Meeting(k, j, first, second)[3..])
    ensures var run := Meeting(k, j, first, second);
            CanRun(Boot(disk), run) && Run(Boot(disk), run) == Run(Shared(disk, k), run[3..])
  {
    var run := Meeting(k, j, first, second);
    var b1, b2 := NewBuf(k, Volume.ZeroBlock()), Buf(k, 1, false, true, disk[k], []);
    AgainInOne(k, b2, disk);
    TailStep(One(k, b2, disk), run, 2, Shared(disk, k));
    StepInOne(k, b1, disk, first);
    TailStep(One(k, b1, disk), run, 1, One(k, b2, disk));
    FirstInOne(disk, k);
    TailStep(Boot(disk), run, 0, One(k, b1, disk));
    assert run[0..] == run;
  }

  lemma {:induction false} MeetingStarts(disk: map<Key, Block>, k: Key, j: Key, first: Block, second: Block)
    requires k in disk && CanRun(Midway(disk, k, first), Meeting(k, j, first, second)[6..])
    ensures var run := Meeting(k, j, first, second);
            CanRun(Boot(disk), run) && Run(Boot(disk), run) == Run(Midway(disk, k, first), run[6..])
  {
    var run := Meeting(k, j, first, second);
    var b3, b4 := Buf(k, 2, false, true, disk[k], []), Buf(k, 2, true, true, first, []);
    var b5 := Buf(k, 2, true, true, first, [Writing(0, true)]);
    assert [] + [Writing(0, true)] == [Writing(0, true)];
    SendInOne(k, b5, disk, 0);
    TailStep(One(k, b5, disk), run, 5, Midway(disk, k, first));
    StepInOne(k, b4, disk, first);
    TailStep(One(k, b4, disk), run, 4, One(k, b5, disk));
    StepInOne(k, b3, disk, first);
    TailStep(Shared(disk, k), run, 3, One(k, b4, disk));
    MeetingOpens(disk, k, j, first, second);
  }

  /** What the device holds of block k in the end. */
  function Mixed(disk: map<Key, Block>, k: Key, first: Block, second: Block): Block
    requires k in disk
  {
    WithSector(WithSector(disk[k], first, 0), second, 1)
  }

  lemma {:induction false} MeetingEnds(disk: map<Key, Block>, k: Key, j: Key, first: Block, second: Block)
    requires k in disk && j in disk && k != j
    ensures var run := Meeting(k, j, first, second);
            var c := Midway(disk, k, first);
            && CanRun(c, run[6..])
            && var d := Run(c, run[6..]);
               |d.bufs| == 1 && d.bufs[0].key == j && d.disk == disk[k := Mixed(disk, k, first, second)]
  {
    var run := Meeting(k, j, first, second);
    var m := disk[k := WithSector(disk[k], first, 0)];
    var e := disk[k := Mixed(disk, k, first, second)];
    assert m[k := WithSector(m[k], second, 1)] == e;
    var b6, b7 := Buf(k, 2, true, true, first, [Writing(1, true)]), Buf(k, 2, true, true, second, [Writing(1, true)]);
    var b8 := Buf(k, 2, true, true, second, [Writing(2, true)]);
    var b9, b10 := Buf(k, 1, false, true, second, []), Buf(k, 0, false, true, second, []);
    OtherInOne(k, j, b10, e);
    assert run[11..] == [];
    TailStep(One(k, b10, e), run, 10, Getblk(One(k, b10, e), j).cache);
    StepInOne(k, b9, e, second);
    TailStep(One(k, b9, e), run, 9, One(k, b10, e));
    SendInOne(k, b8, e, 2);
    TailStep(One(k, b8, e), run, 8, One(k, b9, e));
    SendInOne(k, b7, m, 1);
    TailStep(One(k, b7, m), run, 7, One(k, b8, e));
    StepInOne(k, b6, m, second);
    TailStep(One(k, b6, m), run, 6, One(k, b7, m));
  }

  /** The run loses the edit: block k reads as its first sector was before, while the flat
      disk holds second. */
  lemma {:induction false} MeetingLosesEdit(disk: map<Key, Block>, k: Key, j: Key, first: Block, second: Block)
    requires k in disk && j in disk && k != j && Sector(first, 0) != Sector(second, 0)
    ensures var run := Meeting(k, j, first, second);
            && CanRun(Boot(disk), run) && FlatRun(disk, run) == disk[k := second]
            && var d := Run(Boot(disk), run);
               k in d.disk && Sector(ViewAt(d, k), 0) == Sector(first, 0) != Sector(second, 0)
  {
    var run := Meeting(k, j, first, second);
    MeetingEnds(disk, k, j, first, second);
    MeetingStarts(disk, k, j, first, second);
    var d := Run(Boot(disk), run);
    assert forall i: nat :: !Caches(d, i, k);
    WithSectorHas(WithSector(disk[k], first, 0), second, 1, 0);
    WithSectorHas(disk[k], first, 0, 0);
    FlatMeeting(disk, k, j, first, second);
  }

  lemma {:induction false} FlatMeeting(disk: map<Key, Block>, k: Key, j: Key, first: Block, second: Block)
    ensures FlatRun(disk, Meeting(k, j, first, second)) == disk[k := second]
  {
    var run := Meeting(k, j, first, second);
    FlatOpens(disk, run, k, first);
    FlatCloses(disk[k := first], run, k, second);
    assert disk[k := first][k := second] == disk[k := second];
  }

  lemma {:induction false} FlatOpens(disk: map<Key, Block>, run: seq<Action>, k: Key, first: Block)
    requires |run| == 11 && run[3] == Change(0, k, first) && forall x :: 0 <= x < 3 ==> !run[x].Change?
    ensures FlatRun(disk, run) == FlatRun(disk[k := first], run[4..])
  {
    FlatSkip(disk, run, 0, 3);
    FlatTail(disk, run, 3);
    assert run[0..] == run;
  }

  lemma {:induction false} FlatCloses(f: map<Key, Block>, run: seq<Action>, k: Key, second: Block)
    requires |run| == 11 && run[6] == Change(0, k, second)
    requires forall x :: 4 <= x < 11 && x != 6 ==> !run[x].Change?
    ensures FlatRun(f, run[4..]) == f[k := second]
  {
    FlatSkip(f, run, 4, 6);
    FlatTail(f, run, 6);
    FlatSkip(f[k := second], run, 7, 11);
    assert run[11..] == [];
  }

  lemma {:induction false} FlatSkip(m: map<Key, Block>, run: seq<Action>, i: nat, n: nat)
    requires i <= n <= |run| && forall x :: i <= x < n ==> !run[x].Change?
    ensures FlatRun(m, run[i..]) == FlatRun(m, run[n..])
    decreases n - i
  {
    if i >= n {
    } else {
      FlatTail(m, run, i);
      FlatSkip(m, run, i + 1, n);
    }
  }

  lemma {:induction false} FlatTail(m: map<Key, Block>, run: seq<Action>, i: nat)
    requires i < |run|
    ensures FlatRun(m, run[i..]) == FlatRun(FlatStep(m, run[i]), run[i + 1..])
  {
    assert run[i..][1..] == run[i + 1..];
  }

  // ----- The cache under the file layer -------------------------------------

  /** The cache shows the blocks of one device as a given flat disk. */
  ghost predicate Presents(c: Cache, dev: u32, disk: seq<Block>) {
    |disk| < 65536 && forall z :: 0 <= z < |disk| ==> Key(dev, z) in c.disk && ViewAt(c, Key(dev, z)) == disk[z]
  }

  /** A cache that shows the same, or the same but for one block of the device. */
  lemma ShownAlike(c: Cache, d: Cache, dev: u32, disk: seq<Block>)
    requires Presents(c, dev, disk) && View(d) == View(c)
    ensures Presents(d, dev, disk)
  {
    forall z | 0 <= z < |disk|
      ensures Key(dev, z) in d.disk && ViewAt(d, Key(dev, z)) == disk[z]
    {
      assert Key(dev, z) in View(c) && View(d)[Key(dev, z)] == View(c)[Key(dev, z)];
    }
  }

  lemma ShownChanged(c: Cache, d: Cache, dev: u32, disk: seq<Block>, z: nat, b: Block)
    requires Presents(c, dev, disk) && z < |disk| && View(d) == View(c)[Key(dev, z) := b]
    ensures Presents(d, dev, disk[z := b])
  {
    forall y | 0 <= y < |disk|
      ensures Key(dev, y) in d.disk && ViewAt(d, Key(dev, y)) == disk[z := b][y]
    {
      assert Key(dev, y) in View(c) && Key(dev, y) in View(d);
      assert View(d)[Key(dev, y)] == if y == z then b else View(c)[Key(dev, y)];
    }
  }

  lemma ShownElsewhere(c: Cache, d: Cache, dev: u32, disk: seq<Block>, k: Key, b: Block)
    requires Presents(c, dev, disk) && (k.dev != dev || k.block >= |disk|) && View(d) == View(c)[k := b]
    ensures Presents(d, dev, disk)
  {
    forall z | 0 <= z < |disk|
      ensures Key(dev, z) in d.disk && ViewAt(d, Key(dev, z)) == disk[z]
    {
      assert Key(dev, z) in View(c) && View(d)[Key(dev, z)] == View(c)[Key(dev, z)];
    }
  }

  /** The device after a step: the flat disk with the edit of that block, if it was one. */
  lemma StepServes(c: Cache, dev: u32, disk: seq<Block>, a: Action)
    requires Inv(c) && Presents(c, dev, disk) && Enabled(c, a) && Safe(c, a)
    ensures Inv(Step(c, a))
    ensures Presents(Step(c, a), dev,
                     if a.Change? && a.k.dev == dev && a.k.block < |disk| then disk[a.k.block := a.data] else disk)
  {
    StepRefines(c, a);
    var d := Step(c, a);
    if !a.Change? {
      ShownAlike(c, d, dev, disk);
    } else if a.k.dev == dev && a.k.block < |disk| {
      ShownChanged(c, d, dev, disk, a.k.block, a.data);
    } else {
      ShownElsewhere(c, d, dev, disk, a.k, a.data);
    }
  }
}
