/** The allocator as it runs: headers and free lists changed block by block. */
module ArenaStore {
  import opened Arena
  import opened ArenaInvariant

  /** list_remove. */
  function Removed(s: seq<Block>, x: Block): seq<Block> {
    if s == [] then [] else if s[0] == x then s[1..] else [s[0]] + Removed(s[1..], x)
  }

  lemma {:induction false} DropNext(s: seq<Block>, page: nat, n: nat)
    requires NoDup(s)
    ensures Removed(Dropped(s, page, n), Block(page, n)) == Dropped(s, page, n + 1)
  {
    if s == [] {
    } else {
      var t := s[1..];
      assert NoDup(t) by {
        forall i, j | 0 <= i < j < |t|
          ensures t[i] != t[j]
        {
          assert s[i + 1] != s[j + 1];
        }
      }
      if s[0] == Block(page, n) {
        assert s[0] !in t;
        DropAbsent(t, page, n);
      } else {
        DropNext(t, page, n);
        assert ([s[0]] + Dropped(t, page, n))[1..] == Dropped(t, page, n);
      }
    }
  }

  lemma {:induction false} DropAbsent(s: seq<Block>, page: nat, n: nat)
    requires Block(page, n) !in s
    ensures Dropped(s, page, n + 1) == Dropped(s, page, n)
  {
    if s == [] {
    } else {
      DropAbsent(s[1..], page, n);
    }
  }

  /** The block that is next is on the list still if it ever was, and gone after its removal. */
  lemma DropStep(s: seq<Block>, page: nat, i: nat)
    requires NoDup(s)
    ensures Block(page, i) in Dropped(s, page, i) <==> Block(page, i) in s
    ensures Removed(Dropped(s, page, i), Block(page, i)) == Dropped(s, page, i + 1)
    ensures Block(page, i) !in Dropped(s, page, i + 1)
  {
    DroppedIs(s, page, i);
    DroppedIs(s, page, i + 1);
    DropNext(s, page, i);
  }

  /** The first n blocks of the page are on the list. */
  ghost predicate AllListed(s: seq<Block>, page: nat, n: nat) {
    forall i :: 0 <= i < n ==> Block(page, i) in s
  }

  lemma ListedNext(s: seq<Block>, page: nat, i: nat, n: nat)
    requires AllListed(s, page, i) && i < n
    ensures AllListed(s, page, i + 1) <==> Block(page, i) in s
    ensures Block(page, i) !in s ==> !AllListed(s, page, n)
  {
  }

  /** When the count of an arena has reached its total, all its blocks are listed. */
  lemma FullIsListed(h: Heap, page: nat)
    requires Loose(h, page) && page in h.headers && h.headers[page].Small?
    ensures h.headers[page].cls < |h.free| && NoDup(h.free[h.headers[page].cls])
    ensures h.headers[page].count == Total(h.headers[page].cls) ==>
        AllListed(h.free[h.headers[page].cls], page, Total(h.headers[page].cls))
  {
    FreeOfBound(h.free[h.headers[page].cls], page, h.headers[page].cls);
  }

  lemma {:induction false} DropNone(s: seq<Block>, page: nat)
    ensures Dropped(s, page, 0) == s
  {
    if s == [] {
    } else {
      DropNone(s[1..], page);
    }
  }

  /** The block that a small request gets lies in an arena of its class. */
  ghost predicate HeadInClass(h: Heap, size: nat, page: nat)
    requires size <= LARGEST && |h.free| == CLASSES
  {
    var c := ClassOf(size);
    var g := if h.free[c] == [] then Carve(h, c, page) else h;
    g.free[c] != [] && g.free[c][0] == Returned(h, size, page) && InClass(g.headers, g.free[c][0], c)
  }

  class Arenas {
    var headers: map<nat, Header>
    var free: seq<seq<Block>>
    ghost var live: map<Block, nat>

    ghost function State(): Heap
      reads this
    {
      Heap(headers, free, live)
    }

    /** arena_init. */
    constructor ()
      ensures Inv(State()) && State() == Fresh()
    {
      headers := map[];
      free := [[], [], [], [], [], [], []];
      live := map[];
    }

    /** The loop over the descriptors. */
    method FindClass(size: nat) returns (c: nat)
      requires size <= LARGEST
      ensures c == ClassOf(size)
    {
      c := 0;
      while c < CLASSES - 1 && BlockSize(c) < size
        invariant c < CLASSES && forall d :: 0 <= d < c ==> BlockSize(d) < size
      {
        c := c + 1;
      }
      SameClass(size, c);
    }

    lemma SameClass(size: nat, c: nat)
      requires size <= LARGEST && c < CLASSES && forall d :: 0 <= d < c ==> BlockSize(d) < size
      requires c == CLASSES - 1 || size <= BlockSize(c)
      ensures c == ClassOf(size)
    {
      assert size <= BlockSize(c);
    }

    /** A new page becomes an arena; its blocks are pushed one by one. */
    method CarvePage(c: nat, page: nat)
      requires c < |free| && forall x :: x in free[c] ==> x.page != page
      modifies this`headers, this`free
      ensures headers == old(headers)[page := Small(c, Total(c))]
      ensures free == old(free)[c := Carved(page, Total(c)) + old(free)[c]]
    {
      headers := headers[page := Small(c, Total(c))];
      assert [] + free[c] == free[c];
      for i := 0 to Total(c)
        invariant headers == old(headers)[page := Small(c, Total(c))]
        invariant c < |free| && free == old(free)[c := Carved(page, i) + old(free)[c]]
      {
        assert [Block(page, i)] + (Carved(page, i) + old(free)[c]) == Carved(page, i + 1) + old(free)[c];
        CarvedIs(page, i);
        assert Block(page, i) !in free[c];
        free := free[c := [Block(page, i)] + free[c]];
        assert Block(page, i) in free[c];
      }
    }

    /** list_pop, and the count of its arena. */
    method PopBlock(c: nat, ghost size: nat) returns (b: Block)
      requires c < |free| && free[c] != [] && free[c][0].page in headers
      modifies this
      ensures b == old(free)[c][0] && State() == Pop(old(State()), c, size)
    {
      b := free[c][0];
      free := free[c := free[c][1..]];
      headers := headers[b.page := Fewer(headers[b.page])];
      live := live[b := size];
    }

    /** kmalloc; it fails when alloc_kpage asserts. */
    method Kmalloc(size: nat, page: nat) returns (ok: bool, b: Block, addr: nat)
      requires Inv(State()) && size < TWO_32
      requires Unowned(State(), page, if size > LARGEST then PagesFor(size) else 1)
      modifies this
      ensures ok <==> !Asserts(size)
      ensures ok ==> State() == Malloc(old(State()), size, page) && (Inv(State()) <==> !Short(size))
      ensures ok ==> b == Returned(old(State()), size, page) && b !in old(live) && addr == Addr(headers, b)
    {
      ok, b, addr := true, Block(0, 0), 0;
      if size > LARGEST && PagesFor(size) == 0 {
        return false, b, addr;
      }
      MallocIsSoundIff(State(), size, page);
      MallocGives(State(), size, page);
      if size > LARGEST {
        b, addr := KmallocLarge(size, page);
      } else {
        PageOfHead(State(), size, page);
        b, addr := KmallocSmall(size, page);
      }
    }

    method KmallocLarge(size: nat, page: nat) returns (b: Block, addr: nat)
      modifies this
      ensures State() == MallocLarge(old(State()), size, page) && b == Block(page, 0) && addr == Addr(headers, b)
    {
      headers := headers[page := Large(PagesFor(size))];
      b := Block(page, 0);
      live := live[b := size];
      addr := page * PAGE_SIZE + HEADER;
    }

    method KmallocSmall(size: nat, page: nat) returns (b: Block, addr: nat)
      requires size <= LARGEST && |free| == CLASSES && HeadInClass(State(), size, page)
      modifies this
      ensures State() == MallocSmall(old(State()), size, page)
      ensures b == Returned(old(State()), size, page) && addr == Addr(headers, b)
    {
      var c := FindClass(size);
      if free[c] == [] {
        CarvePage(c, page);
      }
      b := PopBlock(c, size);
      addr := b.page * PAGE_SIZE + HEADER + b.idx * BlockSize(c);
    }

    lemma PageOfHead(h: Heap, size: nat, page: nat)
      requires Inv(h) && size <= LARGEST && Unowned(h, page, 1)
      ensures HeadInClass(h, size, page)
    {
      var c := ClassOf(size);
      if h.free[c] == [] {
        CarveIsLoose(h, c, page);
      }
      var g := if h.free[c] == [] then Carve(h, c, page) else h;
      assert g.free[c][0] in g.free[c];
    }

    /** One round: list_search and list_remove. */
    method TakeBlock(c: nat, b: Block) returns (ok: bool)
      requires c < |free|
      modifies this`free
      ensures ok <==> b in old(free)[c]
      ensures ok ==> free == old(free)[c := Removed(old(free)[c], b)]
    {
      if b !in free[c] {
        return false;
      }
      free := free[c := Removed(free[c], b)];
      return true;
    }

    /** The loop that takes the blocks of a page off their list; it asserts that each is
        there before, and DropStep says that none is afterwards. */
    method Reclaim(c: nat, page: nat) returns (ok: bool)
      requires c < |free| && NoDup(free[c])
      modifies this`headers, this`free
      ensures ok <==> AllListed(old(free)[c], page, Total(c))
      ensures ok ==> headers == Forget(old(headers), page)
      ensures ok ==> free == old(free)[c := Dropped(old(free)[c], page, Total(c))]
    {
      ghost var all, was, n := free, free[c], Total(c);
      DropNone(was, page);
      ok := true;
      for i := 0 to Total(c)
        invariant headers == old(headers) && |free| == |all|
        invariant free == all[c := Dropped(was, page, i)]
        invariant AllListed(was, page, i)
      {
        DropStep(was, page, i);
        ListedNext(was, page, i, n);
        ok := TakeBlock(c, Block(page, i));
        if !ok {
          return;
        }
      }
      headers := Forget(headers, page);
    }

    /** kfree of the address of a block that the caller holds; none of its assertions fails. */
    method Kfree(addr: nat, ghost b: Block) returns (ok: bool)
      requires Inv(State()) && b in live && addr == Addr(headers, b)
      modifies this
      ensures ok && b.page in old(headers) && State() == Free(old(State()), b) && Inv(State())
    {
      FreeKeepsInv(State(), b);
      MaskFindsArena(State(), b);
      assert LivesIn(State(), b);
      var page := addr / PAGE_SIZE;
      ok := true;
      if headers[page].Large? {
        headers := Forget(headers, page);
        live := Forget(live, b);
      } else {
        PushIsLoose(State(), b);
        FullIsListed(Push(State(), b), page);
        ok := KfreeSmall(page, addr, b);
      }
    }

    method KfreeSmall(page: nat, addr: nat, ghost b: Block) returns (ok: bool)
      requires |free| == CLASSES && page in headers && headers[page].Small? && headers[page].cls < CLASSES
      requires b.page == page && addr == Addr(headers, b)
      requires var c, s := headers[page].cls, [b] + free[headers[page].cls];
               NoDup(s) && (headers[page].count + 1 == Total(c) ==> AllListed(s, page, Total(c)))
      modifies this
      ensures ok && State() == Free(old(State()), b)
    {
      ok := true;
      var c, count := headers[page].cls, headers[page].count;
      var block := Block(page, (addr - page * PAGE_SIZE - HEADER) / BlockSize(c));
      PlaceFromAddress(c, b.idx);
      PushBlock(block, c);
      if count + 1 == Total(c) {
        ok := Reclaim(c, page);
      }
    }

    /** list_push, and the count of the arena. */
    method PushBlock(b: Block, c: nat)
      requires |free| == CLASSES && b.page in headers && headers[b.page].Small? && headers[b.page].cls == c < CLASSES
      modifies this
      ensures State() == Push(old(State()), b)
    {
      headers := headers[b.page := Small(c, headers[b.page].count + 1)];
      free := free[c := [b] + free[c]];
      live := Forget(live, b);
    }
  }

  lemma PlaceFromAddress(c: nat, i: nat)
    ensures i * BlockSize(c) / BlockSize(c) == i
  {
    match c
    case 0 => case 1 => case 2 => case 3 => case 4 => case 5 => case _ =>
  }
}
