/** Every kmalloc and kfree keeps the arenas sound. */
module ArenaInvariant {
  import opened Arena

  // ----- Taking a block -----------------------------------------------------

  lemma PopListed(h: Heap, c: nat, size: nat)
    requires Listed(h) && c < CLASSES && h.free[c] != []
    ensures Listed(Pop(h, c, size))
  {
    var h', b := Pop(h, c, size), h.free[c][0];
    assert InClass(h.headers, b, c) && b !in h.live;
    assert h.free[c] == [b] + h.free[c][1..];
    forall d: nat, x | d < CLASSES
      ensures x in h'.free[d] <==> InClass(h'.headers, x, d) && x !in h'.live
    {
      assert x in h.free[d] <==> InClass(h.headers, x, d) && x !in h.live;
      assert InClass(h'.headers, x, d) <==> InClass(h.headers, x, d);
    }
  }

  lemma PopCounted(h: Heap, c: nat, size: nat)
    requires Listed(h) && c < CLASSES && h.free[c] != [] && Shaped(h.headers)
    requires forall p :: p in h.headers && h.headers[p].Small? ==>
               && h.headers[p].count == |FreeOf(h.free[h.headers[p].cls], p, h.headers[p].cls)|
               && (h.headers[p].count < Total(h.headers[p].cls)
                   || (p == h.free[c][0].page && h.headers[p].count == Total(h.headers[p].cls)))
    ensures Counted(Pop(h, c, size))
  {
    var h', b := Pop(h, c, size), h.free[c][0];
    assert InClass(h.headers, b, c);
    assert h.free[c] == [b] + h.free[c][1..];
    forall p | p in h'.headers && h'.headers[p].Small? && h'.headers[p].cls < CLASSES
      ensures h'.headers[p].count == |FreeOf(h'.free[h'.headers[p].cls], p, h'.headers[p].cls)|
      ensures h'.headers[p].count < Total(h'.headers[p].cls)
    {
      var d := h.headers[p].cls;
      if p == b.page {
        assert b.idx in FreeOf(h.free[c], p, c);
        assert FreeOf(h'.free[c], p, c) == FreeOf(h.free[c], p, c) - {b.idx};
      } else {
        assert FreeOf(h'.free[d], p, d) == FreeOf(h.free[d], p, d);
      }
    }
  }

  /** Sound but for one arena that was just carved, or will be given back: all its blocks
      may be free. */
  ghost predicate Loose(h: Heap, page: nat) {
    && Shaped(h.headers) && Listed(h) && Lives(h) && PagesApart(h.headers)
    && forall p :: p in h.headers && h.headers[p].Small? ==>
                     && h.headers[p].count == |FreeOf(h.free[h.headers[p].cls], p, h.headers[p].cls)|
                     && (p == page || h.headers[p].count < Total(h.headers[p].cls))
  }

  lemma FreeOfBound(s: seq<Block>, page: nat, c: nat)
    ensures |FreeOf(s, page, c)| <= Total(c)
    ensures |FreeOf(s, page, c)| == Total(c) ==> forall i :: 0 <= i < Total(c) ==> Block(page, i) in s
  {
    var all := Numbers(Total(c));
    SubsetSize(FreeOf(s, page, c), all);
    if |FreeOf(s, page, c)| == Total(c) {
      forall i | 0 <= i < Total(c)
        ensures Block(page, i) in s
      {
        assert i in all;
      }
    }
  }

  /** The numbers below n. */
  ghost function Numbers(n: nat): (s: set<nat>)
    ensures |s| == n && forall i: nat :: i in s <==> i < n
  {
    if n == 0 then {} else Numbers(n - 1) + {n - 1}
  }

  lemma {:induction false} SubsetSize(a: set<nat>, b: set<nat>)
    requires a <= b
    ensures |a| <= |b| && (|a| == |b| ==> a == b)
  {
    if a != {} {
      var x :| x in a;
      SubsetSize(a - {x}, b - {x});
    } else if b != {} {
      var x :| x in b;
      assert |b| > 0;
    }
  }

  lemma PopKeepsLives(h: Heap, c: nat, size: nat, page: nat)
    requires Loose(h, page) && c < CLASSES && h.free[c] != [] && size <= BlockSize(c)
    ensures Lives(Pop(h, c, size)) && Shaped(Pop(h, c, size).headers) && PagesApart(Pop(h, c, size).headers)
  {
    var h', b := Pop(h, c, size), h.free[c][0];
    assert InClass(h.headers, b, c) && b !in h.live;
    forall x | x in h'.live
      ensures LivesIn(h', x)
    {
      assert x != b ==> LivesIn(h, x);
    }
  }

  lemma PopKeepsInv(h: Heap, c: nat, size: nat)
    requires c < CLASSES && |h.free| == CLASSES && h.free[c] != [] && Loose(h, h.free[c][0].page)
        && size <= BlockSize(c)
    ensures Inv(Pop(h, c, size))
  {
    PopListed(h, c, size);
    forall p | p in h.headers && h.headers[p].Small?
      ensures h.headers[p].count <= Total(h.headers[p].cls)
    {
      FreeOfBound(h.free[h.headers[p].cls], p, h.headers[p].cls);
    }
    PopCounted(h, c, size);
    PopKeepsLives(h, c, size, h.free[c][0].page);
  }

  // ----- A new arena --------------------------------------------------------

  lemma {:induction false} CarvedIs(page: nat, n: nat)
    ensures NoDup(Carved(page, n)) && |Carved(page, n)| == n
    ensures forall b :: b in Carved(page, n) <==> b.page == page && b.idx < n
  {
    if n == 0 {
    } else {
      CarvedIs(page, n - 1);
      assert Carved(page, n) == [Block(page, n - 1)] + Carved(page, n - 1);
    }
  }

  lemma CarveListed(h: Heap, c: nat, page: nat)
    requires Inv(h) && c < CLASSES && h.free[c] == [] && Unowned(h, page, 1)
    ensures Listed(Carve(h, c, page))
  {
    var h' := Carve(h, c, page);
    CarvedIs(page, Total(c));
    assert h'.free[c] == Carved(page, Total(c));
    forall d: nat, x | d < CLASSES
      ensures x in h'.free[d] <==> InClass(h'.headers, x, d) && x !in h'.live
    {
      assert x in h.free[d] <==> InClass(h.headers, x, d) && x !in h.live;
      assert x in h.live ==> LivesIn(h, x);
      assert x.page != page ==> (InClass(h'.headers, x, d) <==> InClass(h.headers, x, d));
    }
  }

  lemma CarveCounted(h: Heap, c: nat, page: nat, p: nat)
    requires Inv(h) && c < CLASSES && h.free[c] == [] && Unowned(h, page, 1)
    requires var h' := Carve(h, c, page); p in h'.headers && h'.headers[p].Small? && h'.headers[p].cls < CLASSES
    ensures var h' := Carve(h, c, page);
            && h'.headers[p].count == |FreeOf(h'.free[h'.headers[p].cls], p, h'.headers[p].cls)|
            && (p == page || h'.headers[p].count < Total(h'.headers[p].cls))
  {
    var h' := Carve(h, c, page);
    CarvedIs(page, Total(c));
    assert h'.free[c] == Carved(page, Total(c));
    if p == page {
      assert FreeOf(h'.free[c], page, c) == Numbers(Total(c));
    } else {
      var d := h.headers[p].cls;
      assert FreeOf(h'.free[d], p, d) == FreeOf(h.free[d], p, d);
    }
  }

  lemma CarveIsLoose(h: Heap, c: nat, page: nat)
    requires Inv(h) && c < CLASSES && h.free[c] == [] && Unowned(h, page, 1)
    ensures Loose(Carve(h, c, page), page) && Carve(h, c, page).free[c] != []
        && Carve(h, c, page).free[c][0] == Block(page, Total(c) - 1)
  {
    var h' := Carve(h, c, page);
    CarveListed(h, c, page);
    forall p | p in h'.headers && h'.headers[p].Small? && h'.headers[p].cls < CLASSES
      ensures h'.headers[p].count == |FreeOf(h'.free[h'.headers[p].cls], p, h'.headers[p].cls)|
      ensures p == page || h'.headers[p].count < Total(h'.headers[p].cls)
    {
      CarveCounted(h, c, page, p);
    }
    forall x | x in h'.live
      ensures LivesIn(h', x)
    {
      assert LivesIn(h, x);
    }
  }

  lemma InvIsLoose(h: Heap, page: nat)
    requires Inv(h)
    ensures Loose(h, page)
  {
  }

  lemma MallocSmallKeepsInv(h: Heap, size: nat, page: nat)
    requires Inv(h) && size <= LARGEST && Unowned(h, page, 1)
    ensures Inv(MallocSmall(h, size, page))
  {
    var c := ClassOf(size);
    if h.free[c] == [] {
      CarveIsLoose(h, c, page);
      PopKeepsInv(Carve(h, c, page), c, size);
    } else {
      InvIsLoose(h, h.free[c][0].page);
      PopKeepsInv(h, c, size);
    }
  }

  /** n pages that hold the header and the block. */
  lemma LargeKeepsInv(h: Heap, size: nat, page: nat, n: nat)
    requires Inv(h) && LARGEST < size && HEADER + size <= n * PAGE_SIZE && Unowned(h, page, n)
    ensures Inv(h.(headers := h.headers[page := Large(n)], live := h.live[Block(page, 0) := size]))
  {
    var h' := h.(headers := h.headers[page := Large(n)], live := h.live[Block(page, 0) := size]);
    assert h'.free == h.free;
    forall d: nat, x | d < CLASSES
      ensures x in h'.free[d] <==> InClass(h'.headers, x, d) && x !in h'.live
    {
      assert x in h.free[d] <==> InClass(h.headers, x, d) && x !in h.live;
    }
    forall x | x in h'.live
      ensures LivesIn(h', x)
    {
      assert x in h.live ==> LivesIn(h, x);
    }
  }

  lemma MallocLargeKeepsInv(h: Heap, size: nat, page: nat)
    requires Inv(h) && LARGEST < size < TWO_32 && !Asserts(size) && !Short(size) && Unowned(h, page, PagesFor(size))
    ensures Inv(MallocLarge(h, size, page))
  {
    PagesAreEnoughIff(size);
    LargeKeepsInv(h, size, page, PagesFor(size));
  }

  /** A large request that alloc_kpage serves leaves a sound heap exactly when its sum with
      the header does not wrap round; the others get one page for nearly 2^32 bytes. */
  lemma MallocLargeIsSoundIff(h: Heap, size: nat, page: nat)
    requires Inv(h) && LARGEST < size < TWO_32 && !Asserts(size) && Unowned(h, page, PagesFor(size))
    ensures Inv(MallocLarge(h, size, page)) <==> !Short(size)
  {
    if !Short(size) {
      MallocLargeKeepsInv(h, size, page);
    } else {
      PagesAreEnoughIff(size);
      assert !LivesIn(MallocLarge(h, size, page), Block(page, 0));
    }
  }

  lemma MallocIsSoundIff(h: Heap, size: nat, page: nat)
    requires Inv(h) && size < TWO_32 && !Asserts(size)
    requires Unowned(h, page, if size > LARGEST then PagesFor(size) else 1)
    ensures Inv(Malloc(h, size, page)) <==> !Short(size)
  {
    if size > LARGEST {
      MallocLargeIsSoundIff(h, size, page);
    } else {
      MallocSmallKeepsInv(h, size, page);
    }
  }

  // ----- Giving a block back ------------------------------------------------

  lemma FreeLargeKeepsInv(h: Heap, b: Block)
    requires Inv(h) && b in h.live && b.page in h.headers && h.headers[b.page].Large?
    ensures Inv(Free(h, b))
  {
    var h' := Free(h, b);
    assert LivesIn(h, b);
    forall d: nat, x | d < CLASSES
      ensures x in h'.free[d] <==> InClass(h'.headers, x, d) && x !in h'.live
    {
      assert x in h.free[d] <==> InClass(h.headers, x, d) && x !in h.live;
    }
    forall x | x in h'.live
      ensures LivesIn(h', x)
    {
      assert LivesIn(h, x);
    }
  }

  lemma PushListed(h: Heap, b: Block)
    requires Inv(h) && b in h.live && b.page in h.headers && h.headers[b.page].Small?
    ensures Listed(Push(h, b))
  {
    var h', c := Push(h, b), h.headers[b.page].cls;
    assert LivesIn(h, b) && InClass(h.headers, b, c);
    forall d: nat, x | d < CLASSES
      ensures x in h'.free[d] <==> InClass(h'.headers, x, d) && x !in h'.live
    {
      assert x in h.free[d] <==> InClass(h.headers, x, d) && x !in h.live;
      assert InClass(h'.headers, x, d) <==> InClass(h.headers, x, d);
    }
    assert b !in h.free[c];
  }

  lemma PushCounted(h: Heap, b: Block, p: nat)
    requires Inv(h) && b in h.live && b.page in h.headers && h.headers[b.page].Small?
    requires p in h.headers && h.headers[p].Small?
    ensures var h' := Push(h, b);
            h'.headers[p].count == |FreeOf(h'.free[h'.headers[p].cls], p, h'.headers[p].cls)|
  {
    var h', c, d := Push(h, b), h.headers[b.page].cls, h.headers[p].cls;
    assert LivesIn(h, b) && InClass(h.headers, b, c) && b !in h.free[c];
    if p == b.page {
      assert FreeOf(h'.free[c], p, c) == FreeOf(h.free[c], p, c) + {b.idx};
    } else {
      assert FreeOf(h'.free[d], p, d) == FreeOf(h.free[d], p, d);
    }
  }

  lemma PushIsLoose(h: Heap, b: Block)
    requires Inv(h) && b in h.live && b.page in h.headers && h.headers[b.page].Small?
    ensures Loose(Push(h, b), b.page)
  {
    var h' := Push(h, b);
    PushListed(h, b);
    forall p | p in h'.headers && h'.headers[p].Small?
      ensures h'.headers[p].count == |FreeOf(h'.free[h'.headers[p].cls], p, h'.headers[p].cls)|
    {
      PushCounted(h, b, p);
    }
    forall x | x in h'.live
      ensures LivesIn(h', x)
    {
      assert LivesIn(h, x);
    }
  }

  lemma {:induction false} DroppedIs(s: seq<Block>, page: nat, n: nat)
    requires NoDup(s)
    ensures NoDup(Dropped(s, page, n))
    ensures forall x :: x in Dropped(s, page, n) <==> x in s && !(x.page == page && x.idx < n)
  {
    if s == [] {
    } else {
      var t := s[1..];
      assert s == [s[0]] + t;
      assert NoDup(t) by {
        forall i, j | 0 <= i < j < |t|
          ensures t[i] != t[j]
        {
          assert s[i + 1] != s[j + 1];
        }
      }
      assert s[0] !in t;
      DroppedIs(t, page, n);
    }
  }

  /** An arena whose blocks are all free: nobody holds one of them. */
  lemma AllFree(h: Heap, page: nat)
    requires Loose(h, page) && page in h.headers && h.headers[page].Small?
    requires h.headers[page].count == Total(h.headers[page].cls)
    ensures forall x :: x in h.live ==> x.page != page
  {
    var c := h.headers[page].cls;
    FreeOfBound(h.free[c], page, c);
    forall x | x in h.live
      ensures x.page != page
    {
      assert LivesIn(h, x) && x == Block(x.page, x.idx);
    }
  }

  lemma GiveBackListed(h: Heap, page: nat)
    requires Loose(h, page) && page in h.headers && h.headers[page].Small?
    ensures Listed(GiveBack(h, page, h.headers[page].cls))
  {
    var c := h.headers[page].cls;
    var h' := GiveBack(h, page, c);
    DroppedIs(h.free[c], page, Total(c));
    forall d: nat, x | d < CLASSES
      ensures x in h'.free[d] <==> InClass(h'.headers, x, d) && x !in h'.live
    {
      assert x in h.free[d] <==> InClass(h.headers, x, d) && x !in h.live;
    }
  }

  lemma GiveBackKeepsInv(h: Heap, page: nat)
    requires Loose(h, page) && page in h.headers && h.headers[page].Small?
    requires h.headers[page].count == Total(h.headers[page].cls)
    ensures Inv(GiveBack(h, page, h.headers[page].cls))
  {
    var c := h.headers[page].cls;
    var h' := GiveBack(h, page, c);
    GiveBackListed(h, page);
    AllFree(h, page);
    DroppedIs(h.free[c], page, Total(c));
    forall p | p in h'.headers && h'.headers[p].Small?
      ensures h'.headers[p].count == |FreeOf(h'.free[h'.headers[p].cls], p, h'.headers[p].cls)|
    {
      var d := h.headers[p].cls;
      assert FreeOf(h'.free[d], p, d) == FreeOf(h.free[d], p, d);
    }
    forall x | x in h'.live
      ensures LivesIn(h', x)
    {
      assert LivesIn(h, x);
    }
  }

  lemma FreeKeepsInv(h: Heap, b: Block)
    requires Inv(h) && b in h.live
    ensures b.page in h.headers && Inv(Free(h, b))
  {
    assert LivesIn(h, b);
    if h.headers[b.page].Large? {
      FreeLargeKeepsInv(h, b);
    } else {
      PushIsLoose(h, b);
      if h.headers[b.page].count + 1 == Total(h.headers[b.page].cls) {
        GiveBackKeepsInv(Push(h, b), b.page);
      }
    }
  }

  // ----- Runs ---------------------------------------------------------------

  /** page is what alloc_kpage returns if it is asked. */
  datatype Action = Allocs(size: nat, page: nat) | Frees(b: Block)

  /** A size for which no assertion fails and no block comes out short, and a block that the
      caller holds. */
  ghost predicate Enabled(h: Heap, a: Action) {
    match a
    case Allocs(size, page) =>
      size < TWO_32 && !Asserts(size) && !Short(size) && Unowned(h, page, if size > LARGEST then PagesFor(size) else 1)
    case Frees(b) => b in h.live
  }

  ghost function Step(h: Heap, a: Action): Heap
    requires Inv(h) && Enabled(h, a)
  {
    match a
    case Allocs(size, page) => Malloc(h, size, page)
    case Frees(b) => assert LivesIn(h, b); Free(h, b)
  }

  lemma StepKeepsInv(h: Heap, a: Action)
    requires Inv(h) && Enabled(h, a)
    ensures Inv(Step(h, a))
  {
    match a
    case Allocs(size, page) =>
      if size > LARGEST {
        MallocLargeKeepsInv(h, size, page);
      } else {
        MallocSmallKeepsInv(h, size, page);
      }
    case Frees(b) => FreeKeepsInv(h, b);
  }

  ghost predicate CanRun(h: Heap, run: seq<Action>)
    decreases |run|
  {
    run == [] || (Inv(h) && Enabled(h, run[0]) && CanRun(Step(h, run[0]), run[1..]))
  }

  ghost function Run(h: Heap, run: seq<Action>): Heap
    requires CanRun(h, run)
    decreases |run|
  {
    if run == [] then h else Run(Step(h, run[0]), run[1..])
  }

  lemma {:induction false} RunKeepsInv(h: Heap, run: seq<Action>)
    requires Inv(h) && CanRun(h, run)
    ensures Inv(Run(h, run))
    decreases |run|
  {
    if run == [] {
    } else {
      StepKeepsInv(h, run[0]);
      RunKeepsInv(Step(h, run[0]), run[1..]);
    }
  }

  /** arena_init. */
  function Fresh(): Heap {
    Heap(map[], [[], [], [], [], [], [], []], map[])
  }

  // ----- What callers rely on -----------------------------------------------

  /** kmalloc hands out a block that was not in use, for the size asked. */
  lemma MallocGives(h: Heap, size: nat, page: nat)
    requires Inv(h) && Unowned(h, page, if size > LARGEST then PagesFor(size) else 1)
    ensures Returned(h, size, page) !in h.live
    ensures Malloc(h, size, page).live == h.live[Returned(h, size, page) := size]
  {
    if size <= LARGEST {
      var c := ClassOf(size);
      if h.free[c] != [] {
        assert h.free[c][0] in h.free[c] && InClass(h.headers, h.free[c][0], c);
      } else {
        CarveIsLoose(h, c, page);
        var b := Block(page, Total(c) - 1);
        assert b in h.live ==> LivesIn(h, b);
      }
    } else {
      var b := Block(page, 0);
      assert b in h.live ==> LivesIn(h, b);
    }
  }

  /** The bytes of a live block lie in the pages of its arena, behind the header. */
  lemma BytesInside(h: Heap, b: Block, a: nat)
    requires Inv(h) && Byte(h, b, a)
    ensures b.page in h.headers
    ensures b.page * PAGE_SIZE + HEADER <= a < (b.page + Extent(h.headers[b.page])) * PAGE_SIZE
  {
    assert LivesIn(h, b);
    if h.headers[b.page].Small? {
      BlockInPage(h.headers[b.page].cls, b.idx);
    }
  }

  /** No byte belongs to two live blocks, and none of them to a header. */
  lemma LiveBlocksAreDisjoint(h: Heap, b: Block, d: Block, a: nat)
    requires Inv(h) && Byte(h, b, a)
    ensures Byte(h, d, a) ==> b == d
    ensures forall p :: p in h.headers ==> !(p * PAGE_SIZE <= a < p * PAGE_SIZE + HEADER)
  {
    BytesInside(h, b, a);
    assert LivesIn(h, b);
    if Byte(h, d, a) {
      BytesInside(h, d, a);
      assert LivesIn(h, d);
      SamePage(h.headers, b.page, d.page, a);
      if h.headers[b.page].Small? && b.idx != d.idx {
        BlocksApart(h.headers[b.page].cls, if b.idx < d.idx then b.idx else d.idx,
                    if b.idx < d.idx then d.idx else b.idx);
      }
    }
    forall p | p in h.headers
      ensures !(p * PAGE_SIZE <= a < p * PAGE_SIZE + HEADER)
    {
      if p * PAGE_SIZE <= a < p * PAGE_SIZE + HEADER {
        SamePage(h.headers, b.page, p, a);
      }
    }
  }

  lemma SamePage(headers: map<nat, Header>, p: nat, q: nat, a: nat)
    requires Shaped(headers) && PagesApart(headers) && p in headers && q in headers
    requires p * PAGE_SIZE <= a < (p + Extent(headers[p])) * PAGE_SIZE
    requires q * PAGE_SIZE <= a < (q + Extent(headers[q])) * PAGE_SIZE
    ensures p == q
  {
    var m, n := Extent(headers[p]), Extent(headers[q]);
    assert p != q ==> Apart(p, m, q, n);
  }

  /** A page belongs to the allocator exactly as long as somebody holds a block in it. */
  lemma PageIsHeldIff(h: Heap, page: nat)
    requires Inv(h)
    ensures page in h.headers <==> exists b :: b in h.live && b.page == page
  {
    if page in h.headers {
      if h.headers[page].Large? {
        assert Block(page, 0) in h.live;
      } else {
        var c := h.headers[page].cls;
        assert (forall i: nat :: i < Total(c) ==> Block(page, i) in h.free[c]) ==>
            FreeOf(h.free[c], page, c) == Numbers(Total(c));
        var i: nat :| i < Total(c) && Block(page, i) !in h.free[c];
        assert InClass(h.headers, Block(page, i), c);
      }
    }
    if b :| b in h.live && b.page == page {
      assert LivesIn(h, b);
    }
  }

  /** Over every run of kmalloc and kfree: no two live blocks share a byte, all lie outside
      the headers, a page is owned exactly while a block of it is held, and when every block
      is given back nothing is left. */
  lemma ArenaIsSafe(run: seq<Action>)
    requires CanRun(Fresh(), run)
    ensures var h := Run(Fresh(), run);
            && (forall b, d, a: nat :: Byte(h, b, a) && Byte(h, d, a) ==> b == d)
            && (forall b, a: nat, p :: Byte(h, b, a) && p in h.headers ==>
                !(p * PAGE_SIZE <= a < p * PAGE_SIZE + HEADER))
            && (forall p :: p in h.headers <==> exists b :: b in h.live && b.page == p)
            && (h.live == map[] ==> h.headers == map[] && forall c :: 0 <= c < |h.free| ==> h.free[c] == [])
  {
    RunKeepsInv(Fresh(), run);
    var h := Run(Fresh(), run);
    forall b, d, a: nat | Byte(h, b, a) && Byte(h, d, a)
      ensures b == d
    {
      LiveBlocksAreDisjoint(h, b, d, a);
    }
    forall b, a: nat, p | Byte(h, b, a) && p in h.headers
      ensures !(p * PAGE_SIZE <= a < p * PAGE_SIZE + HEADER)
    {
      LiveBlocksAreDisjoint(h, b, b, a);
    }
    forall p
      ensures p in h.headers <==> exists b :: b in h.live && b.page == p
    {
      PageIsHeldIff(h, p);
    }
    if h.live == map[] {
      forall c | 0 <= c < |h.free|
        ensures h.free[c] == []
      {
        assert h.free[c] != [] ==> h.free[c][0] in h.free[c] && InClass(h.headers, h.free[c][0], c);
      }
    }
  }
}
