/** kmalloc and kfree (src/kernel/arena.c): pages cut into blocks of seven sizes, each size
    with its free list, and runs of whole pages for what is larger. */
module Arena {
  const PAGE_SIZE: nat := 4096
  const HEADER: nat := 16
  const CLASSES: nat := 7
  const LARGEST: nat := 1024
  const TWO_32: nat := 0x1_0000_0000

  function BlockSize(c: nat): (n: nat)
    ensures 16 <= n <= LARGEST
  {
    match c
    case 0 => 16
    case 1 => 32
    case 2 => 64
    case 3 => 128
    case 4 => 256
    case 5 => 512
    case _ => 1024
  }

  /** The blocks that fit into a page behind its header. */
  function Total(c: nat): (n: nat)
    ensures n > 0 && HEADER + n * BlockSize(c) <= PAGE_SIZE
  {
    (PAGE_SIZE - HEADER) / BlockSize(c)
  }

  /** The sizes double from 16 to 1024, and a page has as many blocks as fit behind its header. */
  lemma SizesDouble(c: nat)
    requires c < CLASSES
    ensures BlockSize(0) == 16 && BlockSize(CLASSES - 1) == LARGEST
    ensures c > 0 ==> BlockSize(c) == 2 * BlockSize(c - 1)
    ensures HEADER + (Total(c) + 1) * BlockSize(c) > PAGE_SIZE
  {
  }

  /** The class of a size: the first whose blocks are large enough. */
  function ClassOf(size: nat): (c: nat)
    requires size <= LARGEST
    ensures c < CLASSES && size <= BlockSize(c) && forall d :: 0 <= d < c ==> BlockSize(d) < size
  {
    if size <= 16 then 0 else if size <= 32 then 1 else if size <= 64 then 2 else if size <= 128 then 3
    else if size <= 256 then 4 else if size <= 512 then 5 else 6
  }

  /** The pages that kmalloc asks for, in 32-bit arithmetic. */
  function PagesFor(size: nat): nat {
    (((size + HEADER) % TWO_32 + PAGE_SIZE - 1) % TWO_32) / PAGE_SIZE
  }

  /** alloc_kpage asserts that it is asked for a page at least. */
  predicate Asserts(size: nat) {
    size > LARGEST && PagesFor(size) == 0
  }

  /** The sizes at the top, for which the sum with the header wraps round. */
  predicate Short(size: nat) {
    size >= TWO_32 - HEADER + 1
  }

  /** How a large request comes out: enough pages, an assertion that fails, or fewer pages
      than the block needs. */
  lemma PagesAreEnoughIff(size: nat)
    requires LARGEST < size < TWO_32
    ensures Asserts(size) <==> TWO_32 - HEADER - PAGE_SIZE < size <= TWO_32 - HEADER
    ensures !Asserts(size) ==> (PagesFor(size) * PAGE_SIZE >= size + HEADER <==> !Short(size))
    ensures Short(size) ==> PagesFor(size) == 1
  {
  }

  /** The edges of the three ranges. */
  lemma TopSizes()
    ensures !Asserts(TWO_32 - 4112) && Asserts(TWO_32 - 4111) && Asserts(TWO_32 - 16)
    ensures PagesFor(TWO_32 - 4112) == 0xF_FFFF && PagesFor(TWO_32 - 15) == 1 && PagesFor(0xFFFF_FFFF) == 1
  {
  }

  /** A block: its page and its place there; the one block of a large run has place 0. */
  datatype Block = Block(page: nat, idx: nat)

  datatype Header = Small(cls: nat, count: nat) | Large(pages: nat)

  /** The arenas by page, the free list of each class, and the blocks that callers hold,
      with the sizes they asked for. */
  datatype Heap = Heap(headers: map<nat, Header>, free: seq<seq<Block>>, live: map<Block, nat>)

  function Extent(h: Header): nat {
    if h.Small? then 1 else h.pages
  }

  // ----- The invariant ------------------------------------------------------

  ghost predicate NoDup(s: seq<Block>) {
    forall i, j :: 0 <= i < j < |s| ==> s[i] != s[j]
  }

  /** Block b lies in an arena of class c. */
  predicate InClass(headers: map<nat, Header>, b: Block, c: nat) {
    b.page in headers && headers[b.page].Small? && headers[b.page].cls == c && b.idx < Total(c)
  }

  /** The places of a page whose blocks are on a free list. */
  ghost function FreeOf(s: seq<Block>, page: nat, c: nat): set<nat> {
    set i | 0 <= i < Total(c) && Block(page, i) in s
  }

  ghost predicate Shaped(headers: map<nat, Header>) {
    forall p :: p in headers ==>
                  match headers[p] case Small(c, _) => c < CLASSES case Large(n) => n >= 1
  }

  /** A free list holds the blocks of its class that nobody holds, each once. */
  ghost predicate Listed(h: Heap) {
    && |h.free| == CLASSES
    && (forall c :: 0 <= c < CLASSES ==> NoDup(h.free[c]))
    && (forall c: nat, b :: c < CLASSES ==> (b in h.free[c] <==> InClass(h.headers, b, c) && b !in h.live))
  }

  /** count is the number of free blocks of the page, and not all are free. */
  ghost predicate Counted(h: Heap) {
    |h.free| == CLASSES && forall p :: p in h.headers && h.headers[p].Small? && h.headers[p].cls < CLASSES ==>
                                         && h.headers[p].count ==
                                             |FreeOf(h.free[h.headers[p].cls], p, h.headers[p].cls)|
                                         && h.headers[p].count < Total(h.headers[p].cls)
  }

  ghost predicate LivesIn(h: Heap, b: Block) {
    && b.page in h.headers && b in h.live
    && match h.headers[b.page]
       case Small(c, _) => b.idx < Total(c) && h.live[b] <= BlockSize(c)
       case Large(n) => b.idx == 0 && LARGEST < h.live[b] && HEADER + h.live[b] <= n * PAGE_SIZE
  }

  ghost predicate Lives(h: Heap) {
    && (forall b :: b in h.live ==> LivesIn(h, b))
    && (forall p :: p in h.headers && h.headers[p].Large? ==> Block(p, 0) in h.live)
  }

  predicate Apart(p: nat, m: nat, q: nat, n: nat) {
    p + m <= q || q + n <= p
  }

  ghost predicate PagesApart(headers: map<nat, Header>) {
    forall p, q :: p in headers && q in headers && p != q ==> Apart(p, Extent(headers[p]), q, Extent(headers[q]))
  }

  ghost predicate Inv(h: Heap) {
    Shaped(h.headers) && Listed(h) && Counted(h) && Lives(h) && PagesApart(h.headers)
  }

  // ----- Addresses ----------------------------------------------------------

  /** The address of a block: behind the header of its page. */
  function Addr(headers: map<nat, Header>, b: Block): nat {
    b.page * PAGE_SIZE + HEADER +
    if b.page in headers && headers[b.page].Small? then b.idx * BlockSize(headers[b.page].cls) else 0
  }

  /** The bytes a caller may use of its block. */
  ghost predicate Byte(h: Heap, b: Block, a: nat) {
    b in h.live && Addr(h.headers, b) <= a < Addr(h.headers, b) + h.live[b]
  }

  /** A block of a small arena and its bytes lie in the page, behind the header. */
  lemma BlockInPage(c: nat, i: nat)
    requires i < Total(c)
    ensures HEADER + i * BlockSize(c) + BlockSize(c) <= PAGE_SIZE
  {
    assert (i + 1) * BlockSize(c) <= Total(c) * BlockSize(c) by {
      match c
      case 0 => case 1 => case 2 => case 3 => case 4 => case 5 => case _ =>
    }
  }

  /** Two blocks of one size do not overlap. */
  lemma BlocksApart(c: nat, i: nat, j: nat)
    requires i < j
    ensures i * BlockSize(c) + BlockSize(c) <= j * BlockSize(c)
  {
    match c
    case 0 => case 1 => case 2 => case 3 => case 4 => case 5 => case _ =>
  }

  /** get_block_arena: masking the address of a live block finds the page of its arena. */
  lemma MaskFindsArena(h: Heap, b: Block)
    requires Inv(h) && b in h.live
    ensures Addr(h.headers, b) / PAGE_SIZE == b.page
  {
    assert LivesIn(h, b);
    if h.headers[b.page].Small? {
      BlockInPage(h.headers[b.page].cls, b.idx);
    }
  }

  // ----- Operations ---------------------------------------------------------

  /** The blocks of a page in the order of a list to which they were pushed one by one. */
  function Carved(page: nat, n: nat): seq<Block> {
    if n == 0 then [] else [Block(page, n - 1)] + Carved(page, n - 1)
  }

  /** The list without the first n blocks of a page. */
  function Dropped(s: seq<Block>, page: nat, n: nat): seq<Block> {
    if s == [] then []
    else if s[0].page == page && s[0].idx < n then Dropped(s[1..], page, n)
    else [s[0]] + Dropped(s[1..], page, n)
  }

  /** alloc_kpage gives n pages that no arena has. */
  ghost predicate Unowned(h: Heap, page: nat, n: nat) {
    page !in h.headers && forall p :: p in h.headers ==> Apart(page, n, p, Extent(h.headers[p]))
  }

  function Carve(h: Heap, c: nat, page: nat): Heap
    requires c < |h.free|
  {
    h.(headers := h.headers[page := Small(c, Total(c))], free := h.free[c := Carved(page, Total(c)) + h.free[c]])
  }

  function Fewer(x: Header): Header {
    if x.Small? && x.count > 0 then x.(count := x.count - 1) else x
  }

  /** A block off the front of its free list. */
  function Pop(h: Heap, c: nat, size: nat): Heap
    requires c < |h.free| && h.free[c] != []
  {
    var b := h.free[c][0];
    Heap(if b.page in h.headers then h.headers[b.page := Fewer(h.headers[b.page])] else h.headers,
         h.free[c := h.free[c][1..]], h.live[b := size])
  }

  function MallocSmall(h: Heap, size: nat, page: nat): Heap
    requires size <= LARGEST && |h.free| == CLASSES
  {
    var c := ClassOf(size);
    if h.free[c] != [] then Pop(h, c, size)
    else
      assert Carved(page, Total(c)) != [];
      Pop(Carve(h, c, page), c, size)
  }

  function MallocLarge(h: Heap, size: nat, page: nat): Heap {
    h.(headers := h.headers[page := Large(PagesFor(size))], live := h.live[Block(page, 0) := size])
  }

  /** The block that kmalloc returns. */
  function Returned(h: Heap, size: nat, page: nat): Block
    requires |h.free| == CLASSES
  {
    if size > LARGEST then Block(page, 0)
    else if h.free[ClassOf(size)] != [] then h.free[ClassOf(size)][0]
    else Block(page, Total(ClassOf(size)) - 1)
  }

  function Malloc(h: Heap, size: nat, page: nat): Heap
    requires |h.free| == CLASSES
  {
    if size > LARGEST then MallocLarge(h, size, page) else MallocSmall(h, size, page)
  }

  function Forget<K, V>(m: map<K, V>, k: K): map<K, V> {
    m - {k}
  }

  /** A block goes to the front of its free list. */
  function Push(h: Heap, b: Block): Heap
    requires |h.free| == CLASSES && b.page in h.headers && h.headers[b.page].Small? && h.headers[b.page].cls < CLASSES
  {
    var x := h.headers[b.page];
    Heap(h.headers[b.page := x.(count := x.count + 1)], h.free[x.cls := [b] + h.free[x.cls]], Forget(h.live, b))
  }

  /** A page is given back: its blocks leave the free list. */
  function GiveBack(h: Heap, page: nat, c: nat): Heap
    requires c < |h.free|
  {
    h.(headers := Forget(h.headers, page), free := h.free[c := Dropped(h.free[c], page, Total(c))])
  }

  /** kfree; a page all of whose blocks are free is given back. */
  function Free(h: Heap, b: Block): Heap
    requires |h.free| == CLASSES && b.page in h.headers
        && (h.headers[b.page].Small? ==> h.headers[b.page].cls < CLASSES)
  {
    match h.headers[b.page]
    case Large(_) => h.(headers := Forget(h.headers, b.page), live := Forget(h.live, b))
    case Small(c, count) => if count + 1 == Total(c) then GiveBack(Push(h, b), b.page, c) else Push(h, b)
  }
}
