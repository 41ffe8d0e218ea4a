/** src/lib/bitmap.c: a bitmap over a byte buffer, whose bit k stands for index
    offset + k. */
module Bitmap {

  const EOF: int := -1

  /** 1 << k for a bit of one byte. */
  function Mask(k: nat): bv8
    requires k < 8
  {
    match k
    case 0 => 1
    case 1 => 2
    case 2 => 4
    case 3 => 8
    case 4 => 16
    case 5 => 32
    case 6 => 64
    case _ => 128
  }

  predicate ByteBit(b: bv8, k: nat)
    requires k < 8
  {
    b & Mask(k) != 0
  }

  predicate Bit(bits: seq<bv8>, k: nat)
    requires k < 8 * |bits|
  {
    ByteBit(bits[k / 8], k % 8)
  }

  /** The bitmap as the bits it stands for. */
  function Bits(bits: seq<bv8>): (s: seq<bool>)
    ensures |s| == 8 * |bits|
    ensures forall k :: 0 <= k < |s| ==> s[k] == Bit(bits, k)
  {
    seq(8 * |bits|, k requires 0 <= k < 8 * |bits| => Bit(bits, k))
  }

  /** The mask of bit k is 2^k: the lowest bit of the first byte is bit 0 of the map. */
  lemma MaskIsPower(k: nat)
    requires k < 8
    ensures Mask(k) == 1 << k
    ensures k == 0 ==> Mask(k) == 1
    ensures k > 0 ==> Mask(k) as int == 2 * Mask(k - 1) as int
  {
  }

  /** Or-ing a mask in, or and-ing its complement, changes its own bit and no other. */
  lemma MaskBits(b: bv8, k: nat, j: nat)
    requires k < 8 && j < 8
    ensures ByteBit(b | Mask(k), j) == (j == k || ByteBit(b, j))
    ensures ByteBit(b & !Mask(k), j) == (j != k && ByteBit(b, j))
  {
    MaskWord(b, Mask(k), Mask(j));
    MasksDiffer(k, j);
  }

  lemma MasksDiffer(k: nat, j: nat)
    requires k < 8 && j < 8
    ensures Mask(k) & Mask(j) == if j == k then Mask(k) else 0
    ensures Mask(k) & !Mask(j) == if j == k then 0 else Mask(k)
  {
  }

  lemma MaskWord(b: bv8, m: bv8, n: bv8)
    ensures (b | m) & n == (b & n) | (m & n)
    ensures (b & !m) & n == b & (n & !m)
  {
  }

  /** The count bits from s on are all clear. */
  predicate ClearRun(bits: seq<bool>, s: nat, count: nat) {
    s + count <= |bits| && forall k :: s <= k < s + count ==> !bits[k]
  }

  /** bits with the count bits from s on set. */
  function SetRun(bits: seq<bool>, s: nat, count: nat): (r: seq<bool>)
    requires s + count <= |bits|
    ensures |r| == |bits|
    ensures forall k :: 0 <= k < |r| ==> r[k] == (bits[k] || s <= k < s + count)
  {
    seq(|bits|, k requires 0 <= k < |bits| => bits[k] || s <= k < s + count)
  }

  /** bitmap_test. */
  method Test(bits: array<bv8>, offset: nat, index: nat) returns (b: bool)
    requires offset <= index < offset + 8 * bits.Length
    ensures b == Bits(bits[..])[index - offset]
  {
    var idx := index - offset;
    b := bits[idx / 8] & Mask(idx % 8) != 0;
  }

  /** The byte that bitmap_set stores. */
  function SetInByte(b: bv8, k: nat, value: bool): bv8
    requires k < 8
  {
    if value then b | Mask(k) else b & !Mask(k)
  }

  lemma SetInByteBit(b: bv8, k: nat, value: bool, j: nat)
    requires k < 8 && j < 8
    ensures ByteBit(SetInByte(b, k, value), j) == if j == k then value else ByteBit(b, j)
  {
    MaskBits(b, k, j);
  }

  lemma SameBit(i: nat, k: nat)
    ensures i / 8 == k / 8 && i % 8 == k % 8 <==> i == k
  {
    assert i == 8 * (i / 8) + i % 8 && k == 8 * (k / 8) + k % 8;
  }

  lemma SetInBytes(bits: seq<bv8>, i: nat, value: bool, k: nat)
    requires i < 8 * |bits| && k < 8 * |bits|
    ensures Bit(bits[i / 8 := SetInByte(bits[i / 8], i % 8, value)], k) == if k == i then value else Bit(bits, k)
  {
    SameBit(i, k);
    SetInByteBit(bits[i / 8], i % 8, value, k % 8);
  }

  /** bitmap_set. */
  method Set(bits: array<bv8>, offset: nat, index: nat, value: bool)
    requires offset <= index < offset + 8 * bits.Length
    modifies bits
    ensures Bits(bits[..]) == Bits(old(bits[..]))[index - offset := value]
  {
    var idx := index - offset;
    ghost var was := bits[..];
    if value {
      bits[idx / 8] := bits[idx / 8] | Mask(idx % 8);
    } else {
      bits[idx / 8] := bits[idx / 8] & !Mask(idx % 8);
    }
    assert bits[..] == was[idx / 8 := SetInByte(was[idx / 8], idx % 8, value)];
    forall k: nat | k < 8 * bits.Length
      ensures Bit(bits[..], k) == if k == idx then value else Bit(was, k)
    {
      SetInBytes(was, idx, value, k);
    }
  }

  /** bitmap_scan: the first run of count clear bits, which it sets; EOF if there is none. */
  method Scan(bits: array<bv8>, offset: nat, count: nat) returns (index: int)
    requires count > 0
    modifies bits
    ensures index == EOF ==> bits[..] == old(bits[..]) && forall s :: !ClearRun(Bits(bits[..]), s, count)
    ensures index != EOF ==>
              && offset <= index && ClearRun(Bits(old(bits[..])), index - offset, count)
              && (forall s :: 0 <= s < index - offset ==> !ClearRun(Bits(old(bits[..])), s, count))
              && Bits(bits[..]) == SetRun(Bits(old(bits[..])), index - offset, count)
  {
    ghost var was := Bits(bits[..]);
    var start := EOF;
    var next, counter := 0, 0;
    while next < 8 * bits.Length
      invariant start == EOF && bits[..] == old(bits[..])
      invariant Scanned(was, next, counter, count)
    {
      var taken := Test(bits, offset, offset + next);
      ScanStep(was, next, counter, count);
      counter := if taken then 0 else counter + 1;
      next := next + 1;
      if counter == count {
        start := next - count;
        break;
      }
    }
    if start == EOF {
      return EOF;
    }
    SetBits(bits, offset, start, count);
    index := start + offset;
    assert index - offset == start && ClearRun(was, start, count);
  }

  /** The last counter bits before next are the clear ones since the last set bit,
      and no run of count bits ends before next. */
  ghost predicate Scanned(bits: seq<bool>, next: nat, counter: nat, count: nat) {
    && counter <= next <= |bits| && counter < count
    && ClearRun(bits, next - counter, counter) && (counter < next ==> bits[next - counter - 1])
    && NoRun(bits, next, count)
  }

  ghost predicate NoRun(bits: seq<bool>, next: nat, count: nat) {
    forall s :: 0 <= s && s + count <= next ==> !ClearRun(bits, s, count)
  }

  lemma ScanStep(bits: seq<bool>, next: nat, counter: nat, count: nat)
    requires Scanned(bits, next, counter, count) && next < |bits|
    ensures var c := if bits[next] then 0 else counter + 1;
            if c == count then
              && ClearRun(bits, next + 1 - count, count)
              && forall s :: 0 <= s < next + 1 - count ==> !ClearRun(bits, s, count)
            else Scanned(bits, next + 1, c, count)
  {
    forall s: nat | s + count <= next + 1 && ClearRun(bits, s, count)
      ensures !bits[next] && counter + 1 == count && s == next - counter
    {
      if s + count > next {
        assert counter < next ==> s > next - counter - 1;
      }
    }
  }

  /** The loop at the end of bitmap_scan. */
  method SetBits(bits: array<bv8>, offset: nat, start: nat, count: nat)
    requires start + count <= 8 * bits.Length
    modifies bits
    ensures Bits(bits[..]) == SetRun(Bits(old(bits[..])), start, count)
  {
    for i := 0 to count
      invariant Bits(bits[..]) == SetRun(Bits(old(bits[..])), start, i)
    {
      Set(bits, offset, offset + start + i, true);
    }
  }
}
