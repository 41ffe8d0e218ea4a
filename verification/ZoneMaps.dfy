/** balloc and bfree on a volume with several bitmap blocks (src/fs/bmap.c): the one shifts
    its zone numbers by the first data zone when it chooses a block, the other does not. */
module ZoneMaps {
  import Bitmap
  import opened Volume

  const ZMAP_NR: nat := 8

  /** The zone of bit 0 of bitmap block i. */
  function Offset(first: nat, i: nat): int {
    BLOCK_BITS * i + first - 1
  }

  /** Where balloc keeps the bit of a zone. */
  function MapOf(first: nat, z: nat): nat
    requires 1 <= first <= z + 1
  {
    (z - (first - 1)) / BLOCK_BITS
  }

  function BitOf(first: nat, z: nat): nat
    requires 1 <= first <= z + 1
  {
    (z - (first - 1)) % BLOCK_BITS
  }

  /** The bit of the k-th data zone is k + 1, counted through all the bitmap blocks; bit 0 of the
      first block belongs to none. */
  lemma ZoneBits(first: nat, k: nat)
    requires first >= 1
    ensures BLOCK_BITS * MapOf(first, first + k) + BitOf(first, first + k) == k + 1
    ensures BitOf(first, first + k) < BLOCK_BITS
    ensures Offset(first, MapOf(first, first + k)) + BitOf(first, first + k) == first + k
  {
  }

  ghost predicate Whole(maps: seq<seq<bool>>) {
    |maps| <= ZMAP_NR && forall i :: 0 <= i < |maps| ==> |maps[i]| == BLOCK_BITS
  }

  predicate Taken(first: nat, maps: seq<seq<bool>>, z: nat) {
    && 1 <= first <= z + 1 && MapOf(first, z) < |maps| && BitOf(first, z) < |maps[MapOf(first, z)]|
    && maps[MapOf(first, z)][BitOf(first, z)]
  }

  /** The bit of zone z as balloc numbers it, set or cleared. */
  function Marked(first: nat, maps: seq<seq<bool>>, z: nat, used: bool): seq<seq<bool>>
    requires 1 <= first <= z + 1 && MapOf(first, z) < |maps| && BitOf(first, z) < |maps[MapOf(first, z)]|
  {
    maps[MapOf(first, z) := maps[MapOf(first, z)][BitOf(first, z) := used]]
  }

  // ----- bfree --------------------------------------------------------------

  /** Done with these bitmap blocks, a failed assertion, or the end of a loop that set no buffer. */
  datatype Outcome = Done(maps: seq<seq<bool>>) | Panics | Stray

  /** The loop of bfree from bitmap block i on. */
  function FreeFrom(first: nat, maps: seq<seq<bool>>, z: nat, i: nat): Outcome
    decreases ZMAP_NR - i
  {
    if i >= ZMAP_NR then Stray
    else if z > BLOCK_BITS * (i + 1) then FreeFrom(first, maps, z, i + 1)
    else if i >= |maps| then Panics
    else FreeIn(maps, z - Offset(first, i), i)
  }

  /** The test and the clearing of a bit of bitmap block i; bitmap_test asserts that the bit
      is in the block, bfree that it is set. */
  function FreeIn(maps: seq<seq<bool>>, bit: int, i: nat): Outcome
    requires i < |maps|
  {
    if bit < 0 || bit >= |maps[i]| || !maps[i][bit] then Panics
    else Done(maps[i := maps[i][bit := false]])
  }

  function FreeZone(first: nat, zones: nat, maps: seq<seq<bool>>, z: nat): Outcome {
    if z >= zones then Panics else FreeFrom(first, maps, z, 0)
  }

  /** The bitmap block that the loop of bfree does not skip. */
  lemma {:induction false} FreeFromIs(first: nat, maps: seq<seq<bool>>, z: nat, i: nat)
    requires BLOCK_BITS * i < z < 65536
    ensures var j := (z - 1) / BLOCK_BITS;
            i <= j < ZMAP_NR &&
            FreeFrom(first, maps, z, i) == if j >= |maps| then Panics else FreeIn(maps, z - Offset(first, j), j)
    decreases z - i
  {
    if z <= BLOCK_BITS * (i + 1) {
    } else {
      FreeFromIs(first, maps, z, i + 1);
    }
  }

  /** The two numberings side by side. */
  lemma Numberings(first: nat, z: nat)
    requires 2 <= first <= BLOCK_BITS && first <= z
    ensures var j := (z - 1) / BLOCK_BITS;
            if (z - 1) % BLOCK_BITS >= first - 2 then MapOf(first, z) == j && BitOf(first, z) == z - Offset(first, j)
            else z - Offset(first, j) < 0
  {
    var q, r := (z - 1) / BLOCK_BITS, (z - 1) % BLOCK_BITS;
    assert z - (first - 1) == q * BLOCK_BITS + (r - (first - 2));
  }

  /** bfree of a used zone clears its bit and no other exactly when the zone lies far enough
      behind a multiple of BLOCK_BITS; for the others an assertion fails. */
  lemma BfreeClearsIff(first: nat, zones: nat, maps: seq<seq<bool>>, z: nat)
    requires 2 <= first <= BLOCK_BITS && first <= z < zones && z < 65536 && Whole(maps) && Taken(first, maps, z)
    ensures FreeZone(first, zones, maps, z) ==
            if (z - 1) % BLOCK_BITS >= first - 2 then Done(Marked(first, maps, z, false)) else Panics
  {
    FreeFromIs(first, maps, z, 0);
    Numberings(first, z);
  }

  /** A volume with two bitmap blocks and its first data zone at 3: zone 8193 has bit 8191 of
      the first block, and bfree looks for it before the beginning of the second. */
  lemma SecondMapPanics(maps: seq<seq<bool>>)
    requires Whole(maps) && |maps| == 2 && maps[0][8191]
    ensures Taken(3, maps, 8193) && FreeZone(3, 10000, maps, 8193) == Panics
  {
    BfreeClearsIff(3, 10000, maps, 8193);
  }

  // ----- balloc -------------------------------------------------------------

  datatype Allocation = Got(zone: nat, maps: seq<seq<bool>>) | Full | Fails

  /** The loop of balloc from bitmap block i on. */
  function AllocFrom(first: nat, zones: nat, maps: seq<seq<bool>>, i: nat): Allocation
    decreases ZMAP_NR - i
  {
    if i >= ZMAP_NR then Full
    else if i >= |maps| then Fails
    else
      var k := FirstClear(maps[i]);
      if k == |maps[i]| then AllocFrom(first, zones, maps, i + 1)
      else if first < 1 || k + Offset(first, i) >= zones then Fails
      else Got(k + Offset(first, i), maps[i := maps[i][k := true]])
  }

  /** The zone that balloc returns was not taken, is taken afterwards, and nothing else is. */
  lemma {:induction false} BallocTakes(first: nat, zones: nat, maps: seq<seq<bool>>, i: nat)
    requires Whole(maps) && AllocFrom(first, zones, maps, i).Got?
    ensures var g := AllocFrom(first, zones, maps, i);
            && 1 <= first <= g.zone + 1 && g.zone < zones && Whole(g.maps) && |g.maps| == |maps|
            && !Taken(first, maps, g.zone) && Taken(first, g.maps, g.zone)
            && MapOf(first, g.zone) < |maps| && g.maps == Marked(first, maps, g.zone, true)
    decreases ZMAP_NR - i
  {
    var k := FirstClear(maps[i]);
    if k == |maps[i]| {
      BallocTakes(first, zones, maps, i + 1);
    } else {
      var g := AllocFrom(first, zones, maps, i);
      assert g.zone - (first - 1) == BLOCK_BITS * i + k;
      assert MapOf(first, g.zone) == i && BitOf(first, g.zone) == k;
    }
  }

  /** bfree undoes balloc exactly for the zones that bfree finds; for the others it panics. */
  lemma BfreeUndoesBallocIff(first: nat, zones: nat, maps: seq<seq<bool>>)
    requires 2 <= first <= BLOCK_BITS && zones <= 65536 && Whole(maps) && AllocFrom(first, zones, maps, 0).Got?
    requires AllocFrom(first, zones, maps, 0).zone >= first
    ensures var g := AllocFrom(first, zones, maps, 0);
            FreeZone(first, zones, g.maps, g.zone) ==
            if (g.zone - 1) % BLOCK_BITS >= first - 2 then Done(maps) else Panics
  {
    var g := AllocFrom(first, zones, maps, 0);
    BallocTakes(first, zones, maps, 0);
    BfreeClearsIff(first, zones, g.maps, g.zone);
    var i, k := MapOf(first, g.zone), BitOf(first, g.zone);
    assert maps[i][k := true][k := false] == maps[i];
    assert Marked(first, g.maps, g.zone, false) == maps;
  }

  // ----- The loops over the bitmap buffers ----------------------------------

  class Zmaps {
    const first: nat
    const zones: nat
    /** The buffers of the bitmap blocks; the rest of the ZMAP_NR pointers are NULL. */
    const maps: seq<array<bv8>>

    ghost predicate Valid() {
      && first >= 1 && |maps| <= ZMAP_NR
      && (forall i :: 0 <= i < |maps| ==> maps[i].Length == BLOCK_SIZE)
      && forall i, j :: 0 <= i < j < |maps| ==> maps[i] != maps[j]
    }

    ghost function Contents(): (s: seq<seq<bool>>)
      reads maps
      ensures |s| == |maps| && forall i :: 0 <= i < |maps| ==> s[i] == Bitmap.Bits(maps[i][..])
    {
      seq(|maps|, i requires 0 <= i < |maps| reads maps => Bitmap.Bits(maps[i][..]))
    }

    /** The contents after buffer i alone was changed. */
    lemma OneChanged(was: seq<seq<bool>>, i: nat, bits: seq<bool>)
      requires Valid() && i < |maps| == |was| && bits == Bitmap.Bits(maps[i][..])
      requires forall j :: 0 <= j < |maps| && j != i ==> Bitmap.Bits(maps[j][..]) == was[j]
      ensures Contents() == was[i := bits]
    {
    }

    /** bfree. */
    method Free(z: nat) returns (ok: bool)
      requires Valid()
      modifies maps
      ensures ok <==> FreeZone(first, zones, old(Contents()), z).Done?
      ensures ok ==> Contents() == FreeZone(first, zones, old(Contents()), z).maps
      ensures !ok ==> Contents() == old(Contents())
    {
      if z >= zones {
        return false;
      }
      for i := 0 to ZMAP_NR
        invariant FreeFrom(first, Contents(), z, i) == FreeZone(first, zones, Contents(), z)
        invariant Contents() == old(Contents())
      {
        if z <= BLOCK_BITS * (i + 1) {
          if i < |maps| {
            ok := ClearIn(i, z);
            return;
          }
          return false;
        }
      }
      return false;
    }

    /** The round of bfree that does not skip its block. */
    method ClearIn(i: nat, z: nat) returns (ok: bool)
      requires Valid() && i < |maps|
      modifies maps
      ensures ok <==> FreeIn(old(Contents()), z - Offset(first, i), i).Done?
      ensures ok ==> Contents() == FreeIn(old(Contents()), z - Offset(first, i), i).maps
      ensures !ok ==> Contents() == old(Contents())
    {
      if z < Offset(first, i) || z - Offset(first, i) >= BLOCK_BITS {
        return false;
      }
      ok := Bitmap.Test(maps[i], Offset(first, i), z);
      if ok {
        Bitmap.Set(maps[i], Offset(first, i), z, false);
        OneChanged(old(Contents()), i, Bitmap.Bits(maps[i][..]));
      }
    }

    /** balloc: a zone, or EOF when every bitmap block is full. */
    method Allocate() returns (ok: bool, zone: int)
      requires Valid()
      modifies maps
      ensures ok <==> !AllocFrom(first, zones, old(Contents()), 0).Fails?
      ensures ok ==>
                match AllocFrom(first, zones, old(Contents()), 0)
                case Got(z, after) => zone == z && Contents() == after
                case _ => zone == Bitmap.EOF && Contents() == old(Contents())
    {
      for i := 0 to ZMAP_NR
        invariant AllocFrom(first, zones, Contents(), i) == AllocFrom(first, zones, Contents(), 0)
        invariant Contents() == old(Contents())
      {
        if i >= |maps| {
          return false, 0;
        }
        zone := TakeIn(i);
        if zone != Bitmap.EOF {
          return zone < zones, zone;
        }
      }
      return true, Bitmap.EOF;
    }

    /** One round of balloc: the first clear bit of block i, which is set. */
    method TakeIn(i: nat) returns (zone: int)
      requires Valid() && i < |maps|
      modifies maps
      ensures var was := old(Contents());
              var k := FirstClear(was[i]);
              if k == |was[i]| then zone == Bitmap.EOF && Contents() == was
              else zone == k + Offset(first, i) >= 0 && Contents() == was[i := was[i][k := true]]
    {
      zone := Bitmap.Scan(maps[i], Offset(first, i), 1);
      ScanIsFirstClear(old(Contents())[i], zone - Offset(first, i), zone == Bitmap.EOF);
      OneChanged(old(Contents()), i, Bitmap.Bits(maps[i][..]));
      assert old(Contents())[i := old(Contents())[i]] == old(Contents());
    }
  }

  /** A scan for one bit finds the first clear one. */
  lemma ScanIsFirstClear(bits: seq<bool>, k: int, none: bool)
    requires none ==> forall s :: !Bitmap.ClearRun(bits, s, 1)
    requires !none ==> 0 <= k && Bitmap.ClearRun(bits, k, 1) && forall s :: 0 <= s < k ==> !Bitmap.ClearRun(bits, s, 1)
    ensures if none then FirstClear(bits) == |bits|
            else FirstClear(bits) == k < |bits| && Bitmap.SetRun(bits, k, 1) == bits[k := true]
  {
    var f := FirstClear(bits);
    assert f < |bits| ==> Bitmap.ClearRun(bits, f, 1);
    if !none {
      assert !bits[k] && f <= k;
    }
  }
}
