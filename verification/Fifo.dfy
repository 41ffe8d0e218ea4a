/** src/lib/fifo.c: a ring buffer that keeps one cell free. */
module Fifo {
  import Volume

  type u8 = Volume.u8

  /** fifo_next. */
  function Next(length: nat, pos: nat): nat
    requires length > 0
  {
    (pos + 1) % length
  }

  lemma NextWraps(length: nat, pos: nat)
    requires pos < length
    ensures Next(length, pos) == if pos + 1 == length then 0 else pos + 1
  {
  }

  /** The cells from tail to head, tail first. */
  function Cells(buf: seq<u8>, tail: nat, head: nat): (s: seq<u8>)
    requires tail < |buf| && head < |buf|
  {
    if tail <= head then buf[tail..head] else buf[tail..] + buf[..head]
  }

  class Ring {
    const buf: array<u8>
    var head: nat
    var tail: nat

    ghost predicate Valid()
      reads this
    {
      head < buf.Length && tail < buf.Length
    }

    ghost function Contents(): seq<u8>
      requires Valid()
      reads this, buf
    {
      Cells(buf[..], tail, head)
    }

    /** fifo_init. */
    constructor (buf: array<u8>)
      requires buf.Length > 0
      ensures Valid() && Contents() == [] && this.buf == buf
    {
      this.buf := buf;
      head, tail := 0, 0;
    }

    /** fifo_full: one cell always stays free. */
    method Full() returns (b: bool)
      requires Valid()
      ensures b <==> |Contents()| == buf.Length - 1
    {
      NextWraps(buf.Length, head);
      b := Next(buf.Length, head) == tail;
    }

    method Empty() returns (b: bool)
      requires Valid()
      ensures b <==> Contents() == []
    {
      b := head == tail;
    }

    /** fifo_get; it asserts that there is a byte. */
    method Get() returns (byte: u8)
      requires Valid() && Contents() != []
      modifies this`tail
      ensures Valid() && old(Contents()) == [byte] + Contents()
    {
      NextWraps(buf.Length, tail);
      byte := buf[tail];
      tail := Next(buf.Length, tail);
    }

    /** fifo_put: when the ring is full the oldest byte is discarded. */
    method Put(byte: u8)
      requires Valid() && buf.Length >= 2
      modifies this, buf
      ensures Valid()
      ensures Contents() ==
          (if |old(Contents())| == buf.Length - 1 then old(Contents())[1..] else old(Contents())) + [byte]
    {
      var full := Full();
      while full
        invariant Valid() && (full <==> |Contents()| == buf.Length - 1)
        invariant buf[..] == old(buf[..])
        invariant Contents() ==
                  if !full && |old(Contents())| == buf.Length - 1 then old(Contents())[1..] else old(Contents())
        decreases |Contents()|
      {
        var oldest := Get();
        full := Full();
      }
      Append(byte);
    }

    method Append(byte: u8)
      requires Valid() && |Contents()| < buf.Length - 1
      modifies this`head, buf
      ensures Valid() && Contents() == old(Contents()) + [byte]
    {
      NextWraps(buf.Length, head);
      ghost var was := buf[..];
      buf[head] := byte;
      assert buf[..] == was[head := byte];
      head := Next(buf.Length, head);
    }
  }
}
