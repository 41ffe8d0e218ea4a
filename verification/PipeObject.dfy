/** The pipe as it runs: the ring buffer and the two waiter fields of the inode. Where the
    two sides stand in their loops is ghost. */
module PipeObject {
  import opened Wrappers
  import opened Fifo
  import opened PipeStream

  class Channel {
    const fifo: Ring
    var rxwaiter: Option<nat>
    var txwaiter: Option<nat>
    ghost var reader: Side
    ghost var writer: Side
    ghost var want: nat
    ghost var todo: seq<u8>
    ghost var sent: seq<u8>
    ghost var got: seq<u8>

    ghost predicate Valid()
      reads this, fifo
    {
      fifo.Valid() && fifo.buf.Length >= 2
    }

    ghost function State(): Pipe
      requires Valid()
      reads this, fifo, fifo.buf
    {
      Pipe(fifo.buf.Length, fifo.Contents(), reader, writer, rxwaiter.Some?, txwaiter.Some?, want, todo, sent, got)
    }

    /** The pipe part of get_pipe_inode. */
    constructor (fifo: Ring)
      requires fifo.Valid() && fifo.buf.Length >= 2 && fifo.Contents() == []
      ensures Valid() && State() == Opened(fifo.buf.Length) && this.fifo == fifo
    {
      this.fifo := fifo;
      rxwaiter, txwaiter := None, None;
      reader, writer, want, todo, sent, got := Running, Running, 0, [], [], [];
    }

    /** One round of pipe_read, from its start or, for a resumed reader, from behind its
        task_block: a byte, or None for a reader that blocks; woken is the writer that is
        unblocked. */
    method ReadRound(current: nat, resumed: bool) returns (r: Option<u8>, woken: Option<nat>)
      requires Valid() && Inv(State()) && Enabled(State(), Reads) && resumed == (reader == Resumed)
      modifies this, fifo`tail
      ensures Valid() && State() == Read(old(State()))
      ensures got == if r.Some? then old(got) + [r.value] else old(got)
      ensures woken == if r.Some? then old(txwaiter) else None
    {
      if !resumed {
        var empty := fifo.Empty();
        if empty {
          rxwaiter := Some(current);
          reader := Blocked;
          return None, None;
        }
      }
      var byte := fifo.Get();
      woken := txwaiter;
      if txwaiter.Some? {
        txwaiter := None;
        writer := Resumed;
      }
      reader, want, got := Running, want - 1, got + [byte];
      r := Some(byte);
    }

    /** One round of pipe_write; put tells that the byte went in, woken is the reader that
        is unblocked. */
    method WriteRound(current: nat, byte: u8, resumed: bool) returns (put: bool, woken: Option<nat>)
      requires Valid() && Inv(State()) && Enabled(State(), Writes) && resumed == (writer == Resumed) && byte == todo[0]
      modifies this, fifo, fifo.buf
      ensures Valid() && State() == Write(old(State()))
      ensures sent == if put then old(sent) + [byte] else old(sent)
      ensures woken == if put then old(rxwaiter) else None
    {
      if !resumed {
        var full := fifo.Full();
        if full {
          txwaiter := Some(current);
          writer := Blocked;
          return false, None;
        }
      }
      fifo.Put(byte);
      woken := rxwaiter;
      if rxwaiter.Some? {
        rxwaiter := None;
        reader := Resumed;
      }
      writer, todo, sent := Running, todo[1..], sent + [byte];
      put := true;
    }
  }
}
