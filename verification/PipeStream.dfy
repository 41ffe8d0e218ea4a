/** A pipe between one reader and one writer (src/fs/pipe.c), under any scheduling. */
module PipeStream {
  import Volume

  type u8 = Volume.u8

  /** A side is Blocked on its waiter field, or was just Resumed by the other side and goes
      on behind its task_block, without a second look at the ring. */
  datatype Side = Running | Blocked | Resumed

  /** ring holds the bytes in flight; length is that of the buffer. want is what the reader
      has still to read, todo what the writer has still to write. sent and got are all the
      bytes that were put and taken so far. */
  datatype Pipe = Pipe(length: nat, ring: seq<u8>, reader: Side, writer: Side, rxwaiter: bool, txwaiter: bool,
                       want: nat, todo: seq<u8>, sent: seq<u8>, got: seq<u8>)

  predicate Full(p: Pipe) {
    |p.ring| + 1 == p.length
  }

  /** fifo_put, with its discard. */
  function Put(p: Pipe, b: u8): seq<u8> {
    (if Full(p) && p.ring != [] then p.ring[1..] else p.ring) + [b]
  }

  /** One round of the loop of pipe_read, from or up to a task_block. */
  function Read(p: Pipe): Pipe
    requires p.want > 0 && p.reader != Blocked
  {
    if p.reader == Running && p.ring == [] then p.(reader := Blocked, rxwaiter := true)
    else if p.ring == [] then p
    else p.(ring := p.ring[1..], got := p.got + [p.ring[0]], want := p.want - 1, reader := Running,
            writer := if p.txwaiter then Resumed else p.writer, txwaiter := false)
  }

  /** One round of the loop of pipe_write. */
  function Write(p: Pipe): Pipe
    requires p.todo != [] && p.writer != Blocked
  {
    if p.writer == Running && Full(p) then p.(writer := Blocked, txwaiter := true)
    else p.(ring := Put(p, p.todo[0]), sent := p.sent + [p.todo[0]], todo := p.todo[1..], writer := Running,
            reader := if p.rxwaiter then Resumed else p.reader, rxwaiter := false)
  }

  /** A new call of either side, once the last one has returned. */
  datatype Action = Reads | Writes | CallRead(count: nat) | CallWrite(bytes: seq<u8>)

  predicate Enabled(p: Pipe, a: Action) {
    match a
    case Reads => p.want > 0 && p.reader != Blocked
    case Writes => p.todo != [] && p.writer != Blocked
    case CallRead(_) => p.want == 0
    case CallWrite(_) => p.todo == []
  }

  function Step(p: Pipe, a: Action): Pipe
    requires Enabled(p, a)
  {
    match a
    case Reads => Read(p)
    case Writes => Write(p)
    case CallRead(count) => p.(want := count)
    case CallWrite(bytes) => p.(todo := bytes)
  }

  /** The assertions of the code: no waiter is overwritten, fifo_get has a byte to take. */
  predicate AssertionsHold(p: Pipe, a: Action)
    requires Enabled(p, a)
  {
    match a
    case Reads => if p.reader == Running && p.ring == [] then !p.rxwaiter else p.ring != []
    case Writes => p.writer == Running && Full(p) ==> !p.txwaiter
    case _ => true
  }

  predicate Inv(p: Pipe) {
    && p.got + p.ring == p.sent && |p.ring| + 1 <= p.length
    && (p.rxwaiter <==> p.reader == Blocked) && (p.txwaiter <==> p.writer == Blocked)
    && (p.reader == Blocked ==> p.ring == [] && p.want > 0) && (p.reader == Resumed ==> p.ring != [] && p.want > 0)
    && (p.writer == Blocked ==> Full(p) && p.todo != []) && (p.writer == Resumed ==> !Full(p) && p.todo != [])
  }

  function Opened(length: nat): Pipe {
    Pipe(length, [], Running, Running, false, false, 0, [], [], [])
  }

  lemma StepKeepsInv(p: Pipe, a: Action)
    requires Inv(p) && Enabled(p, a)
    ensures Inv(Step(p, a)) && AssertionsHold(p, a)
  {
    if a.Reads? && p.ring != [] {
      assert p.got + [p.ring[0]] + p.ring[1..] == p.got + p.ring;
    } else if a.Writes? && !(p.writer == Running && Full(p)) {
      assert p.got + (p.ring + [p.todo[0]]) == (p.got + p.ring) + [p.todo[0]];
    }
  }

  predicate CanRun(p: Pipe, run: seq<Action>)
    decreases |run|
  {
    run == [] || (Enabled(p, run[0]) && CanRun(Step(p, run[0]), run[1..]))
  }

  function Run(p: Pipe, run: seq<Action>): Pipe
    requires CanRun(p, run)
    decreases |run|
  {
    if run == [] then p else Run(Step(p, run[0]), run[1..])
  }

  lemma {:induction false} RunKeepsInv(p: Pipe, run: seq<Action>)
    requires Inv(p) && CanRun(p, run)
    ensures Inv(Run(p, run))
    decreases |run|
  {
    if run == [] {
    } else {
      StepKeepsInv(p, run[0]);
      RunKeepsInv(Step(p, run[0]), run[1..]);
    }
  }

  /** Over every run what was read is a prefix of what was written, at most length - 1
      bytes are in flight, no assertion fails, and fifo_put discards nothing. */
  lemma PipeIsAStream(length: nat, run: seq<Action>)
    requires length > 0 && CanRun(Opened(length), run)
    ensures var p := Run(Opened(length), run);
            && p.got <= p.sent && |p.sent| - |p.got| <= p.length - 1
            && (forall a :: Enabled(p, a) ==> AssertionsHold(p, a))
            && (Enabled(p, Writes) && Write(p).writer == Running ==> Write(p).ring == p.ring + [p.todo[0]])
  {
    RunKeepsInv(Opened(length), run);
    var p := Run(Opened(length), run);
    forall a | Enabled(p, a)
      ensures AssertionsHold(p, a)
    {
      StepKeepsInv(p, a);
    }
  }

  /** The two sides can be blocked at once exactly when the buffer has one cell. */
  lemma NeverBothBlockedIff(length: nat)
    requires length > 0
    ensures (forall p :: Inv(p) && p.length == length ==> !(p.reader == Blocked && p.writer == Blocked)) <==>
        length >= 2
  {
    var stuck :=
        Opened(1).(reader := Blocked, writer := Blocked, rxwaiter := true, txwaiter := true, want := 1, todo := [0]);
    assert Inv(stuck);
  }

  /** With one cell they do block one another: no byte ever passes. */
  lemma OneCellDeadlocks(b: u8)
    ensures var run := [CallRead(1), CallWrite([b]), Reads, Writes];
            CanRun(Opened(1), run) && Run(Opened(1), run).reader == Blocked && Run(Opened(1), run).writer == Blocked
  {
    var p0 := Opened(1);
    var p1 := Step(p0, CallRead(1));
    var p2 := Step(p1, CallWrite([b]));
    var p3 := Step(p2, Reads);
    var p4 := Step(p3, Writes);
    var r4, r3, r2 := [Writes], [Reads, Writes], [CallWrite([b]), Reads, Writes];
    var run := [CallRead(1)] + r2;
    assert run[1..] == r2 && r2[1..] == r3 && r3[1..] == r4 && r4[1..] == [];
    assert CanRun(p4, []) && CanRun(p3, r4) && CanRun(p2, r3) && CanRun(p1, r2) && CanRun(p0, run);
    assert Run(p3, r4) == Run(p4, []) == p4;
    assert Run(p0, run) == Run(p1, r2) == Run(p2, r3) == Run(p3, r4);
    assert run == [CallRead(1), CallWrite([b]), Reads, Writes];
  }

  // ----- A transfer ends, with every byte delivered --------------------------

  /** What the two loops have still to do. */
  function Work(p: Pipe): nat {
    3 * (p.want + |p.todo|) + (if p.reader == Running then 1 else 0) + (if p.writer == Running then 1 else 0)
  }

  lemma StepsEnd(p: Pipe, a: Action)
    requires Inv(p) && Enabled(p, a) && (a.Reads? || a.Writes?)
    ensures Work(Step(p, a)) < Work(p)
    ensures Step(p, a).want - |Step(p, a).ring| - |Step(p, a).todo| == p.want - |p.ring| - |p.todo|
    ensures Step(p, a).sent + Step(p, a).todo == p.sent + p.todo && Step(p, a).length == p.length
  {
    if a.Writes? && !(p.writer == Running && Full(p)) {
      assert p.sent + p.todo == p.sent + ([p.todo[0]] + p.todo[1..]);
    }
  }

  predicate Transfers(run: seq<Action>) {
    forall i :: 0 <= i < |run| ==> run[i].Reads? || run[i].Writes?
  }

  lemma {:induction false} TransferKeeps(p: Pipe, run: seq<Action>)
    requires Inv(p) && CanRun(p, run) && Transfers(run)
    ensures var e := Run(p, run);
            && Inv(e) && Work(e) + |run| <= Work(p) && e.want - |e.ring| - |e.todo| == p.want - |p.ring| - |p.todo|
            && e.sent + e.todo == p.sent + p.todo && e.length == p.length
    decreases |run|
  {
    if run == [] {
    } else {
      StepKeepsInv(p, run[0]);
      StepsEnd(p, run[0]);
      TransferKeeps(Step(p, run[0]), run[1..]);
    }
  }

  /** When the reader asks for what the writer offers and the ring holds, any scheduling
      takes at most Work(p) steps, and it stops only when all of it has been delivered. */
  lemma TransferDelivers(p: Pipe, run: seq<Action>)
    requires Inv(p) && p.length >= 2 && p.want == |p.ring| + |p.todo| && CanRun(p, run) && Transfers(run)
    ensures |run| <= Work(p)
    ensures !Enabled(Run(p, run), Reads) && !Enabled(Run(p, run), Writes) ==>
              Run(p, run).got == p.sent + p.todo && Run(p, run).todo == [] && Run(p, run).want == 0
  {
    TransferKeeps(p, run);
    var e := Run(p, run);
    if !Enabled(e, Reads) && !Enabled(e, Writes) {
      assert e.want == 0;
      assert e.got + e.ring == e.sent && e.ring == [] && e.todo == [];
      assert e.sent + e.todo == e.sent && e.got + e.ring == e.got;
    }
  }
}
