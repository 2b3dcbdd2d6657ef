/** Check-then-act on a DMA FIFO. A producer and a consumer on different threads each test the
    availability of several bytes and then move them one at a time, interleaved with the other. */
module FifoProtocol {
  import opened Wrappers
  import opened Words
  import opened DmaFifo

  /** The queue, the bytes a guarded write still has to push, the bytes a guarded read has popped
      so far and the number it still has to pop. */
  datatype Pipe = Pipe(outbox: seq<ubyte>, fifo: seq<ubyte>, inbox: seq<ubyte>, wanted: nat) {

    /** Everything under way, oldest byte first. */
    function Contents(): seq<ubyte> { inbox + fifo + outbox }

    /** The test that guarded a multi-byte operation still covers what is left of it. */
    predicate Safe()
    {
      |fifo| + |outbox| <= CAPACITY && wanted <= |fifo|
    }

    function Free(): nat { if |fifo| <= CAPACITY then CAPACITY - |fifo| else 0 }
  }

  const EMPTY_PIPE := Pipe([], [], [], 0)

  /** BeginWrite and BeginRead are the availability tests; Push and Pop move one byte; Take hands
      a completed read to the consumer. */
  datatype PipeStep = BeginWrite(bytes: seq<ubyte>) | Push | BeginRead(n: nat) | Pop | Take

  predicate Enabled(p: Pipe, s: PipeStep)
  {
    match s
    case BeginWrite(bytes) => p.outbox == [] && p.Free() >= |bytes|
    case Push => p.outbox != []
    case BeginRead(n) => p.wanted == 0 && p.inbox == [] && |p.fifo| >= n
    case Pop => p.wanted > 0
    case Take => p.wanted == 0
  }

  /** The pipe after a step; none where the queue throws. */
  function Next(p: Pipe, s: PipeStep): Option<Pipe>
    requires Enabled(p, s)
  {
    match s
    case BeginWrite(bytes) => Some(p.(outbox := bytes))
    case Push =>
      if |p.fifo| >= CAPACITY then None
      else Some(p.(outbox := p.outbox[1..], fifo := p.fifo + [p.outbox[0]]))
    case BeginRead(n) => Some(p.(wanted := n))
    case Pop =>
      if p.fifo == [] then None
      else Some(p.(fifo := p.fifo[1..], inbox := p.inbox + [p.fifo[0]], wanted := p.wanted - 1))
    case Take => Some(p.(inbox := []))
  }

  /** No guarded byte operation throws, and the next state is guarded again. */
  lemma NeverThrows(p: Pipe, s: PipeStep)
    requires p.Safe() && Enabled(p, s)
    ensures Next(p, s).Some? && Next(p, s).value.Safe()
    ensures s.Push? || s.Pop? ==> Next(p, s).value.Contents() == p.Contents()
    ensures s.BeginWrite? ==> Next(p, s).value.Contents() == p.Contents() + s.bytes
    ensures s.BeginRead? ==> Next(p, s).value.Contents() == p.Contents()
    ensures s.Take? ==> p.inbox + Next(p, s).value.Contents() == p.Contents()
  {
  }

  /** A guarded write begins exactly when the bytes fit into 1024 with those queued. */
  lemma WritesExactly(p: Pipe, bytes: seq<ubyte>)
    requires p.Safe() && p.outbox == []
    ensures Enabled(p, BeginWrite(bytes)) <==> |p.fifo| + |bytes| <= 1024
  {
  }

  /** A run of enabled steps, with the bytes written and the bytes taken so far. */
  datatype History = History(pipe: Pipe, written: seq<ubyte>, taken: seq<ubyte>) {
    ghost predicate Ok() { pipe.Safe() && taken + pipe.Contents() == written }
  }

  function Extend(h: History, s: PipeStep): Option<History>
  {
    if !Enabled(h.pipe, s) || Next(h.pipe, s).None? then None
    else Some(History(Next(h.pipe, s).value,
                      h.written + (if s.BeginWrite? then s.bytes else []),
                      h.taken + (if s.Take? then h.pipe.inbox else [])))
  }

  function RunPipe(steps: seq<PipeStep>): Option<History>
  {
    if steps == [] then Some(History(EMPTY_PIPE, [], []))
    else
      var h := RunPipe(steps[..|steps| - 1]);
      if h.None? then None else Extend(h.value, steps[|steps| - 1])
  }

  lemma ExtendOk(h: History, s: PipeStep)
    requires h.Ok() && Enabled(h.pipe, s)
    ensures Extend(h, s).Some? && Extend(h, s).value.Ok()
  {
    NeverThrows(h.pipe, s);
    var (p, p') := (h.pipe, Next(h.pipe, s).value);
    if s.BeginWrite? {
      Assoc(h.taken, p.Contents(), s.bytes);
    } else if s.Take? {
      Assoc(h.taken, p.inbox, p'.Contents());
    }
  }

  /** In every run the occupancy stays within the capacity, no enabled step throws, and the bytes
      taken are exactly the first bytes written, in order. */
  lemma {:induction false} PipeRunsAreSafe(steps: seq<PipeStep>)
    requires RunPipe(steps).Some?
    ensures
      var h := RunPipe(steps).value;
      && |h.pipe.fifo| <= 1024 && h.Ok()
      && forall s :: Enabled(h.pipe, s) ==> Next(h.pipe, s).Some?
  {
    var h := RunPipe(steps).value;
    if steps == [] {
    } else {
      PipeRunsAreSafe(steps[..|steps| - 1]);
      ExtendOk(RunPipe(steps[..|steps| - 1]).value, steps[|steps| - 1]);
    }
    forall s | Enabled(h.pipe, s)
      ensures Next(h.pipe, s).Some?
    {
      NeverThrows(h.pipe, s);
    }
  }
}
