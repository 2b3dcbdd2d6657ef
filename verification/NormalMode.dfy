/** Normal mode: conservation of the quadwords that a channel of any kind moves between its start
    and its suspension. */
module NormalMode {
  import opened Words
  import opened DmaFifo
  import opened EeDmacSpec
  import opened EeDmac

  /** The channel, shared registers, memory and FIFO, the quadwords moved since the start, and the
      bytes the peripheral has taken from the FIFO (or, for a receiving channel, put into it). */
  datatype State = State(regs: Registers, ch: Channel, mem: Memory, fifo: seq<ubyte>,
                         moved: seq<Qword>, passed: seq<ubyte>)

  predicate Scratchpad(c: Channel) { c.id == 8 || c.id == 9 }
  predicate Sends(c: Channel) { c.direction.To? && !Scratchpad(c) }
  predicate Receives(c: Channel) { c.direction.From? && !Scratchpad(c) }

  /** Where a quadword is read, unless the channel receives it from its FIFO. */
  function Source(c: Channel): nat
  {
    if Scratchpad(c) && c.direction.From? then BusAddress(SprAddress(c.sadr), true)
    else if Scratchpad(c) then DataAddress(c.madr)
    else BusAddress(DataAddress(c.madr), SprOf(c.madr))
  }

  /** Where a quadword is stored, unless the channel sends it to its FIFO. */
  function Target(c: Channel): nat
  {
    if Scratchpad(c) && c.direction.To? then BusAddress(SprAddress(c.sadr), true)
    else if Scratchpad(c) then DataAddress(c.madr)
    else BusAddress(DataAddress(c.madr), SprOf(c.madr))
  }

  /** The channel's addresses after k quadwords. */
  function At(c: Channel, k: nat): Channel
  {
    c.(madr := Wrap(c.madr + 16 * k), sadr := if Scratchpad(c) then Wrap(c.sadr + 16 * k) else c.sadr)
  }

  function StepEffect(s: State): Effect
  {
    NormalStep(s.regs, s.ch, s.mem, Look(s.fifo))
  }

  /** The quadword that the next step moves, if it moves one. */
  function Quadword(s: State): Qword
  {
    if !Receives(s.ch) then ReadMem(s.mem, Source(s.ch))
    else if |s.fifo| >= 16 then QwordOf(s.fifo[..16]) else ZERO_QWORD
  }

  predicate Tick(s: State, s': State)
  {
    var e := StepEffect(s);
    && s.ch.str && !e.outcome.Threw? && (e.consumed ==> |s.fifo| >= 16)
    && s' == State(e.regs, e.ch, e.mem, FifoAfter(s.fifo, e),
                   if e.ch.qwc == s.ch.qwc then s.moved else s.moved + [Quadword(s)], s.passed)
  }

  /** The peripheral takes a byte from a sender's FIFO, or adds one to a receiver's. */
  predicate Peripheral(s: State, s': State)
  {
    if Receives(s.ch) then
      |s.fifo| < CAPACITY && |s'.passed| > 0 && var b := s'.passed[|s'.passed| - 1];
      s' == s.(fifo := s.fifo + [b], passed := s.passed + [b])
    else
      s.fifo != [] && s' == s.(fifo := s.fifo[1..], passed := s.passed + [s.fifo[0]])
  }

  /** Other channels and the cores change the shared registers, but not this channel's bit. */
  predicate Interfere(s: State, s': State)
  {
    s' == s.(regs := s'.regs) && (s.ch.id in s'.regs.cis <==> s.ch.id in s.regs.cis)
  }

  predicate Moves(s: State, s': State)
  {
    Tick(s, s') || Peripheral(s, s') || Interfere(s, s')
  }

  /** Channel 8 has no FIFO; in the direction To it would wait for one at the end. */
  predicate NoFifoAwaited(c: Channel) { c.id == 8 ==> c.direction.From? }

  /** A transfer about to start. */
  predicate Initial(s: State)
  {
    && s.ch.str && !s.ch.started && s.ch.qwc > 0 && s.ch.id !in s.regs.cis
    && NoFifoAwaited(s.ch)
    && s.fifo == [] && s.moved == [] && s.passed == []
  }

  // ---------------------------------------------------------------- what is conserved

  /** No quadword after the j-th goes to the same address. */
  predicate LastAt(c: Channel, j: nat, k: nat)
  {
    forall i :: j < i < k ==> Target(At(c, i)) != Target(At(c, j))
  }

  predicate Untouched(c: Channel, a: nat, k: nat)
  {
    Sends(c) || forall j :: 0 <= j < k ==> Target(At(c, j)) != a
  }

  ghost predicate RestKept(c0: Channel, m0: Memory, s: State)
  {
    forall a: nat :: Untouched(c0, a, |s.moved|) ==> ReadMem(s.mem, a) == ReadMem(m0, a)
  }

  ghost predicate TargetsOk(c0: Channel, s: State)
  {
    !Sends(c0) ==>
      forall j: nat :: j < |s.moved| && LastAt(c0, j, |s.moved|) ==> ReadMem(s.mem, Target(At(c0, j))) == s.moved[j]
  }

  ghost predicate SourcesOk(c0: Channel, m0: Memory, s: State)
  {
    !Receives(c0) ==> forall j: nat :: j < |s.moved| ==> s.moved[j] == ReadMem(m0, Source(At(c0, j)))
  }

  /** Memory holds the moved quadwords at their targets and is otherwise as it was; and unless they
      were received, the moved quadwords are those the memory held at the start. */
  ghost predicate MemoryOk(c0: Channel, m0: Memory, s: State)
  {
    RestKept(c0, m0, s) && TargetsOk(c0, s) && SourcesOk(c0, m0, s)
  }

  predicate FifoOk(s: State)
  {
    && |s.fifo| <= CAPACITY
    && (Sends(s.ch) ==> s.passed + s.fifo == QwordStream(s.moved))
    && (Receives(s.ch) ==> s.passed == QwordStream(s.moved) + s.fifo)
  }

  /** The registers account for what has moved; the channel suspends only when nothing is left to
      move and a sender's FIFO has drained, and its interrupt bit is set exactly then. */
  predicate RegistersOk(c0: Channel, s: State)
  {
    && s.ch.id == c0.id && s.ch.direction == c0.direction
    && s.ch.qwc + |s.moved| == c0.qwc
    && s.ch.madr == At(c0, |s.moved|).madr && s.ch.sadr == At(c0, |s.moved|).sadr
    && NoFifoAwaited(s.ch)
    && (s.ch.started || s.ch.qwc > 0)
    && (s.ch.str <==> s.ch.id !in s.regs.cis)
    && (!s.ch.str ==> s.ch.qwc == 0 && (Sends(s.ch) ==> s.fifo == []))
  }

  ghost predicate Conserved(s0: State, s: State)
  {
    RegistersOk(s0.ch, s) && MemoryOk(s0.ch, s0.mem, s) && FifoOk(s)
  }

  // ---------------------------------------------------------------- one step

  /** The quadword q moved: from the FIFO or the source, to the FIFO or the target. */
  function Moved(r: Registers, c: Channel, m: Memory, q: Qword): Effect
    requires c.qwc > 0
  {
    Effect(r, At(c, 1).(qwc := c.qwc - 1), if Sends(c) then m else m[Target(c) := q],
           if Sends(c) then [q] else [], Receives(c), Stepped)
  }

  predicate FifoReady(c: Channel, v: FifoView)
  {
    (Sends(c) ==> v.free >= 16) && (Receives(c) ==> v.input.Some?)
  }

  predicate WillMove(c: Channel, m: Memory, v: FifoView, q: Qword)
  {
    if Receives(c) then v.input.Some? ==> v.input.value == q else q == ReadMem(m, Source(c))
  }

  lemma ScratchpadTransfers(r: Registers, c: Channel, m: Memory, v: FifoView)
    requires c.qwc > 0 && Scratchpad(c) && NoFifoAwaited(c)
    ensures TransferData(r, c, m, v) == Moved(r, c, m, ReadMem(m, Source(c)))
  {
  }

  lemma FifoTransfers(r: Registers, c: Channel, m: Memory, v: FifoView, q: Qword)
    requires c.qwc > 0 && !Scratchpad(c) && WillMove(c, m, v, q)
    ensures TransferData(r, c, m, v) == if FifoReady(c, v) then Moved(r, c, m, q) else Unchanged(r, c, m, Waiting)
  {
  }

  /** A data step waits, or moves a quadword and perhaps publishes the source's progress. */
  lemma DataMoves(r: Registers, c: Channel, m: Memory, v: FifoView, q: Qword)
    requires c.qwc > 0 && NoFifoAwaited(c) && WillMove(c, m, v, q)
    ensures
      var e := DataStep(r, c, m, v, true);
      || e == Unchanged(r.(sis := true), c, m, Waiting) || e == Unchanged(r, c, m, Waiting)
      || (FifoReady(c, v) && (e == Moved(r, c, m, q) || e == UpdateStadr(Moved(r, c, m, q))))
  {
    if Scratchpad(c) { ScratchpadTransfers(r, c, m, v); } else { FifoTransfers(r, c, m, v, q); }
  }

  /** What a step can do: wait, start, move a quadword, or suspend with nothing left to move and a
      sender's FIFO empty. It never throws. */
  datatype Kind = Waits | Starts | Suspends | MovesOne

  predicate Does(k: Kind, r: Registers, c: Channel, m: Memory, v: FifoView, q: Qword, e: Effect)
  {
    match k
    case Waits => e == Unchanged(e.regs, c, m, Waiting) && e.regs.cis == r.cis && (c.started || c.qwc > 0)
    case Starts => c.qwc > 0 && e == Unchanged(r, c.(started := true), m, Stepped)
    case Suspends => c.qwc == 0 && (Sends(c) ==> v.empty) && e == Suspend(r, c, m)
    case MovesOne => c.started && c.qwc > 0 && FifoReady(c, v) && e == Moved(e.regs, c, m, q) && e.regs.cis == r.cis
  }

  lemma StepKind(r: Registers, c: Channel, m: Memory, v: FifoView, q: Qword) returns (k: Kind)
    requires (c.started || c.qwc > 0) && NoFifoAwaited(c) && WillMove(c, m, v, q)
    ensures Does(k, r, c, m, v, q, NormalStep(r, c, m, v))
  {
    var e := NormalStep(r, c, m, v);
    if !c.started {
      k := Starts;
    } else if c.qwc == 0 {
      k := if e.outcome.Waiting? then Waits else Suspends;
    } else {
      DataMoves(r, c, m, v, q);
      k := if e.outcome.Waiting? then Waits else MovesOne;
    }
  }

  // ---------------------------------------------------------------- runs

  lemma AdvanceWraps(x: uword, k: nat)
    ensures Wrap(Wrap(x + 16 * k) + 16) == Wrap(x + 16 * (k + 1))
  {
  }

  lemma AtNext(c0: Channel, c: Channel, k: nat)
    requires c.madr == At(c0, k).madr && c.sadr == At(c0, k).sadr && c.id == c0.id && c.direction == c0.direction
    ensures At(c, 1).madr == At(c0, k + 1).madr && At(c, 1).sadr == At(c0, k + 1).sadr
    ensures Source(c) == Source(At(c0, k)) && Target(c) == Target(At(c0, k))
  {
    AdvanceWraps(c0.madr, k);
    AdvanceWraps(c0.sadr, k);
  }

  /** A scratchpad channel reads and stores in disjoint parts of the address space. */
  lemma ScratchpadIsApart(c: Channel, i: nat, j: nat)
    requires Scratchpad(c)
    ensures Source(At(c, i)) != Target(At(c, j))
  {
  }

  lemma SourceIntact(c0: Channel, m0: Memory, s: State)
    requires RestKept(c0, m0, s) && !Receives(c0)
    ensures ReadMem(s.mem, Source(At(c0, |s.moved|))) == ReadMem(m0, Source(At(c0, |s.moved|)))
  {
    var a := Source(At(c0, |s.moved|));
    forall j | 0 <= j < |s.moved| && Scratchpad(c0)
      ensures Target(At(c0, j)) != a
    {
      ScratchpadIsApart(c0, |s.moved|, j);
    }
    assert Untouched(c0, a, |s.moved|);
  }

  lemma SourcesHold(c0: Channel, m0: Memory, s: State, s': State, q: Qword)
    requires RestKept(c0, m0, s) && SourcesOk(c0, m0, s) && s'.moved == s.moved + [q]
    requires !Receives(c0) ==> q == ReadMem(s.mem, Source(At(c0, |s.moved|)))
    ensures SourcesOk(c0, m0, s')
  {
    if !Receives(c0) {
      SourceIntact(c0, m0, s);
    }
  }

  lemma UntouchedKept(c0: Channel, m0: Memory, s: State, s': State, q: Qword)
    requires RestKept(c0, m0, s) && |s'.moved| == |s.moved| + 1
    requires s'.mem == if Sends(c0) then s.mem else s.mem[Target(At(c0, |s.moved|)) := q]
    ensures RestKept(c0, m0, s')
  {
    forall a: nat | Untouched(c0, a, |s.moved| + 1)
      ensures ReadMem(s'.mem, a) == ReadMem(m0, a)
    {
      assert Untouched(c0, a, |s.moved|);
    }
  }

  lemma TargetsHold(c0: Channel, s: State, s': State, q: Qword)
    requires TargetsOk(c0, s) && s'.moved == s.moved + [q]
    requires s'.mem == if Sends(c0) then s.mem else s.mem[Target(At(c0, |s.moved|)) := q]
    ensures TargetsOk(c0, s')
  {
    var k := |s.moved|;
    if !Sends(c0) {
      forall j: nat | j < k + 1 && LastAt(c0, j, k + 1)
        ensures ReadMem(s'.mem, Target(At(c0, j))) == s'.moved[j]
      {
        if j < k {
          assert LastAt(c0, j, k) && Target(At(c0, k)) != Target(At(c0, j));
        }
      }
    }
  }

  lemma MemoryMoves(c0: Channel, m0: Memory, s: State, s': State, q: Qword)
    requires MemoryOk(c0, m0, s) && s'.moved == s.moved + [q]
    requires s'.mem == if Sends(c0) then s.mem else s.mem[Target(At(c0, |s.moved|)) := q]
    requires !Receives(c0) ==> q == ReadMem(s.mem, Source(At(c0, |s.moved|)))
    ensures MemoryOk(c0, m0, s')
  {
    UntouchedKept(c0, m0, s, s', q);
    TargetsHold(c0, s, s', q);
    SourcesHold(c0, m0, s, s', q);
  }

  lemma Split(b: seq<ubyte>)
    requires |b| >= 16
    ensures b[..16] + b[16..] == b
  {
  }

  lemma FifoMoves(s: State, s': State, q: Qword)
    requires FifoOk(s) && s'.moved == s.moved + [q] && s'.passed == s.passed
    requires s'.ch.id == s.ch.id && s'.ch.direction == s.ch.direction
    requires Sends(s.ch) ==> |s.fifo| + 16 <= CAPACITY && s'.fifo == s.fifo + QwordStream([q])
    requires Receives(s.ch) ==> |s.fifo| >= 16 && q == QwordOf(s.fifo[..16]) && s'.fifo == s.fifo[16..]
    requires Scratchpad(s.ch) ==> s'.fifo == s.fifo
    ensures FifoOk(s')
  {
    QwordStreamConcat(s.moved, [q]);
    if Sends(s.ch) {
      Assoc(s.passed, s.fifo, QwordStream([q]));
    } else if Receives(s.ch) {
      OneQword(q);
      BytesOfQword(s.fifo[..16]);
      Assoc(QwordStream(s.moved), s.fifo[..16], s.fifo[16..]);
      Split(s.fifo);
    }
  }

  lemma StatusConserves(s0: State, s: State, s': State, k: Kind, e: Effect)
    requires Conserved(s0, s) && Tick(s, s') && e == StepEffect(s)
    requires !k.MovesOne? && Does(k, s.regs, s.ch, s.mem, Look(s.fifo), Quadword(s), e)
    ensures Conserved(s0, s')
  {
    assert s'.moved == s.moved && s'.mem == s.mem;
    assert s'.fifo == s.fifo + [] == s.fifo;
    assert MemoryOk(s0.ch, s0.mem, s');
  }

  lemma DataRegisters(s0: State, s: State, s': State, e: Effect)
    requires RegistersOk(s0.ch, s) && Tick(s, s') && e == StepEffect(s)
    requires Does(MovesOne, s.regs, s.ch, s.mem, Look(s.fifo), Quadword(s), e)
    ensures RegistersOk(s0.ch, s') && s'.moved == s.moved + [Quadword(s)]
  {
    AtNext(s0.ch, s.ch, |s.moved|);
  }

  lemma DataFifo(s: State, s': State, e: Effect)
    requires FifoOk(s) && Tick(s, s') && e == StepEffect(s)
    requires Does(MovesOne, s.regs, s.ch, s.mem, Look(s.fifo), Quadword(s), e)
    ensures FifoOk(s')
  {
    assert s.fifo + [] == s.fifo;
    FifoMoves(s, s', Quadword(s));
  }

  lemma DataConserves(s0: State, s: State, s': State, e: Effect)
    requires Conserved(s0, s) && Tick(s, s') && e == StepEffect(s)
    requires Does(MovesOne, s.regs, s.ch, s.mem, Look(s.fifo), Quadword(s), e)
    ensures Conserved(s0, s')
  {
    var q := Quadword(s);
    AtNext(s0.ch, s.ch, |s.moved|);
    DataRegisters(s0, s, s', e);
    DataFifo(s, s', e);
    assert e.mem == if Sends(s.ch) then s.mem else s.mem[Target(s.ch) := q];
    MemoryMoves(s0.ch, s0.mem, s, s', q);
  }

  lemma TickConserves(s0: State, s: State, s': State)
    requires Conserved(s0, s) && Tick(s, s')
    ensures Conserved(s0, s')
  {
    var (e, q) := (StepEffect(s), Quadword(s));
    var k := StepKind(s.regs, s.ch, s.mem, Look(s.fifo), q);
    if k.MovesOne? {
      DataConserves(s0, s, s', e);
    } else {
      StatusConserves(s0, s, s', k, e);
    }
  }

  lemma PeripheralConserves(s0: State, s: State, s': State)
    requires Conserved(s0, s) && Peripheral(s, s')
    ensures Conserved(s0, s')
  {
    if Receives(s.ch) {
      Assoc(QwordStream(s.moved), s.fifo, [s'.passed[|s'.passed| - 1]]);
    } else {
      assert s.fifo == [s.fifo[0]] + s.fifo[1..];
      Assoc(s.passed, [s.fifo[0]], s.fifo[1..]);
    }
  }

  lemma MoveConserves(s0: State, s: State, s': State)
    requires Conserved(s0, s) && Moves(s, s')
    ensures Conserved(s0, s')
  {
    if Tick(s, s') {
      TickConserves(s0, s, s');
    } else if Peripheral(s, s') {
      PeripheralConserves(s0, s, s');
    }
  }

  ghost predicate IsRun(run: seq<State>)
  {
    |run| > 0 && Initial(run[0]) && forall i :: 0 <= i < |run| - 1 ==> Moves(run[i], run[i + 1])
  }

  lemma InitialConserves(s: State)
    requires Initial(s)
    ensures Conserved(s, s)
  {
  }

  lemma {:induction false} RunConserves(run: seq<State>)
    requires IsRun(run)
    ensures Conserved(run[0], run[|run| - 1])
  {
    if |run| == 1 {
      InitialConserves(run[0]);
    } else {
      var before := run[..|run| - 1];
      RunConserves(before);
      MoveConserves(run[0], before[|before| - 1], run[|run| - 1]);
    }
  }

  lemma WhenConserved(s0: State, s: State)
    requires Conserved(s0, s)
    ensures s.ch.str ==> !StepEffect(s).outcome.Threw?
    ensures s.ch.id in s.regs.cis ==>
      && |s.moved| == s0.ch.qwc && s.ch.madr == Wrap(s0.ch.madr + 16 * s0.ch.qwc)
      && (Sends(s.ch) ==> s.passed == QwordStream(s.moved))
  {
    if s.ch.str {
      var k := StepKind(s.regs, s.ch, s.mem, Look(s.fifo), Quadword(s));
    } else {
      assert Sends(s.ch) ==> s.passed + [] == s.passed;
    }
  }

  /** Every run of a transfer, under any FIFO and stall timing, conserves its quadwords and never
      throws; once suspended it has moved exactly QWC quadwords, MADR has advanced by 16 for each
      of them, and a sender's peripheral has received exactly those bytes. */
  lemma NormalModeConserves(run: seq<State>)
    requires IsRun(run)
    ensures
      var (s0, s) := (run[0], run[|run| - 1]);
      && Conserved(s0, s)
      && (s.ch.str ==> !StepEffect(s).outcome.Threw?)
      && (s.ch.id in s.regs.cis ==>
            |s.moved| == s0.ch.qwc && s.ch.madr == Wrap(s0.ch.madr + 16 * s0.ch.qwc)
            && (Sends(s.ch) ==> s.passed == QwordStream(s.moved)))
  {
    RunConserves(run);
    WhenConserved(run[0], run[|run| - 1]);
  }
}
