/** SIF1 end to end: an EE source chain with tag transfer, the byte FIFO, and an IOP destination
    chain, under any interleaving. */
module Sif1 {
  import opened Wrappers
  import opened Words
  import opened FifoProtocol
  import opened EeDmacSpec
  import opened IopDmacSpec
  import ST = SourceTransfer
  import SP = SourceProgress
  import opened Sif1Stream

  const SIF1_ID := 6

  /** Both channels, the FIFO with the bytes under way, the shared EE registers, IOP memory and the
      tags the IOP has parsed. EE memory is only read. */
  datatype Link = Link(ee: Channel, regs: Registers, pipe: Pipe, iop: IopChannel, mem: IopMemory, tags: seq<Qword>)

  // ---------------------------------------------------------------- steps

  function EeLook(l: Link): FifoView { FifoView(l.pipe.Free(), l.pipe.fifo == [], None) }

  function EeEffect(em: Memory, l: Link): Effect { ST.Step(l.regs, l.ee, em, EeLook(l), true) }

  /** A step of the EE channel, once its last write to the FIFO is complete. */
  predicate EeTick(em: Memory, l: Link, l': Link)
  {
    var e := EeEffect(em, l);
    var bytes := QwordStream(e.pushed);
    && l.ee.str && l.pipe.outbox == [] && !e.outcome.Threw? && Enabled(l.pipe, BeginWrite(bytes))
    && l' == l.(ee := e.ch, regs := e.regs, pipe := Next(l.pipe, BeginWrite(bytes)).value)
  }

  /** The bytes that the IOP channel's next step reads: a word of data, a tag or nothing. */
  function Need(c: IopChannel): nat
  {
    if !c.started then 0 else if c.length > 0 then 4 else if Stops(c.dmaTag, c.iqe) then 0 else 16
  }

  /** The IOP channel finds the bytes available and starts popping them. */
  predicate IopBegin(l: Link, l': Link)
  {
    l.iop.start && Need(l.iop) > 0 && Enabled(l.pipe, BeginRead(Need(l.iop)))
    && l' == l.(pipe := Next(l.pipe, BeginRead(Need(l.iop))).value)
  }

  function IopLook(l: Link): IopView
  {
    IopView(l.pipe.Free(), l.pipe.fifo == [], if |l.pipe.inbox| == 4 then Some(WordOf(l.pipe.inbox)) else None,
            if |l.pipe.inbox| == 16 then Some(QwordOf(l.pipe.inbox)) else None)
  }

  function IopStep(l: Link): IopEffect { IopChainStep(l.iop, l.mem, IopLook(l)) }

  /** A step of the IOP channel, once the bytes it reads have been popped. */
  predicate IopTick(l: Link, l': Link)
  {
    var e := IopStep(l);
    && l.iop.start && l.pipe.wanted == 0 && |l.pipe.inbox| == Need(l.iop) && !e.outcome.Threw?
    && l' == l.(iop := e.ch, mem := e.mem, pipe := Next(l.pipe, Take).value,
                tags := if |l.pipe.inbox| == 16 then l.tags + [QwordOf(l.pipe.inbox)] else l.tags)
  }

  /** One byte enters or leaves the FIFO. */
  predicate ByteStep(l: Link, l': Link)
  {
    || (Enabled(l.pipe, Push) && Next(l.pipe, Push).Some? && l' == l.(pipe := Next(l.pipe, Push).value))
    || (Enabled(l.pipe, Pop) && Next(l.pipe, Pop).Some? && l' == l.(pipe := Next(l.pipe, Pop).value))
  }

  /** Other channels and the EE core change the shared registers, but not this channel's bit. */
  predicate Interfere(l: Link, l': Link)
  {
    l' == l.(regs := l'.regs) && (SIF1_ID in l'.regs.cis <==> SIF1_ID in l.regs.cis)
  }

  predicate Moves(em: Memory, l: Link, l': Link)
  {
    EeTick(em, l, l') || IopBegin(l, l') || IopTick(l, l') || ByteStep(l, l') || Interfere(l, l')
  }

  /** Both channels have just been started, with nothing queued. */
  predicate Initial(l: Link)
  {
    && l.ee.id == SIF1_ID && l.ee.direction.To? && l.ee.str && l.ee.tte && !l.ee.started && l.ee.qwc == 0
    && !l.ee.tagExit && !l.ee.tagIrq && SIF1_ID !in l.regs.cis
    && l.iop.direction.From? && l.iop.ce && l.iop.start && !l.iop.started && !l.iop.tci
    && l.iop.dmaTag == BLANK_IOP_TAG && l.pipe == EMPTY_PIPE && l.tags == []
  }

  ghost predicate IsRun(em: Memory, run: seq<Link>)
  {
    |run| > 0 && Initial(run[0]) && forall i :: 0 <= i < |run| - 1 ==> Moves(em, run[i], run[i + 1])
  }

  // ---------------------------------------------------------------- the invariant

  /** Everything the IOP has still to read: popped, queued, being pushed and not yet sent. */
  function Future(em: Memory, l: Link, tail: seq<Qword>): seq<ubyte>
  {
    l.pipe.Contents() + QwordStream(ST.ToSend(l.ee, em, true, tail))
  }

  function Left(c: IopChannel): nat { if c.started then c.length else 0 }

  predicate Last(c: IopChannel) { c.started && Stops(c.dmaTag, c.iqe) }

  /** What the IOP channel makes of that future. */
  function Outcome(l: Link, future: seq<ubyte>): Option<Received>
  {
    IopRun(l.mem, l.iop.madr, Left(l.iop), Last(l.iop), l.iop.mas, l.iop.iqe, future, l.tags)
  }

  predicate PipeOk(l: Link)
  {
    && l.pipe.Safe()
    && (l.pipe.wanted + |l.pipe.inbox| > 0 ==> l.iop.start && l.pipe.wanted + |l.pipe.inbox| == Need(l.iop))
  }

  predicate EeOk(l: Link)
  {
    && ST.Sender(l.ee, true) && l.ee.id == SIF1_ID
    && (l.ee.str <==> SIF1_ID !in l.regs.cis)
    && (!l.ee.str ==> l.pipe.outbox == [])
  }

  predicate IopOk(c: IopChannel)
  {
    && c.direction.From? && c.ce && (c.start <==> !c.tci)
    && (!c.started ==> c.start && c.dmaTag == BLANK_IOP_TAG)
    && (!c.start ==> c.length == 0 && Stops(c.dmaTag, c.iqe))
  }

  /** The invariant: both channels are sound, and running the IOP on everything still to come ends
      with the same memory and the same tags as at the start. */
  ghost predicate Inv(em: Memory, l: Link, n: nat, tail: seq<Qword>, final: Received)
  {
    && PipeOk(l) && EeOk(l) && IopOk(l.iop) && ST.Pending(l.ee, em, true, n, tail)
    && Outcome(l, Future(em, l, tail)) == Some(final)
  }

  lemma BlankRuns(iqe: bool)
    ensures !Stops(BLANK_IOP_TAG, iqe)
  {
  }

  /** The meaning of the EE's list, as bytes, is the stream of its packets. */
  lemma InitialFuture(em: Memory, l: Link, n: nat, ps: seq<Packet>)
    requires Initial(l) && ST.TagList(em, l.ee.tadr, true, l.ee.tie, n) == Some(Flat(ps))
    ensures ST.Pending(l.ee, em, true, n, Flat(ps)) && Future(em, l, Flat(ps)) == QwordStream(Flat(ps))
  {
    assert l.pipe.Contents() == [];
    assert ST.Payload(em, l.ee.madr, 0) == [] && [] + Flat(ps) == Flat(ps);
    assert [] + QwordStream(Flat(ps)) == QwordStream(Flat(ps));
  }

  lemma InitialOk(l: Link)
    requires Initial(l)
    ensures PipeOk(l) && EeOk(l) && IopOk(l.iop) && Left(l.iop) == 0 && !Last(l.iop)
  {
  }

  lemma InitialInv(em: Memory, l: Link, n: nat, ps: seq<Packet>)
    requires Initial(l) && ST.TagList(em, l.ee.tadr, true, l.ee.tie, n) == Some(Flat(ps)) && WellFormed(ps, l.iop.iqe)
    ensures Inv(em, l, n, Flat(ps), Received(Deliver(l.mem, l.iop.mas, ps), Headers(ps)))
  {
    InitialOk(l);
    InitialFuture(em, l, n, ps);
    IopRunDelivers(l.mem, l.iop.madr, ps, l.iop.mas, l.iop.iqe, []);
    assert [] + Headers(ps) == Headers(ps);
  }

  // ---------------------------------------------------------------- steps keep the invariant

  lemma EeTickFuture(em: Memory, l: Link, l': Link, tail: seq<Qword>, tail': seq<Qword>)
    requires EeTick(em, l, l')
    requires
      var e := EeEffect(em, l);
      ST.ToSend(l.ee, em, true, tail) == e.pushed + ST.ToSend(e.ch, em, true, tail')
    ensures Future(em, l', tail') == Future(em, l, tail)
  {
    var e := EeEffect(em, l);
    var (a, b, c) := (l.pipe.inbox + l.pipe.fifo, QwordStream(e.pushed), QwordStream(ST.ToSend(e.ch, em, true, tail')));
    QwordStreamConcat(e.pushed, ST.ToSend(e.ch, em, true, tail'));
    assert a + [] == a;
    Assoc(a, b, c);
  }

  lemma EeTickOk(em: Memory, l: Link, l': Link, n: nat, tail: seq<Qword>)
    requires PipeOk(l) && EeOk(l) && ST.Pending(l.ee, em, true, n, tail) && EeTick(em, l, l')
    ensures PipeOk(l') && EeOk(l')
  {
    ST.StepIsQuiet(l.regs, l.ee, em, EeLook(l), true, n, tail);
  }

  lemma EeTickInv(em: Memory, l: Link, l': Link, n: nat, tail: seq<Qword>, final: Received)
    returns (n': nat, tail': seq<Qword>)
    requires Inv(em, l, n, tail, final) && EeTick(em, l, l')
    ensures Inv(em, l', n', tail', final)
    ensures
      var e := EeEffect(em, l);
      && ST.Advances(l.ee, e.ch, e.pushed, true, n, n')
      && ST.ToSend(l.ee, em, true, tail) == e.pushed + ST.ToSend(e.ch, em, true, tail')
  {
    EeTickOk(em, l, l', n, tail);
    var e := EeEffect(em, l);
    ST.StepRelates(l.regs, l.ee, em, EeLook(l), true, n, tail);
    n', tail' := ST.StepSends(l.ee, e.ch, e.pushed, em, true, n, tail);
    EeTickFuture(em, l, l', tail, tail');
  }

  lemma ByteStepContents(l: Link, l': Link)
    requires l.pipe.Safe() && (ByteStep(l, l') || IopBegin(l, l'))
    ensures l'.pipe.Safe() && l'.pipe.Contents() == l.pipe.Contents()
  {
    if Enabled(l.pipe, Push) && l' == l.(pipe := Next(l.pipe, Push).value) {
      NeverThrows(l.pipe, Push);
    } else if IopBegin(l, l') {
      NeverThrows(l.pipe, BeginRead(Need(l.iop)));
    } else {
      NeverThrows(l.pipe, Pop);
    }
  }

  lemma ByteStepOk(l: Link, l': Link)
    requires PipeOk(l) && (ByteStep(l, l') || IopBegin(l, l'))
    ensures PipeOk(l') && l'.pipe.Contents() == l.pipe.Contents()
    ensures l' == l.(pipe := l'.pipe) && (l.pipe.outbox == [] ==> l'.pipe.outbox == [])
  {
    ByteStepContents(l, l');
  }

  /** Steps that leave both channels and the IOP's memory alone keep the invariant. */
  lemma InvBySameFuture(em: Memory, l: Link, l': Link, n: nat, tail: seq<Qword>, final: Received)
    requires Inv(em, l, n, tail, final) && PipeOk(l') && EeOk(l')
    requires l'.ee == l.ee && l'.iop == l.iop && l'.mem == l.mem && l'.tags == l.tags
    requires l'.pipe.Contents() == l.pipe.Contents()
    ensures Inv(em, l', n, tail, final)
  {
  }

  lemma ByteStepInv(em: Memory, l: Link, l': Link, n: nat, tail: seq<Qword>, final: Received)
    requires Inv(em, l, n, tail, final) && (ByteStep(l, l') || IopBegin(l, l') || Interfere(l, l'))
    ensures Inv(em, l', n, tail, final)
  {
    if !Interfere(l, l') {
      ByteStepOk(l, l');
    }
    InvBySameFuture(em, l, l', n, tail, final);
  }

  /** The bytes that have just been popped are the first ones of the future. */
  lemma FutureHead(em: Memory, l: Link, tail: seq<Qword>)
    ensures
      var rest := l.pipe.fifo + l.pipe.outbox + QwordStream(ST.ToSend(l.ee, em, true, tail));
      && Future(em, l, tail) == l.pipe.inbox + rest
      && Future(em, l, tail)[..|l.pipe.inbox|] == l.pipe.inbox && Future(em, l, tail)[|l.pipe.inbox|..] == rest
  {
    var (a, b, c, d) := (l.pipe.inbox, l.pipe.fifo, l.pipe.outbox, QwordStream(ST.ToSend(l.ee, em, true, tail)));
    assert (a + b + c) + d == a + (b + c + d);
  }

  lemma FutureAfterTake(em: Memory, l: Link, l': Link, tail: seq<Qword>)
    requires l'.pipe == l.pipe.(inbox := []) && l'.ee == l.ee
    ensures Future(em, l', tail) == Future(em, l, tail)[|l.pipe.inbox|..]
    ensures Future(em, l, tail)[..|l.pipe.inbox|] == l.pipe.inbox
  {
    FutureHead(em, l, tail);
    assert [] + l.pipe.fifo == l.pipe.fifo;
  }

  /** The IOP's effect when it reads a word, when it reads a tag, and when it reads nothing. */
  lemma IopDataEffect(l: Link, w: uword)
    requires IopOk(l.iop) && Need(l.iop) == 4 && |l.pipe.inbox| == 4 && w == WordOf(l.pipe.inbox)
    ensures
      var e := IopStep(l);
      && !e.outcome.Threw? && e.mem == l.mem[l.iop.madr := w]
      && e.ch == l.iop.(madr := NextWord(l.iop.madr, l.iop.mas), length := l.iop.length - 1)
  {
  }

  lemma IopTagEffect(l: Link, q: Qword)
    requires IopOk(l.iop) && Need(l.iop) == 16 && |l.pipe.inbox| == 16 && q == QwordOf(l.pipe.inbox)
    ensures
      var (e, t) := (IopStep(l), IopTagOf(q));
      && !e.outcome.Threw? && e.mem == l.mem
      && e.ch == l.iop.(dmaTag := t, length := t.Length(), madr := t.Addr())
  {
  }

  lemma IopStatusEffect(l: Link)
    requires IopOk(l.iop) && l.iop.start && Need(l.iop) == 0
    ensures
      var e := IopStep(l);
      && e.outcome.Stepped? && e.mem == l.mem
      && e.ch == if l.iop.started then l.iop.(start := false, tci := true) else l.iop.(length := 0, started := true)
  {
  }

  lemma IopTickOk(l: Link, l': Link)
    requires PipeOk(l) && IopOk(l.iop) && IopTick(l, l')
    ensures PipeOk(l') && IopOk(l'.iop) && l'.pipe == l.pipe.(inbox := [])
  {
    if Need(l.iop) == 4 {
      IopDataEffect(l, WordOf(l.pipe.inbox));
    } else if Need(l.iop) == 16 {
      IopTagEffect(l, QwordOf(l.pipe.inbox));
    } else {
      IopStatusEffect(l);
    }
  }

  /** The IOP's run over the future after it has read the future's head. */
  lemma IopTickRun(l: Link, l': Link, future: seq<ubyte>)
    requires IopOk(l.iop) && IopTick(l, l') && |l.pipe.inbox| <= |future|
    requires future[..|l.pipe.inbox|] == l.pipe.inbox
    ensures Outcome(l', future[|l.pipe.inbox|..]) == Outcome(l, future)
  {
    if Need(l.iop) == 4 {
      IopDataEffect(l, WordOf(l.pipe.inbox));
    } else if Need(l.iop) == 16 {
      IopTagEffect(l, QwordOf(l.pipe.inbox));
    } else {
      IopStatusEffect(l);
      BlankRuns(l.iop.iqe);
      assert future[0..] == future;
    }
  }

  lemma IopTickInv(em: Memory, l: Link, l': Link, n: nat, tail: seq<Qword>, final: Received)
    requires Inv(em, l, n, tail, final) && IopTick(l, l')
    ensures Inv(em, l', n, tail, final)
  {
    IopTickOk(l, l');
    FutureHead(em, l, tail);
    FutureAfterTake(em, l, l', tail);
    IopTickRun(l, l', Future(em, l, tail));
  }

  lemma MovesInv(em: Memory, l: Link, l': Link, n: nat, tail: seq<Qword>, final: Received)
    returns (n': nat, tail': seq<Qword>)
    requires Inv(em, l, n, tail, final) && Moves(em, l, l')
    ensures Inv(em, l', n', tail', final)
  {
    n', tail' := n, tail;
    if EeTick(em, l, l') {
      n', tail' := EeTickInv(em, l, l', n, tail, final);
    } else if IopTick(l, l') {
      IopTickInv(em, l, l', n, tail, final);
    } else {
      ByteStepInv(em, l, l', n, tail, final);
    }
  }

  // ---------------------------------------------------------------- safety

  lemma {:induction false} RunInv(em: Memory, run: seq<Link>, n: nat, ps: seq<Packet>)
    returns (n': nat, tail': seq<Qword>)
    requires IsRun(em, run) && ST.TagList(em, run[0].ee.tadr, true, run[0].ee.tie, n) == Some(Flat(ps))
    requires WellFormed(ps, run[0].iop.iqe)
    ensures Inv(em, run[|run| - 1], n', tail', Received(Deliver(run[0].mem, run[0].iop.mas, ps), Headers(ps)))
  {
    var final := Received(Deliver(run[0].mem, run[0].iop.mas, ps), Headers(ps));
    if |run| == 1 {
      n', tail' := n, Flat(ps);
      InitialInv(em, run[0], n, ps);
    } else {
      var before := run[..|run| - 1];
      n', tail' := RunInv(em, before, n, ps);
      n', tail' := MovesInv(em, before[|before| - 1], run[|run| - 1], n', tail', final);
    }
  }

  /** The tags the IOP has parsed are the first of those it will have parsed in the end. */
  lemma {:induction false} RunTags(m: IopMemory, madr: uword, length: nat, last: bool, mas: bool, iqe: bool,
                                   bytes: seq<ubyte>, tags: seq<Qword>)
    requires IopRun(m, madr, length, last, mas, iqe, bytes, tags).Some?
    ensures tags <= IopRun(m, madr, length, last, mas, iqe, bytes, tags).value.tags
    decreases |bytes|
  {
    if length == 0 && last {
    } else if length > 0 {
      RunTags(m[madr := WordOf(bytes[..4])], NextWord(madr, mas), length - 1, last, mas, iqe, bytes[4..], tags);
    } else {
      var q := QwordOf(bytes[..16]);
      var t := IopTagOf(q);
      RunTags(m, t.Addr(), t.Length(), Stops(t, iqe), mas, iqe, bytes[16..], tags + [q]);
    }
  }

  /** No step that is due throws: not the queue, not the EE channel, not the IOP channel. */
  ghost predicate DueStepsDoNotThrow(em: Memory, l: Link)
  {
    && (forall s :: Enabled(l.pipe, s) ==> Next(l.pipe, s).Some?)
    && (l.ee.str ==> !EeEffect(em, l).outcome.Threw?)
    && (l.iop.start && l.pipe.wanted == 0 && |l.pipe.inbox| == Need(l.iop) ==> !IopStep(l).outcome.Threw?)
  }

  lemma NothingThrows(em: Memory, l: Link, n: nat, tail: seq<Qword>, final: Received)
    requires Inv(em, l, n, tail, final)
    ensures DueStepsDoNotThrow(em, l)
  {
    forall s | Enabled(l.pipe, s)
      ensures Next(l.pipe, s).Some?
    {
      NeverThrows(l.pipe, s);
    }
    if l.ee.str {
      ST.StepIsQuiet(l.regs, l.ee, em, EeLook(l), true, n, tail);
    }
    if l.iop.start && l.pipe.wanted == 0 && |l.pipe.inbox| == Need(l.iop) {
      if Need(l.iop) == 4 {
        IopDataEffect(l, WordOf(l.pipe.inbox));
      } else if Need(l.iop) == 16 {
        IopTagEffect(l, QwordOf(l.pipe.inbox));
      } else {
        IopStatusEffect(l);
      }
    }
  }

  /** Once the IOP has stopped nothing is left to come. */
  lemma StoppedMeansDone(em: Memory, l: Link, n: nat, tail: seq<Qword>, final: Received)
    requires Inv(em, l, n, tail, final) && !l.iop.start
    ensures Received(l.mem, l.tags) == final && l.pipe.Contents() == [] && ST.ToSend(l.ee, em, true, tail) == []
  {
    assert |Future(em, l, tail)| == |l.pipe.Contents()| + 16 * |ST.ToSend(l.ee, em, true, tail)|;
  }

  /** End to end, under every interleaving: no step throws, the IOP reads as tags only the transferred
      EE tags, in order, and each side's completion flag is raised exactly when it has stopped. Once
      the IOP has stopped, its memory is the initial memory with exactly the EE's payloads stored at
      the tag addresses, in order, and nothing is left in the FIFO. */
  lemma LinkDelivers(em: Memory, run: seq<Link>, n: nat, ps: seq<Packet>)
    requires IsRun(em, run) && EePackets(em, run[0].ee.tadr, run[0].ee.tie, n) == Some(ps)
    requires WellFormed(ps, run[0].iop.iqe)
    ensures
      var l := run[|run| - 1];
      && DueStepsDoNotThrow(em, l) && l.tags <= Headers(ps)
      && (l.ee.str <==> SIF1_ID !in l.regs.cis) && (l.iop.start <==> !l.iop.tci)
      && (!l.iop.start ==> && l.mem == Deliver(run[0].mem, run[0].iop.mas, ps) && l.tags == Headers(ps)
                           && l.pipe.Contents() == [])
  {
    PacketsAreList(em, run[0].ee.tadr, run[0].ee.tie, n);
    var n', tail' := RunInv(em, run, n, ps);
    var l := run[|run| - 1];
    var final := Received(Deliver(run[0].mem, run[0].iop.mas, ps), Headers(ps));
    NothingThrows(em, l, n', tail', final);
    RunTags(l.mem, l.iop.madr, Left(l.iop), Last(l.iop), l.iop.mas, l.iop.iqe, Future(em, l, tail'), l.tags);
    if !l.iop.start {
      StoppedMeansDone(em, l, n', tail', final);
    }
  }

  // ---------------------------------------------------------------- progress

  /** The EE channel's next quadword, of a stall tag, is held back by stall control. */
  predicate Stalled(l: Link)
  {
    l.ee.started && l.ee.qwc > 0 && l.ee.tagStall && DrainStallOn(l.regs, l.ee) && DrainWaiting(l.regs, l.ee)
  }

  /** A step of the link itself that changes more than the shared registers. */
  predicate Productive(em: Memory, l: Link, l': Link)
  {
    (EeTick(em, l, l') || IopBegin(l, l') || IopTick(l, l') || ByteStep(l, l')) && l'.(regs := l.regs) != l
  }

  /** Bytes that the IOP has begun to pop, and how far it is from its end. */
  function IopWork(l: Link): nat
  {
    |l.pipe.inbox| + (if l.pipe.wanted + |l.pipe.inbox| == 0 then 1 else 0)
    + if !l.iop.start then 0 else if l.iop.started then 1 else 2
  }

  /** Work left: every byte counts for the stages it has still to pass, plus tags, starts and stops. */
  function Measure(em: Memory, l: Link, n: nat, tail: seq<Qword>): nat
  {
    64 * |ST.ToSend(l.ee, em, true, tail)| + 3 * |l.pipe.outbox| + 2 * |l.pipe.fifo| + IopWork(l)
    + ST.Rank(l.ee, true, n)
  }

  lemma EeTickDecreases(em: Memory, l: Link, l': Link, n: nat, tail: seq<Qword>, n': nat, tail': seq<Qword>)
    requires EeTick(em, l, l') && l'.(regs := l.regs) != l
    requires
      var e := EeEffect(em, l);
      && ST.Advances(l.ee, e.ch, e.pushed, true, n, n')
      && ST.ToSend(l.ee, em, true, tail) == e.pushed + ST.ToSend(e.ch, em, true, tail')
    ensures Measure(em, l', n', tail') < Measure(em, l, n, tail)
  {
    var e := EeEffect(em, l);
    assert |l'.pipe.outbox| == 16 * |e.pushed| && l'.pipe.fifo == l.pipe.fifo && IopWork(l') == IopWork(l);
    assert |ST.ToSend(l.ee, em, true, tail)| == |e.pushed| + |ST.ToSend(e.ch, em, true, tail')|;
  }

  lemma IopTickDecreases(l: Link, l': Link)
    requires PipeOk(l) && IopOk(l.iop) && IopTick(l, l')
    ensures IopWork(l') < IopWork(l) && l'.pipe.fifo == l.pipe.fifo && l'.pipe.outbox == l.pipe.outbox && l'.ee == l.ee
  {
    if Need(l.iop) == 4 {
      IopDataEffect(l, WordOf(l.pipe.inbox));
    } else if Need(l.iop) == 16 {
      IopTagEffect(l, QwordOf(l.pipe.inbox));
    } else {
      IopStatusEffect(l);
    }
  }

  lemma ByteStepDecreases(l: Link, l': Link)
    requires PipeOk(l) && (ByteStep(l, l') || IopBegin(l, l'))
    ensures l'.ee == l.ee
    ensures 3 * |l'.pipe.outbox| + 2 * |l'.pipe.fifo| + IopWork(l') < 3 * |l.pipe.outbox| + 2 * |l.pipe.fifo| + IopWork(l)
  {
    if IopBegin(l, l') {
      assert l'.pipe == l.pipe.(wanted := Need(l.iop));
    }
  }

  lemma ProductiveDecreases(em: Memory, l: Link, l': Link, n: nat, tail: seq<Qword>, final: Received)
    returns (n': nat, tail': seq<Qword>)
    requires Inv(em, l, n, tail, final) && Productive(em, l, l')
    ensures Inv(em, l', n', tail', final) && Measure(em, l', n', tail') < Measure(em, l, n, tail)
  {
    n', tail' := n, tail;
    if EeTick(em, l, l') {
      n', tail' := EeTickInv(em, l, l', n, tail, final);
      EeTickDecreases(em, l, l', n, tail, n', tail');
    } else if IopTick(l, l') {
      IopTickInv(em, l, l', n, tail, final);
      IopTickDecreases(l, l');
    } else {
      ByteStepInv(em, l, l', n, tail, final);
      ByteStepDecreases(l, l');
    }
  }

  lemma EeStepChanges(em: Memory, l: Link, n: nat, tail: seq<Qword>)
    requires EeOk(l) && ST.Pending(l.ee, em, true, n, tail) && l.ee.str && !Stalled(l) && EeLook(l).free >= 16
    requires l.ee.started && l.ee.qwc == 0 && ST.LastTag(l.ee) ==> l.pipe.fifo == []
    ensures EeEffect(em, l).ch != l.ee
  {
    var v := EeLook(l);
    if !l.ee.started {
      assert EeEffect(em, l).ch == l.ee.(started := true);
    } else if l.ee.qwc == 0 && ST.LastTag(l.ee) {
      SP.StatusWorks(l.regs, l.ee, em, v, true);
    } else if l.ee.qwc > 0 {
      SP.DataWorks(l.regs, l.ee, em, v, true);
    } else {
      SP.TagWorks(l.regs, l.ee, em, v, n, tail);
    }
  }

  /** The next step of the EE channel changes something. */
  lemma EeMoves(em: Memory, l: Link, n: nat, tail: seq<Qword>) returns (l': Link)
    requires PipeOk(l) && EeOk(l) && ST.Pending(l.ee, em, true, n, tail) && l.ee.str && !Stalled(l)
    requires l.pipe.outbox == [] && |l.pipe.fifo| < 16
    requires l.ee.started && l.ee.qwc == 0 && ST.LastTag(l.ee) ==> l.pipe.fifo == []
    ensures Productive(em, l, l')
  {
    var e := EeEffect(em, l);
    ST.StepIsQuiet(l.regs, l.ee, em, EeLook(l), true, n, tail);
    EeStepChanges(em, l, n, tail);
    l' := l.(ee := e.ch, regs := e.regs, pipe := l.pipe.(outbox := QwordStream(e.pushed)));
    assert EeTick(em, l, l');
  }

  lemma ByteMoves(em: Memory, l: Link) returns (l': Link)
    requires PipeOk(l) && (l.pipe.outbox != [] || l.pipe.wanted > 0)
    ensures Productive(em, l, l')
  {
    var step := if l.pipe.outbox != [] then Push else Pop;
    NeverThrows(l.pipe, step);
    l' := l.(pipe := Next(l.pipe, step).value);
    assert ByteStep(l, l');
  }

  lemma IopMoves(em: Memory, l: Link) returns (l': Link)
    requires PipeOk(l) && IopOk(l.iop) && l.iop.start && l.pipe.wanted == 0
    requires l.pipe.inbox != [] || |l.pipe.fifo| >= Need(l.iop)
    ensures Productive(em, l, l')
  {
    if l.pipe.inbox == [] && Need(l.iop) > 0 {
      l' := l.(pipe := l.pipe.(wanted := Need(l.iop)));
      assert IopBegin(l, l');
    } else {
      var e := IopStep(l);
      if Need(l.iop) == 4 {
        IopDataEffect(l, WordOf(l.pipe.inbox));
      } else if Need(l.iop) == 16 {
        IopTagEffect(l, QwordOf(l.pipe.inbox));
      } else {
        IopStatusEffect(l);
      }
      l' := l.(iop := e.ch, mem := e.mem, pipe := l.pipe.(inbox := []),
               tags := if |l.pipe.inbox| == 16 then l.tags + [QwordOf(l.pipe.inbox)] else l.tags);
      IopTickDecreases(l, l');
    }
  }

  /** An IOP channel that waits for bytes has them in its future. */
  lemma NeedsFuture(l: Link, future: seq<ubyte>)
    requires Outcome(l, future).Some? && l.iop.start
    ensures |future| >= Need(l.iop)
  {
    BlankRuns(l.iop.iqe);
  }

  /** With the IOP waiting for more, or stopped, the EE channel is running and has work to do. */
  lemma EeHasWork(em: Memory, l: Link, n: nat, tail: seq<Qword>, final: Received)
    requires Inv(em, l, n, tail, final) && (l.iop.start || l.ee.str)
    requires l.pipe.outbox == [] && l.pipe.inbox == [] && (l.iop.start ==> |l.pipe.fifo| < Need(l.iop))
    ensures l.ee.str && |l.pipe.fifo| < 16
    ensures ST.ToSend(l.ee, em, true, tail) == [] ==> l.pipe.fifo == []
  {
    assert |Future(em, l, tail)| == |l.pipe.fifo| + 16 * |ST.ToSend(l.ee, em, true, tail)|;
    if l.iop.start {
      NeedsFuture(l, Future(em, l, tail));
    } else {
      StoppedMeansDone(em, l, n, tail, final);
    }
  }

  /** In every state the invariant allows, unless both channels have stopped or the EE channel is held
      back by stall control, some step of the link changes something. */
  lemma NeverStuck(em: Memory, l: Link, n: nat, tail: seq<Qword>, final: Received) returns (l': Link)
    requires Inv(em, l, n, tail, final) && (l.iop.start || l.ee.str) && !Stalled(l)
    ensures Productive(em, l, l')
  {
    if l.pipe.outbox != [] || l.pipe.wanted > 0 {
      l' := ByteMoves(em, l);
    } else if l.iop.start && (l.pipe.inbox != [] || |l.pipe.fifo| >= Need(l.iop)) {
      l' := IopMoves(em, l);
    } else {
      EeHasWork(em, l, n, tail, final);
      assert ST.Payload(em, l.ee.madr, 0) == [];
      l' := EeMoves(em, l, n, tail);
    }
  }

  ghost predicate IsProductiveRun(em: Memory, run: seq<Link>)
  {
    |run| > 0 && Initial(run[0]) && forall i :: 0 <= i < |run| - 1 ==> Productive(em, run[i], run[i + 1])
  }

  lemma {:induction false} ProductiveRunBounded(em: Memory, run: seq<Link>, n: nat, ps: seq<Packet>)
    returns (n': nat, tail': seq<Qword>)
    requires IsProductiveRun(em, run) && WellFormed(ps, run[0].iop.iqe)
    requires ST.TagList(em, run[0].ee.tadr, true, run[0].ee.tie, n) == Some(Flat(ps))
    ensures Inv(em, run[|run| - 1], n', tail', Received(Deliver(run[0].mem, run[0].iop.mas, ps), Headers(ps)))
    ensures Measure(em, run[|run| - 1], n', tail') + |run| - 1 <= Measure(em, run[0], n, Flat(ps))
  {
    var final := Received(Deliver(run[0].mem, run[0].iop.mas, ps), Headers(ps));
    if |run| == 1 {
      n', tail' := n, Flat(ps);
      InitialInv(em, run[0], n, ps);
    } else {
      var before := run[..|run| - 1];
      n', tail' := ProductiveRunBounded(em, before, n, ps);
      n', tail' := ProductiveDecreases(em, before[|before| - 1], run[|run| - 1], n', tail', final);
    }
  }

  lemma InitialMeasure(em: Memory, l: Link, n: nat, ps: seq<Packet>)
    requires Initial(l)
    ensures Measure(em, l, n, Flat(ps)) == 64 * |Flat(ps)| + n + 5
  {
    assert ST.Payload(em, l.ee.madr, 0) == [] && [] + Flat(ps) == Flat(ps);
  }

  /** Progress: a run in which every step changes something has bounded length, whatever the
      interleaving, and a run that cannot be continued, with the EE channel not held back by stall
      control, has both channels stopped with everything delivered. */
  lemma LinkCompletes(em: Memory, run: seq<Link>, n: nat, ps: seq<Packet>)
    requires IsProductiveRun(em, run) && WellFormed(ps, run[0].iop.iqe)
    requires EePackets(em, run[0].ee.tadr, run[0].ee.tie, n) == Some(ps)
    ensures |run| <= 64 * |Flat(ps)| + n + 6
    ensures
      var l := run[|run| - 1];
      (forall l' :: !Productive(em, l, l')) && !Stalled(l) ==>
        && !l.iop.start && !l.ee.str && l.iop.tci && SIF1_ID in l.regs.cis
        && l.mem == Deliver(run[0].mem, run[0].iop.mas, ps) && l.tags == Headers(ps) && l.pipe.Contents() == []
  {
    PacketsAreList(em, run[0].ee.tadr, run[0].ee.tie, n);
    var n', tail' := ProductiveRunBounded(em, run, n, ps);
    InitialMeasure(em, run[0], n, ps);
    var l := run[|run| - 1];
    var final := Received(Deliver(run[0].mem, run[0].iop.mas, ps), Headers(ps));
    if (l.iop.start || l.ee.str) && !Stalled(l) {
      var l' := NeverStuck(em, l, n', tail', final);
    } else if !l.iop.start {
      StoppedMeansDone(em, l, n', tail', final);
    }
  }
}
