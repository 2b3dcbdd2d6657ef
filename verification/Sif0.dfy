/** The SIF0 link: an IOP source chain and an EE destination chain running concurrently, one byte
    at a time, over the shared FIFO. */
module Sif0 {
  import opened Wrappers
  import opened Words
  import opened DmaFifo
  import opened FifoProtocol
  import opened EeDmacSpec
  import opened IopDmacSpec
  import opened Sif0Stream

  /** Both channels, the FIFO with the reads and writes under way, EE memory, the shared EE DMAC
      registers, and every tag quadword the EE has read. */
  datatype Link = Link(iop: IopChannel, pipe: Pipe, ee: Channel, regs: Registers, mem: Memory, headers: seq<Qword>)

  const SIF0_ID: nat := 5

  // ---------------------------------------------------------------- steps

  function IopLook(l: Link): IopView { IopView(l.pipe.Free(), l.pipe.fifo == [], None, None) }

  /** A step of the IOP channel, once its last write to the FIFO is complete. */
  predicate IopTick(im: IopMemory, l: Link, l': Link)
  {
    var e := IopChainStep(l.iop, im, IopLook(l));
    l.iop.start && l.pipe.outbox == [] && !e.outcome.Threw?
    && Enabled(l.pipe, BeginWrite(e.pushed))
    && l' == l.(iop := e.ch, pipe := Next(l.pipe, BeginWrite(e.pushed)).value)
  }

  /** The EE channel's next step reads a quadword: data or a tag. */
  predicate EeReads(c: Channel) { c.started && (c.qwc > 0 || !(c.tagExit || (c.tie && c.tagIrq))) }

  /** The EE channel finds a quadword available and starts popping it. */
  predicate EeBegin(l: Link, l': Link)
  {
    l.ee.str && EeReads(l.ee) && Enabled(l.pipe, BeginRead(16))
    && l' == l.(pipe := Next(l.pipe, BeginRead(16)).value)
  }

  function EeInput(l: Link): Option<Qword>
  {
    if |l.pipe.inbox| == 16 then Some(QwordOf(l.pipe.inbox)) else None
  }

  function EeEffect(l: Link): Effect
  {
    ChainStep(l.regs, l.ee, l.mem, FifoView(l.pipe.Free(), l.pipe.fifo == [], EeInput(l)))
  }

  /** A step of the EE channel, once the quadword it reads has been popped. */
  predicate EeTick(l: Link, l': Link)
  {
    var e := EeEffect(l);
    l.ee.str && l.pipe.wanted == 0 && (EeReads(l.ee) <==> |l.pipe.inbox| == 16) && !e.outcome.Threw?
    && l' == l.(ee := e.ch, regs := e.regs, mem := e.mem, pipe := Next(l.pipe, Take).value,
                headers := if EeReads(l.ee) && l.ee.qwc == 0 then l.headers + [QwordOf(l.pipe.inbox)] else l.headers)
  }

  /** One byte enters or leaves the FIFO. */
  predicate ByteStep(l: Link, l': Link)
  {
    || (Enabled(l.pipe, Push) && Next(l.pipe, Push).Some? && l' == l.(pipe := Next(l.pipe, Push).value))
    || (Enabled(l.pipe, Pop) && Next(l.pipe, Pop).Some? && l' == l.(pipe := Next(l.pipe, Pop).value))
  }

  /** Other channels and the EE core change the shared registers, but not this channel's bit. */
  predicate Interfere(l: Link, l': Link)
  {
    l' == l.(regs := l'.regs) && (SIF0_ID in l'.regs.cis <==> SIF0_ID in l.regs.cis)
  }

  predicate Moves(im: IopMemory, l: Link, l': Link)
  {
    IopTick(im, l, l') || EeBegin(l, l') || EeTick(l, l') || ByteStep(l, l') || Interfere(l, l')
  }

  /** Both channels have just been started, with nothing queued. */
  predicate Initial(l: Link)
  {
    && l.iop.start && !l.iop.started && !l.iop.tci && IopSender(l.iop)
    && l.ee.id == SIF0_ID && l.ee.direction.From? && l.ee.str && !l.ee.tte && !l.ee.started && l.ee.qwc == 0
    && !l.ee.tagExit && !l.ee.tagIrq
    && l.pipe == EMPTY_PIPE && l.headers == [] && SIF0_ID !in l.regs.cis
  }

  ghost predicate IsRun(im: IopMemory, run: seq<Link>)
  {
    |run| > 0 && Initial(run[0]) && forall i :: 0 <= i < |run| - 1 ==> Moves(im, run[i], run[i + 1])
  }

  // ---------------------------------------------------------------- the invariant

  predicate EeLast(c: Channel) { c.tagExit || (c.tie && c.tagIrq) }

  /** Everything the EE has still to read: popped, queued, being pushed and not yet sent. */
  function Future(l: Link, im: IopMemory, tail: seq<Packet>): seq<ubyte>
  {
    l.pipe.Contents() + IopToSend(l.iop, im, tail)
  }

  /** What the EE channel makes of the quadwords to come. */
  function EeRunOn(l: Link, qs: seq<Qword>): Option<Received>
  {
    DestRun(l.mem, l.ee.madr, l.ee.qwc, EeLast(l.ee), l.ee.tie, qs, l.headers)
  }

  function EeRun(l: Link, future: seq<ubyte>): Option<Received>
  {
    EeRunOn(l, ParseQwords(future))
  }

  predicate PipeOk(l: Link)
  {
    && l.pipe.Safe()
    && (l.pipe.wanted + |l.pipe.inbox| in {0, 16})
    && (l.pipe.wanted + |l.pipe.inbox| == 16 ==> l.ee.str && EeReads(l.ee))
  }

  predicate EeOk(l: Link)
  {
    && l.ee.id == SIF0_ID && l.ee.direction.From? && !l.ee.tte
    && (!l.ee.started ==> l.ee.str && l.ee.qwc == 0 && !EeLast(l.ee))
    && (!l.ee.str ==> l.ee.qwc == 0 && EeLast(l.ee))
    && (l.ee.str <==> SIF0_ID !in l.regs.cis)
  }

  predicate IopOk(l: Link)
  {
    && IopSender(l.iop)
    && (l.iop.start <==> !l.iop.tci)
    && (!l.iop.start ==> l.pipe.outbox == [])
  }

  /** The invariant: both channels are sound, and running the EE on everything still to come ends
      with the same memory and the same headers as at the start. */
  ghost predicate Inv(im: IopMemory, l: Link, n: nat, tail: seq<Packet>, final: Received)
  {
    && PipeOk(l) && EeOk(l) && IopOk(l)
    && (l.iop.start ==> IopPending(l.iop, im, n, tail))
    && |Future(l, im, tail)| % 16 == 0
    && EeRun(l, Future(l, im, tail)) == Some(final)
  }

  lemma WholeQwords(size: nat, qwc: nat, rest: nat)
    requires size == 4 * qwc && rest % 16 == 0
    ensures (16 + 4 * size + rest) % 16 == 0
  {
    assert 16 + 4 * size + rest == 16 * (1 + qwc + rest / 16);
  }

  lemma {:induction false} PacketStreamSize(ps: seq<Packet>, tie: bool)
    requires WellFormed(ps, tie)
    ensures |PacketStream(ps)| % 16 == 0
    decreases |ps|
  {
    var (size, rest) := (|ps[0].words|, PacketStream(ps[1..]));
    if |ps| <= 1 {
    } else {
      PacketStreamSize(ps[1..], tie);
    }
    assert |rest| % 16 == 0;
    assert |PacketStream(ps)| == 16 + 4 * size + |rest|;
    WholeQwords(size, TagOf(ps[0].header).Qwc(), |rest|);
  }

  lemma InitialFuture(im: IopMemory, l: Link, ps: seq<Packet>)
    requires Initial(l)
    ensures Future(l, im, ps) == PacketStream(ps) && PipeOk(l) && EeOk(l) && IopOk(l)
  {
    assert l.pipe.Contents() == [];
    assert [] + PacketStream(ps) == PacketStream(ps);
  }

  lemma InitialRun(im: IopMemory, l: Link, ps: seq<Packet>)
    requires Initial(l) && WellFormed(ps, l.ee.tie)
    ensures EeRun(l, PacketStream(ps)) == Some(Received(Deliver(l.mem, ps), Headers(ps)))
  {
    DestRunDelivers(l.mem, l.ee.madr, ps, l.ee.tie, []);
    assert [] + Headers(ps) == Headers(ps);
  }

  lemma InitialInv(im: IopMemory, l: Link, n: nat, ps: seq<Packet>)
    requires Initial(l) && IopTagList(im, l.iop.tadr, l.iop.mas, l.iop.iqe, n) == Some(ps)
    requires WellFormed(ps, l.ee.tie)
    ensures Inv(im, l, n, ps, Received(Deliver(l.mem, ps), Headers(ps)))
  {
    InitialFuture(im, l, ps);
    PacketStreamSize(ps, l.ee.tie);
    InitialRun(im, l, ps);
  }

  /** Steps that leave the EE side alone keep the invariant if they keep the future. */
  lemma InvBySameFuture(im: IopMemory, l: Link, l': Link, n: nat, tail: seq<Packet>, n': nat, tail': seq<Packet>,
                        final: Received)
    requires Inv(im, l, n, tail, final) && PipeOk(l') && IopOk(l')
    requires l'.iop.start ==> IopPending(l'.iop, im, n', tail')
    requires l'.ee == l.ee && l'.mem == l.mem && l'.headers == l.headers
    requires SIF0_ID in l'.regs.cis <==> SIF0_ID in l.regs.cis
    requires Future(l', im, tail') == Future(l, im, tail)
    ensures Inv(im, l', n', tail', final)
  {
  }

  lemma IopTickOk(im: IopMemory, l: Link, l': Link, n: nat, tail: seq<Packet>)
    requires PipeOk(l) && IopOk(l) && IopTick(im, l, l') && IopPending(l.iop, im, n, tail)
    ensures PipeOk(l') && IopOk(l')
  {
    var n', tail' := IopStepSends(l.iop, im, IopLook(l), n, tail);
    NeverThrows(l.pipe, BeginWrite(IopChainStep(l.iop, im, IopLook(l)).pushed));
  }

  lemma IopTickFuture(im: IopMemory, l: Link, l': Link, tail: seq<Packet>, tail': seq<Packet>)
    requires PipeOk(l) && IopTick(im, l, l')
    requires
      var e := IopChainStep(l.iop, im, IopLook(l));
      IopToSend(l.iop, im, tail) == e.pushed + IopToSend(e.ch, im, tail')
    ensures Future(l', im, tail') == Future(l, im, tail)
  {
    var e := IopChainStep(l.iop, im, IopLook(l));
    NeverThrows(l.pipe, BeginWrite(e.pushed));
    Words.Assoc(l.pipe.Contents(), e.pushed, IopToSend(e.ch, im, tail'));
  }

  lemma IopTickInv(im: IopMemory, l: Link, l': Link, n: nat, tail: seq<Packet>, final: Received)
    returns (n': nat, tail': seq<Packet>)
    requires Inv(im, l, n, tail, final) && IopTick(im, l, l')
    ensures Inv(im, l', n', tail', final)
    ensures |IopToSend(l.iop, im, tail)|
      == |IopChainStep(l.iop, im, IopLook(l)).pushed| + |IopToSend(l'.iop, im, tail')|
  {
    n', tail' := IopStepSends(l.iop, im, IopLook(l), n, tail);
    IopTickOk(im, l, l', n, tail);
    IopTickFuture(im, l, l', tail, tail');
    InvBySameFuture(im, l, l', n, tail, n', tail', final);
  }

  /** Byte moves and the start of a read keep the pipe sound and its contents. */
  lemma ByteStepPipe(l: Link, l': Link)
    requires PipeOk(l) && (ByteStep(l, l') || EeBegin(l, l'))
    ensures PipeOk(l') && l'.pipe.Contents() == l.pipe.Contents()
    ensures l.pipe.outbox == [] ==> l'.pipe.outbox == []
    ensures l' == l.(pipe := l'.pipe)
  {
    if EeBegin(l, l') {
      NeverThrows(l.pipe, BeginRead(16));
    } else {
      if Enabled(l.pipe, Push) { NeverThrows(l.pipe, Push); }
      if Enabled(l.pipe, Pop) { NeverThrows(l.pipe, Pop); }
    }
  }

  lemma ByteStepInv(im: IopMemory, l: Link, l': Link, n: nat, tail: seq<Packet>, final: Received)
    requires Inv(im, l, n, tail, final) && (ByteStep(l, l') || EeBegin(l, l') || Interfere(l, l'))
    ensures Inv(im, l', n, tail, final)
  {
    if !Interfere(l, l') {
      ByteStepPipe(l, l');
    }
    InvBySameFuture(im, l, l', n, tail, n, tail, final);
  }

  lemma Regroup(a: seq<ubyte>, b: seq<ubyte>, c: seq<ubyte>, d: seq<ubyte>)
    ensures (a + b + c) + d == a + (b + c + d)
  {
  }

  lemma HeadParses(head: seq<ubyte>, rest: seq<ubyte>)
    requires |head| == 16
    ensures ParseQwords(head + rest) == [QwordOf(head)] + ParseQwords(rest)
  {
    assert (head + rest)[..16] == head && (head + rest)[16..] == rest;
  }

  /** The quadword that has just been popped is the first one of the future. */
  lemma FutureHead(l: Link, im: IopMemory, tail: seq<Packet>)
    requires |l.pipe.inbox| == 16
    ensures
      var rest := l.pipe.fifo + l.pipe.outbox + IopToSend(l.iop, im, tail);
      && Future(l, im, tail) == l.pipe.inbox + rest
      && ParseQwords(Future(l, im, tail)) == [QwordOf(l.pipe.inbox)] + ParseQwords(rest)
  {
    Regroup(l.pipe.inbox, l.pipe.fifo, l.pipe.outbox, IopToSend(l.iop, im, tail));
    HeadParses(l.pipe.inbox, l.pipe.fifo + l.pipe.outbox + IopToSend(l.iop, im, tail));
  }

  /** The EE channel's effect when it reads a quadword of data. */
  lemma EeDataEffect(l: Link, q: Qword)
    requires EeOk(l) && l.ee.str && l.ee.started && l.ee.qwc > 0 && EeInput(l) == Some(q)
    ensures
      var e := EeEffect(l);
      && !e.outcome.Threw? && e.regs.cis == l.regs.cis
      && e.ch == l.ee.(madr := Wrap(l.ee.madr + 16), qwc := l.ee.qwc - 1)
      && e.mem == l.mem[BusAddress(DataAddress(l.ee.madr), SprOf(l.ee.madr)) := q]
  {
  }

  /** The EE channel's effect when it reads a tag. */
  lemma EeTagEffect(l: Link, q: Qword)
    requires EeOk(l) && l.ee.str && EeReads(l.ee) && l.ee.qwc == 0 && EeInput(l) == Some(q)
    ensures
      var (e, t) := (EeEffect(l), TagOf(q));
      && e.regs.cis == l.regs.cis && e.mem == l.mem
      && (e.outcome.Threw? <==> t.Id() !in {0, 1, 7})
      && (!e.outcome.Threw? ==>
        && e.ch.madr == MakeAddr(t.Addr(), t.Spr()) && e.ch.qwc == t.Qwc() && EeLast(e.ch) == Ends(t, l.ee.tie)
        && e.ch.tie == l.ee.tie && !e.ch.tte && e.ch.started && e.ch.str
        && e.ch.id == l.ee.id && e.ch.direction == l.ee.direction)
  {
  }

  /** A step that reads nothing: starting, or suspending at the end. */
  lemma EeOtherEffect(l: Link)
    requires EeOk(l) && l.ee.str && !EeReads(l.ee)
    ensures
      var e := EeEffect(l);
      && !e.outcome.Threw? && e.mem == l.mem
      && e.ch == (if l.ee.started then l.ee.(str := false) else l.ee.(started := true))
      && e.regs.cis == (if l.ee.started then l.regs.cis + {SIF0_ID} else l.regs.cis)
  {
  }

  lemma FutureAfterTake(l: Link, l': Link, im: IopMemory, tail: seq<Packet>)
    requires |l.pipe.inbox| == 16 && l'.pipe == l.pipe.(inbox := []) && l'.iop == l.iop
    ensures ParseQwords(Future(l, im, tail)) == [QwordOf(l.pipe.inbox)] + ParseQwords(Future(l', im, tail))
    ensures ParseQwords(Future(l, im, tail))[1..] == ParseQwords(Future(l', im, tail))
    ensures |Future(l', im, tail)| == |Future(l, im, tail)| - 16
  {
    FutureHead(l, im, tail);
    assert [] + l.pipe.fifo == l.pipe.fifo;
    var (qs, q) := (ParseQwords(Future(l', im, tail)), QwordOf(l.pipe.inbox));
    assert ([q] + qs)[1..] == qs;
  }

  /** Taking the head of the future keeps the pipe and the channels sound. */
  lemma TakeKeepsOk(l: Link, l': Link)
    requires PipeOk(l) && IopOk(l) && |l.pipe.inbox| == 16 && l.pipe.wanted == 0
    requires l'.pipe == l.pipe.(inbox := []) && l'.iop == l.iop
    ensures PipeOk(l') && IopOk(l')
  {
  }

  lemma EeDataOk(l: Link, l': Link)
    requires EeOk(l) && EeTick(l, l') && EeReads(l.ee) && |l.pipe.inbox| == 16 && l.ee.qwc > 0
    ensures EeOk(l')
  {
    EeDataEffect(l, QwordOf(l.pipe.inbox));
  }

  lemma EeTagOk(l: Link, l': Link)
    requires EeOk(l) && EeTick(l, l') && EeReads(l.ee) && |l.pipe.inbox| == 16 && l.ee.qwc == 0
    ensures EeOk(l')
  {
    EeTagEffect(l, QwordOf(l.pipe.inbox));
  }

  /** The EE's run after it has read the first quadword to come: data, or a tag. */
  lemma EeDataRun(l: Link, l': Link, qs: seq<Qword>)
    requires EeOk(l) && EeTick(l, l') && EeReads(l.ee) && |l.pipe.inbox| == 16 && l.ee.qwc > 0
    requires qs != [] && qs[0] == QwordOf(l.pipe.inbox)
    ensures EeRunOn(l', qs[1..]) == EeRunOn(l, qs)
  {
    EeDataEffect(l, qs[0]);
  }

  lemma EeTagRun(l: Link, l': Link, qs: seq<Qword>)
    requires EeOk(l) && EeTick(l, l') && EeReads(l.ee) && |l.pipe.inbox| == 16 && l.ee.qwc == 0
    requires qs != [] && qs[0] == QwordOf(l.pipe.inbox) && EeRunOn(l, qs).Some?
    ensures EeRunOn(l', qs[1..]) == EeRunOn(l, qs)
  {
    EeTagEffect(l, qs[0]);
  }

  /** The EE's run over the future after it has read the future's head. */
  lemma EeReadRun(l: Link, l': Link, im: IopMemory, tail: seq<Packet>, final: Received)
    requires EeOk(l) && EeTick(l, l') && EeReads(l.ee) && |l.pipe.inbox| == 16
    requires EeRun(l, Future(l, im, tail)) == Some(final)
    ensures EeRun(l', Future(l', im, tail)) == Some(final) && EeOk(l')
  {
    var qs := ParseQwords(Future(l, im, tail));
    FutureAfterTake(l, l', im, tail);
    if l.ee.qwc > 0 {
      EeDataOk(l, l');
      EeDataRun(l, l', qs);
    } else {
      EeTagOk(l, l');
      EeTagRun(l, l', qs);
    }
  }

  lemma EeReadInv(im: IopMemory, l: Link, l': Link, n: nat, tail: seq<Packet>, final: Received)
    requires Inv(im, l, n, tail, final) && EeTick(l, l') && EeReads(l.ee)
    ensures Inv(im, l', n, tail, final)
  {
    FutureAfterTake(l, l', im, tail);
    EeReadRun(l, l', im, tail, final);
    TakeKeepsOk(l, l');
  }

  lemma EeOtherOk(l: Link, l': Link)
    requires PipeOk(l) && EeOk(l) && EeTick(l, l') && !EeReads(l.ee)
    ensures PipeOk(l') && EeOk(l') && l'.pipe == l.pipe && l'.iop == l.iop
    ensures l'.mem == l.mem && l'.headers == l.headers
    ensures l'.ee == if l.ee.started then l.ee.(str := false) else l.ee.(started := true)
  {
    EeOtherEffect(l);
    assert l.pipe.inbox == [];
  }

  lemma EeOtherInv(im: IopMemory, l: Link, l': Link, n: nat, tail: seq<Packet>, final: Received)
    requires Inv(im, l, n, tail, final) && EeTick(l, l') && !EeReads(l.ee)
    ensures Inv(im, l', n, tail, final)
  {
    EeOtherOk(l, l');
  }

  lemma MovesInv(im: IopMemory, l: Link, l': Link, n: nat, tail: seq<Packet>, final: Received)
    returns (n': nat, tail': seq<Packet>)
    requires Inv(im, l, n, tail, final) && Moves(im, l, l')
    ensures Inv(im, l', n', tail', final)
  {
    n', tail' := n, tail;
    if IopTick(im, l, l') {
      n', tail' := IopTickInv(im, l, l', n, tail, final);
    } else if EeTick(l, l') {
      if EeReads(l.ee) { EeReadInv(im, l, l', n, tail, final); } else { EeOtherInv(im, l, l', n, tail, final); }
    } else {
      ByteStepInv(im, l, l', n, tail, final);
    }
  }

  /** No step that is due throws: not the queue, not the IOP channel, not the EE channel. */
  ghost predicate DueStepsDoNotThrow(im: IopMemory, l: Link)
  {
    && (forall s :: Enabled(l.pipe, s) ==> Next(l.pipe, s).Some?)
    && (l.iop.start ==> !IopChainStep(l.iop, im, IopLook(l)).outcome.Threw?)
    && (l.ee.str && l.pipe.wanted == 0 && (EeReads(l.ee) <==> |l.pipe.inbox| == 16) ==> !EeEffect(l).outcome.Threw?)
  }

  lemma NothingThrows(im: IopMemory, l: Link, n: nat, tail: seq<Packet>, final: Received)
    requires Inv(im, l, n, tail, final)
    ensures DueStepsDoNotThrow(im, l)
  {
    forall s | Enabled(l.pipe, s) ensures Next(l.pipe, s).Some? { NeverThrows(l.pipe, s); }
    if l.iop.start {
      var n', tail' := IopStepSends(l.iop, im, IopLook(l), n, tail);
    }
    if l.ee.str && l.pipe.wanted == 0 && (EeReads(l.ee) <==> |l.pipe.inbox| == 16) {
      if EeReads(l.ee) {
        FutureHead(l, im, tail);
        if l.ee.qwc > 0 { EeDataEffect(l, QwordOf(l.pipe.inbox)); } else { EeTagEffect(l, QwordOf(l.pipe.inbox)); }
      } else {
        EeOtherEffect(l);
      }
    }
  }

  lemma {:induction false} RunInv(im: IopMemory, run: seq<Link>, n: nat, ps: seq<Packet>)
    returns (n': nat, tail': seq<Packet>)
    requires IsRun(im, run) && IopTagList(im, run[0].iop.tadr, run[0].iop.mas, run[0].iop.iqe, n) == Some(ps)
    requires WellFormed(ps, run[0].ee.tie)
    ensures Inv(im, run[|run| - 1], n', tail', Received(Deliver(run[0].mem, ps), Headers(ps)))
  {
    if |run| == 1 {
      n', tail' := n, ps;
      InitialInv(im, run[0], n, ps);
    } else {
      var before := run[..|run| - 1];
      n', tail' := RunInv(im, before, n, ps);
      n', tail' := MovesInv(im, before[|before| - 1], run[|run| - 1], n', tail',
                            Received(Deliver(run[0].mem, ps), Headers(ps)));
    }
  }

  /** The headers the EE has parsed are a prefix of the headers of the future they come from. */
  lemma {:induction false} DestRunHeaders(m: Memory, madr: uword, qwc: nat, last: bool, tie: bool, qs: seq<Qword>,
                                          headers: seq<Qword>)
    requires DestRun(m, madr, qwc, last, tie, qs, headers).Some?
    ensures headers <= DestRun(m, madr, qwc, last, tie, qs, headers).value.headers
    decreases |qs|
  {
    if qs == [] {
    } else {
      var t := TagOf(qs[0]);
      if qwc > 0 {
        DestRunHeaders(m[BusAddress(DataAddress(madr), SprOf(madr)) := qs[0]], Wrap(madr + 16), qwc - 1, last, tie,
                       qs[1..], headers);
      } else if !last {
        DestRunHeaders(m, MakeAddr(t.Addr(), t.Spr()), t.Qwc(), t.Id() == 7 || (tie && t.Irq()), tie, qs[1..],
                       headers + [qs[0]]);
      }
    }
  }

  /** End to end, under every interleaving: no step throws, the EE reads as tags only the IOP's
      packet headers, in order, and each side's completion flag is raised exactly when it has
      stopped. Once the EE has stopped, its memory is the initial memory with exactly the IOP's
      payloads stored at the tag addresses, in order, and nothing is left in the FIFO. */
  lemma LinkDelivers(im: IopMemory, run: seq<Link>, n: nat, ps: seq<Packet>)
    requires IsRun(im, run) && IopTagList(im, run[0].iop.tadr, run[0].iop.mas, run[0].iop.iqe, n) == Some(ps)
    requires WellFormed(ps, run[0].ee.tie)
    ensures
      var l := run[|run| - 1];
      && |l.pipe.fifo| <= CAPACITY
      && l.headers <= Headers(ps)
      && (l.iop.tci <==> !l.iop.start) && (SIF0_ID in l.regs.cis <==> !l.ee.str)
      && (!l.ee.str ==> l.mem == Deliver(run[0].mem, ps) && l.headers == Headers(ps) && l.pipe == EMPTY_PIPE)
      && DueStepsDoNotThrow(im, l)
  {
    var n', tail' := RunInv(im, run, n, ps);
    var l := run[|run| - 1];
    NothingThrows(im, l, n', tail', Received(Deliver(run[0].mem, ps), Headers(ps)));
    DestRunHeaders(l.mem, l.ee.madr, l.ee.qwc, EeLast(l.ee), l.ee.tie, ParseQwords(Future(l, im, tail')), l.headers);
    if !l.ee.str {
      assert |Future(l, im, tail')| == 0;
    }
  }

  // ---------------------------------------------------------------- progress

  /** Work left: every byte counts for the stages it has still to pass, plus starts and stops. */
  function Measure(l: Link, im: IopMemory, tail: seq<Packet>): nat
  {
    4 * |IopToSend(l.iop, im, tail)| + 3 * |l.pipe.outbox| + 2 * |l.pipe.fifo| + |l.pipe.inbox|
    + (if l.pipe.wanted + |l.pipe.inbox| == 0 then 1 else 0)
    + (if l.iop.start then if l.iop.started then 1 else 2 else 0)
    + (if l.ee.str then if l.ee.started then 1 else 2 else 0)
  }

  /** A step of the link itself that changes something. */
  predicate Productive(im: IopMemory, l: Link, l': Link)
  {
    l' != l && (IopTick(im, l, l') || EeBegin(l, l') || EeTick(l, l') || ByteStep(l, l'))
  }

  /** An IOP step that changes anything sends bytes, starts or stops. */
  lemma IopTickWorks(c: IopChannel, m: IopMemory, v: IopView)
    requires IopSender(c) && c.start
    ensures
      var e := IopChainStep(c, m, v);
      && (e.outcome.Stepped? ==> e.pushed != [] || (!c.started && e.ch.started) || !e.ch.start)
      && (e.outcome.Waiting? ==> e.pushed == [] && e.ch == c)
      && (e.ch.started || !c.started) && (c.started ==> e.ch.started)
  {
  }

  lemma IopTickDecreases(im: IopMemory, l: Link, l': Link, tail: seq<Packet>, tail': seq<Packet>)
    requires IopSender(l.iop) && IopTick(im, l, l') && l' != l
    requires |IopToSend(l.iop, im, tail)|
      == |IopChainStep(l.iop, im, IopLook(l)).pushed| + |IopToSend(l'.iop, im, tail')|
    ensures Measure(l', im, tail') < Measure(l, im, tail)
  {
    IopTickWorks(l.iop, im, IopLook(l));
    var e := IopChainStep(l.iop, im, IopLook(l));
    assert l'.pipe == l.pipe.(outbox := e.pushed);
  }

  lemma ByteStepDecreases(im: IopMemory, l: Link, l': Link, tail: seq<Packet>)
    requires PipeOk(l) && (ByteStep(l, l') || EeBegin(l, l')) && l' != l
    ensures Measure(l', im, tail) < Measure(l, im, tail)
  {
    if EeBegin(l, l') {
      assert l'.pipe == l.pipe.(wanted := 16);
    } else if Enabled(l.pipe, Push) && l' == l.(pipe := Next(l.pipe, Push).value) {
    }
  }

  lemma EeTickWorks(im: IopMemory, l: Link, l': Link, n: nat, tail: seq<Packet>, final: Received)
    requires Inv(im, l, n, tail, final) && EeTick(l, l')
    ensures Measure(l', im, tail) < Measure(l, im, tail)
  {
    if EeReads(l.ee) {
      var q := QwordOf(l.pipe.inbox);
      if l.ee.qwc > 0 { EeDataEffect(l, q); } else { EeTagEffect(l, q); }
    } else {
      EeOtherEffect(l);
    }
  }

  lemma ProductiveDecreases(im: IopMemory, l: Link, l': Link, n: nat, tail: seq<Packet>, final: Received)
    returns (n': nat, tail': seq<Packet>)
    requires Inv(im, l, n, tail, final) && Productive(im, l, l')
    ensures Inv(im, l', n', tail', final) && Measure(l', im, tail') < Measure(l, im, tail)
  {
    n', tail' := n, tail;
    if IopTick(im, l, l') {
      n', tail' := IopTickInv(im, l, l', n, tail, final);
      IopTickDecreases(im, l, l', tail, tail');
    } else if EeTick(l, l') {
      if EeReads(l.ee) { EeReadInv(im, l, l', n, tail, final); } else { EeOtherInv(im, l, l', n, tail, final); }
      EeTickWorks(im, l, l', n, tail, final);
    } else {
      ByteStepInv(im, l, l', n, tail, final);
      ByteStepDecreases(im, l, l', tail);
    }
  }

  lemma ByteMove(im: IopMemory, l: Link) returns (l': Link)
    requires l.pipe.outbox != [] || l.pipe.wanted > 0
    requires forall s :: Enabled(l.pipe, s) ==> Next(l.pipe, s).Some?
    ensures Productive(im, l, l')
  {
    var step := if l.pipe.outbox != [] then Push else Pop;
    assert Enabled(l.pipe, step);
    l' := l.(pipe := Next(l.pipe, step).value);
    assert ByteStep(l, l');
  }

  lemma BeginMove(im: IopMemory, l: Link) returns (l': Link)
    requires l.ee.str && EeReads(l.ee) && l.pipe.wanted == 0 && l.pipe.inbox == [] && |l.pipe.fifo| >= 16
    ensures Productive(im, l, l')
  {
    l' := l.(pipe := l.pipe.(wanted := 16));
    assert EeBegin(l, l');
  }

  lemma EeMove(l: Link) returns (l': Link)
    requires l.ee.str && l.pipe.wanted == 0 && (EeReads(l.ee) <==> |l.pipe.inbox| == 16) && !EeEffect(l).outcome.Threw?
    ensures EeTick(l, l')
    ensures l'.pipe.inbox == [] && l'.ee == EeEffect(l).ch
  {
    var e := EeEffect(l);
    l' := l.(ee := e.ch, regs := e.regs, mem := e.mem, pipe := Next(l.pipe, Take).value,
             headers := if EeReads(l.ee) && l.ee.qwc == 0 then l.headers + [QwordOf(l.pipe.inbox)] else l.headers);
  }

  /** An EE channel that waits for input has a non-empty future. */
  lemma EeNeedsFuture(l: Link, future: seq<ubyte>)
    requires EeReads(l.ee) && EeRun(l, future).Some?
    ensures |future| >= 16
  {
  }

  /** With the EE waiting for more, or stopped, the IOP has room, and is still running. */
  lemma FifoAlmostEmpty(im: IopMemory, l: Link, n: nat, tail: seq<Packet>, final: Received)
    requires Inv(im, l, n, tail, final) && (l.iop.start || l.ee.str)
    requires l.pipe.outbox == [] && l.pipe.inbox == [] && (l.ee.str ==> EeReads(l.ee) && |l.pipe.fifo| < 16)
    ensures l.iop.start && |l.pipe.fifo| < 16
    ensures l.iop.started && l.iop.length == 0 && IopLast(l.iop) ==> l.pipe.fifo == []
  {
    assert |Future(l, im, tail)| == |l.pipe.fifo| + |IopToSend(l.iop, im, tail)|;
    if !l.ee.str {
      assert ParseQwords(Future(l, im, tail)) == [];
    } else if !l.iop.start {
      EeNeedsFuture(l, Future(l, im, tail));
    }
  }

  /** With room for a quadword, and the FIFO empty if only stopping is left, the IOP steps. */
  lemma IopSteps(c: IopChannel, m: IopMemory, v: IopView)
    requires IopSender(c) && c.start && v.free >= 16 && (c.started && c.length == 0 && IopLast(c) ==> v.empty)
    ensures IopChainStep(c, m, v).outcome.Stepped?
  {
  }

  lemma IopMove(im: IopMemory, l: Link, n: nat, tail: seq<Packet>, final: Received) returns (l': Link)
    requires Inv(im, l, n, tail, final) && l.iop.start && |l.pipe.fifo| < 16 && l.pipe.outbox == []
    requires l.iop.started && l.iop.length == 0 && IopLast(l.iop) ==> l.pipe.fifo == []
    ensures IopTick(im, l, l') && l' != l
  {
    var n', tail' := IopStepSends(l.iop, im, IopLook(l), n, tail);
    var e := IopChainStep(l.iop, im, IopLook(l));
    l' := l.(iop := e.ch, pipe := l.pipe.(outbox := e.pushed));
    IopSteps(l.iop, im, IopLook(l));
    IopTickWorks(l.iop, im, IopLook(l));
  }

  /** In every state the invariant allows, unless both channels have stopped, some step of the link
      changes something: the two DMACs are never stuck waiting for each other. */
  lemma NeverStuck(im: IopMemory, l: Link, n: nat, tail: seq<Packet>, final: Received) returns (l': Link)
    requires Inv(im, l, n, tail, final) && (l.iop.start || l.ee.str)
    ensures Productive(im, l, l')
  {
    NothingThrows(im, l, n, tail, final);
    if l.pipe.outbox != [] || l.pipe.wanted > 0 {
      l' := ByteMove(im, l);
    } else if |l.pipe.inbox| == 16 {
      l' := EeMove(l);
    } else if l.ee.str && !EeReads(l.ee) {
      l' := EeMove(l);
      EeOtherEffect(l);
    } else if l.ee.str && |l.pipe.fifo| >= 16 {
      l' := BeginMove(im, l);
    } else {
      FifoAlmostEmpty(im, l, n, tail, final);
      l' := IopMove(im, l, n, tail, final);
    }
  }

  ghost predicate IsProductiveRun(im: IopMemory, run: seq<Link>)
  {
    |run| > 0 && Initial(run[0]) && forall i :: 0 <= i < |run| - 1 ==> Productive(im, run[i], run[i + 1])
  }

  lemma {:induction false} ProductiveRunBounded(im: IopMemory, run: seq<Link>, n: nat, ps: seq<Packet>)
    returns (n': nat, tail': seq<Packet>)
    requires IsProductiveRun(im, run) && WellFormed(ps, run[0].ee.tie)
    requires IopTagList(im, run[0].iop.tadr, run[0].iop.mas, run[0].iop.iqe, n) == Some(ps)
    ensures Inv(im, run[|run| - 1], n', tail', Received(Deliver(run[0].mem, ps), Headers(ps)))
    ensures Measure(run[|run| - 1], im, tail') + |run| - 1 <= Measure(run[0], im, ps)
  {
    if |run| == 1 {
      n', tail' := n, ps;
      InitialInv(im, run[0], n, ps);
    } else {
      var before := run[..|run| - 1];
      n', tail' := ProductiveRunBounded(im, before, n, ps);
      n', tail' := ProductiveDecreases(im, before[|before| - 1], run[|run| - 1], n', tail',
                                       Received(Deliver(run[0].mem, ps), Headers(ps)));
    }
  }

  /** Progress: a run in which every step changes something has bounded length, whatever the
      interleaving, and a run that cannot be continued has both channels stopped with everything
      delivered. */
  lemma LinkCompletes(im: IopMemory, run: seq<Link>, n: nat, ps: seq<Packet>)
    requires IsProductiveRun(im, run) && WellFormed(ps, run[0].ee.tie)
    requires IopTagList(im, run[0].iop.tadr, run[0].iop.mas, run[0].iop.iqe, n) == Some(ps)
    ensures |run| <= 4 * |PacketStream(ps)| + 6
    ensures
      var l := run[|run| - 1];
      (forall l' :: !Productive(im, l, l')) ==>
        !l.iop.start && !l.ee.str && l.iop.tci && SIF0_ID in l.regs.cis
        && l.mem == Deliver(run[0].mem, ps) && l.headers == Headers(ps) && l.pipe.fifo == []
  {
    var n', tail' := ProductiveRunBounded(im, run, n, ps);
    var l := run[|run| - 1];
    var final := Received(Deliver(run[0].mem, ps), Headers(ps));
    assert |IopToSend(run[0].iop, im, ps)| == |PacketStream(ps)|;
    if l.iop.start || l.ee.str {
      var l' := NeverStuck(im, l, n', tail', final);
    } else {
      assert |Future(l, im, tail')| == |l.pipe.Contents()|;
      assert ParseQwords(Future(l, im, tail')) == [];
    }
  }
}
