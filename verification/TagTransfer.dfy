/** The tags that cross the SIF links: which bytes of a tag in memory are sent, and what the other
    side reads in them, by the bit fields of the words in memory. */
module TagTransfer {
  import opened Wrappers
  import opened Words
  import opened Bits
  import opened BitfieldModel
  import opened EeDmacSpec
  import opened IopDmacSpec
  import ST = SourceTransfer

  const NO_BYTES: seq<ubyte> := [0, 0, 0, 0, 0, 0, 0, 0]

  // ---------------------------------------------------------------- what is sent

  lemma ZeroBytes()
    ensures WordBytes(0) + WordBytes(0) == NO_BYTES
  {
  }

  lemma UpperBytes(q: Qword)
    ensures QwordBytes(q)[8..16] == WordBytes(q.uw2) + WordBytes(q.uw3)
  {
  }

  lemma LowerBytes(a: uword, b: uword)
    ensures QwordBytes(Qword(a, b, 0, 0)) == (WordBytes(a) + WordBytes(b)) + NO_BYTES
  {
    ZeroBytes();
  }

  /** A tag step of a sending channel. */
  predicate ReadsTag(c: Channel)
  {
    c.started && c.qwc == 0 && c.direction.To? && !(c.tagExit || (c.tie && c.tagIrq))
  }

  /** With tag transfer on and room in the FIFO, the EE sends bytes 8 to 15 of the tag at TADR, and
      eight zero bytes. */
  lemma EeSendsUpperHalf(r: Registers, c: Channel, m: Memory, v: FifoView, q: Qword)
    requires ReadsTag(c) && c.tte && v.free >= 16
    requires q == ReadMem(m, BusAddress(AddrOf(c.tadr), SprOf(c.tadr)))
    ensures QwordStream(ChainStep(r, c, m, v).pushed) == QwordBytes(q)[8..16] + NO_BYTES
  {
    var sent := Qword(q.uw2, q.uw3, 0, 0);
    assert ChainStep(r, c, m, v) == SourceTagStep(r, c, m, v);
    assert ChainStep(r, c, m, v).pushed == [sent];
    assert [sent][1..] == [] && QwordStream([]) == [];
    UpperBytes(q);
    LowerBytes(q.uw2, q.uw3);
  }

  predicate IopReadsTag(c: IopChannel)
  {
    c.started && c.length == 0 && c.direction.To? && !((c.iqe && c.dmaTag.Irq()) || c.dmaTag.Ert())
  }

  lemma WordsAt(tadr: uword)
    ensures Wrap(tadr + 4) == (tadr + 4) % 0x1_0000_0000 && Wrap(tadr + 8) == (tadr + 8) % 0x1_0000_0000
    ensures Wrap(tadr + 12) == (tadr + 12) % 0x1_0000_0000 && Wrap(tadr + 16) == (tadr + 16) % 0x1_0000_0000
  {
  }

  lemma IopTagSent(c: IopChannel, m: IopMemory, v: IopView, q: Qword)
    requires IopReadsTag(c) && c.ce && v.free >= 16 && q == ReadTag(m, c.tadr)
    ensures
      var (e, t) := (IopChainStep(c, m, v), IopDmatag(q.uw0, q.uw1));
      && e.pushed == QwordBytes(Qword(q.uw2, q.uw3, 0, 0))
      && e.ch == c.(dmaTag := t, length := RoundedLength(t.Length()), madr := t.Addr(), tadr := Wrap(c.tadr + 16))
  {
    assert IopChainStep(c, m, v) == IopSourceTag(c, m, v);
  }

  /** The four words of a tag. */
  function TagWords(m: IopMemory, tadr: uword): (uword, uword, uword, uword)
  {
    (ReadWord(m, tadr), ReadWord(m, (tadr + 4) % 0x1_0000_0000), ReadWord(m, (tadr + 8) % 0x1_0000_0000),
     ReadWord(m, (tadr + 12) % 0x1_0000_0000))
  }

  lemma TagIsWords(m: IopMemory, tadr: uword)
    ensures
      var (w0, w1, w2, w3) := TagWords(m, tadr);
      ReadTag(m, tadr) == Qword(w0, w1, w2, w3)
  {
    WordsAt(tadr);
  }

  /** With room in the FIFO, the IOP sends the words at TADR + 8 and TADR + 12, and eight zero bytes;
      it takes the address and the length of its own transfer from the words at TADR and TADR + 4. */
  lemma IopSendsUpperHalf(c: IopChannel, m: IopMemory, v: IopView)
    requires IopReadsTag(c) && c.ce && v.free >= 16
    ensures
      var (e, (w0, w1, w2, w3)) := (IopChainStep(c, m, v), TagWords(m, c.tadr));
      && e.pushed == (WordBytes(w2) + WordBytes(w3)) + NO_BYTES
      && e.ch.madr == Bitfield(0, 24).ExtractFrom(w0)
      && e.ch.length == And(Bitfield(0, 24).ExtractFrom(w1) + 3, 0xF_FFFC)
      && e.ch.tadr == (c.tadr + 16) % 0x1_0000_0000 && e.ch.dmaTag == IopDmatag(w0, w1)
  {
    var q := ReadTag(m, c.tadr);
    TagIsWords(m, c.tadr);
    WordsAt(c.tadr);
    IopTagSent(c, m, v, q);
    LowerBytes(q.uw2, q.uw3);
    IopTagFieldsAreBitfields(IopDmatag(q.uw0, q.uw1));
    LengthMask(Bitfield(0, 24).ExtractFrom(q.uw1));
  }

  // ---------------------------------------------------------------- what is received

  /** The quadword that arrives when these eight bytes and eight zeros have been sent. */
  lemma Arrives(a: uword, b: uword)
    ensures QwordOf((WordBytes(a) + WordBytes(b)) + NO_BYTES) == Qword(a, b, 0, 0)
  {
    LowerBytes(a, b);
    QwordRoundTrip(Qword(a, b, 0, 0));
  }

  /** An EE channel that receives a tag. */
  predicate AwaitsTag(c: Channel)
  {
    c.started && c.qwc == 0 && c.direction.From? && !(c.tagExit || (c.tie && c.tagIrq))
  }

  lemma DestTagFields(c: Channel)
    ensures
      var (d, t) := (LatchTag(DestTag(c)), c.dmaTag);
      && d.qwc == t.Qwc() && d.tag == t.Tag() && d.tagIrq == t.Irq() && AddrOf(d.madr) == t.Addr()
      && SprOf(d.madr) == t.Spr() && d.tagStall == (c.tagStall || t.Id() == 0) && d.tagExit == (c.tagExit || t.Id() == 7)
  {
  }

  /** What the EE sets up from a tag that arrives. */
  predicate TagTaken(c: Channel, t: Dmatag, e: Effect)
  {
    && e.consumed && (e.outcome.Threw? <==> c.tte || (t.Id() != 0 && t.Id() != 1 && t.Id() != 7))
    && (!e.outcome.Threw? ==>
          && e.ch.qwc == t.Qwc() && e.ch.tag == t.Tag() && e.ch.tagIrq == t.Irq()
          && AddrOf(e.ch.madr) == t.Addr() && SprOf(e.ch.madr) == t.Spr()
          && e.ch.tagStall == (c.tagStall || t.Id() == 0) && e.ch.tagExit == (c.tagExit || t.Id() == 7))
  }

  lemma EeTakesTag(r: Registers, c: Channel, m: Memory, v: FifoView, q: Qword)
    requires AwaitsTag(c) && v.input == Some(q)
    ensures TagTaken(c, TagOf(q), ChainStep(r, c, m, v))
  {
    DestTagFields(c.(dmaTag := TagOf(q)));
    assert ChainStep(r, c, m, v) == DestTagStep(r, c, m, v);
  }

  /** SIF0: from the bytes of the words a and b the EE takes QWC, id, IRQ bit and upper half of a, and
      address and scratchpad flag of b. CNTS, CNT and END are 0, 1 and 7; other tags throw, and so does
      every tag with tag transfer on. */
  lemma EeReceives(r: Registers, c: Channel, m: Memory, v: FifoView, a: uword, b: uword)
    requires AwaitsTag(c) && v.input == Some(QwordOf((WordBytes(a) + WordBytes(b)) + NO_BYTES))
    ensures
      var e := ChainStep(r, c, m, v);
      var id := Bitfield(28, 3).ExtractFrom(a);
      && e.consumed && (e.outcome.Threw? <==> c.tte || (id != 0 && id != 1 && id != 7))
      && (!e.outcome.Threw? ==>
            && e.ch.qwc == Bitfield(0, 16).ExtractFrom(a) && e.ch.tag == Bitfield(16, 16).ExtractFrom(a)
            && (e.ch.tagIrq <==> Bitfield(31, 1).ExtractFrom(a) == 1)
            && AddrOf(e.ch.madr) == Bitfield(0, 31).ExtractFrom(b)
            && (SprOf(e.ch.madr) <==> Bitfield(31, 1).ExtractFrom(b) == 1)
            && e.ch.tagStall == (c.tagStall || id == 0) && e.ch.tagExit == (c.tagExit || id == 7))
  {
    Arrives(a, b);
    EeTakesTag(r, c, m, v, Qword(a, b, 0, 0));
    TagFieldsAreBitfields(Dmatag(a, b));
  }

  /** A tag stops the IOP channel by bit 31, or by bit 30 with its interrupt enable. */
  lemma StopBits(t: IopDmatag, iqe: bool)
    ensures Stops(t, iqe) <==>
      Bitfield(31, 1).ExtractFrom(t.tag0) == 1 || (iqe && Bitfield(30, 1).ExtractFrom(t.tag0) == 1)
  {
    IopTagFieldsAreBitfields(t);
  }

  lemma IopStops(c: IopChannel, m: IopMemory, v: IopView, stops: bool)
    requires c.start && c.started && c.length == 0 && stops == Stops(c.dmaTag, c.iqe)
    ensures
      var e := IopChainStep(c, m, v);
      && e.ch.start == !(stops && (c.direction.To? ==> v.empty))
      && e.ch.tci == (c.tci || (stops && (c.direction.To? ==> v.empty)))
  {
  }

  /** SIF1: from the bytes of the words a and b the IOP takes the address from a and the length from b;
      it stops after the data exactly if bit 31 of a is set, or bit 30 and the channel's interrupt
      enable. */
  lemma IopReceives(c: IopChannel, m: IopMemory, v: IopView, a: uword, b: uword)
    requires c.started && c.length == 0 && c.direction.From? && !((c.iqe && c.dmaTag.Irq()) || c.dmaTag.Ert())
    requires c.ce && v.qword == Some(QwordOf((WordBytes(a) + WordBytes(b)) + NO_BYTES))
    ensures
      var e := IopChainStep(c, m, v);
      && e.outcome.Stepped? && e.consumed == 16
      && e.ch.madr == Bitfield(0, 24).ExtractFrom(a) && e.ch.length == Bitfield(0, 24).ExtractFrom(b)
      && (Stops(e.ch.dmaTag, c.iqe) <==>
            Bitfield(31, 1).ExtractFrom(a) == 1 || (c.iqe && Bitfield(30, 1).ExtractFrom(a) == 1))
  {
    Arrives(a, b);
    IopTagFieldsAreBitfields(IopDmatag(a, b));
    StopBits(IopDmatag(a, b), c.iqe);
    assert IopChainStep(c, m, v) == IopDestTag(c, m, v);
  }

  /** Without data left, an IOP channel in chain mode stops exactly if the last tag had bit 31 set, or
      bit 30 with the channel's interrupt enable; a sender only on an empty FIFO. */
  lemma IopStopsExactly(c: IopChannel, m: IopMemory, v: IopView)
    requires c.start && c.started && c.length == 0
    ensures
      var e := IopChainStep(c, m, v);
      var t := c.dmaTag.tag0;
      var stops := Bitfield(31, 1).ExtractFrom(t) == 1 || (c.iqe && Bitfield(30, 1).ExtractFrom(t) == 1);
      && e.ch.start == !(stops && (c.direction.To? ==> v.empty))
      && e.ch.tci == (c.tci || (stops && (c.direction.To? ==> v.empty)))
  {
    StopBits(c.dmaTag, c.iqe);
    IopStops(c, m, v, Stops(c.dmaTag, c.iqe));
  }

  // ---------------------------------------------------------------- waiting and throwing

  /** An EE channel waits for a tag to arrive, or for room to transfer one, and changes nothing. */
  lemma EeTagWaits(r: Registers, c: Channel, m: Memory, v: FifoView)
    requires (AwaitsTag(c) && v.input.None?) || (ReadsTag(c) && c.tte && v.free < 16)
    ensures ChainStep(r, c, m, v) == Effect(r, c, m, [], false, Waiting)
  {
  }

  /** So does an IOP channel; but with tag transfer off it throws at every tag, a sender without looking
      at the FIFO, having set up the length and, sending, TADR. */
  lemma IopTagWaits(c: IopChannel, m: IopMemory, v: IopView)
    requires c.started && c.length == 0 && !((c.iqe && c.dmaTag.Irq()) || c.dmaTag.Ert())
    ensures
      var e := IopChainStep(c, m, v);
      && e.mem == m
      && (e.outcome.Threw? <==> !c.ce && (c.direction.To? || v.qword.Some?))
      && (e.outcome.Waiting? <==> if c.direction.To? then c.ce && v.free < 16 else v.qword.None?)
      && (e.outcome.Waiting? ==> e.ch == c && e.pushed == [] && e.consumed == 0)
      && (e.outcome.Threw? ==> e.ch.madr == c.madr && e.pushed == []
                               && e.ch.tadr == if c.direction.To? then Wrap(c.tadr + 16) else c.tadr)
  {
  }

  // ---------------------------------------------------------------- across the links

  /** A tag crosses SIF0: what the EE sets up from what the IOP sent is given by the words at TADR + 8
      and TADR + 12 of IOP memory. */
  lemma TagCrossesSif0(i: IopChannel, im: IopMemory, iv: IopView, r: Registers, c: Channel, m: Memory, v: FifoView)
    requires IopReadsTag(i) && i.ce && iv.free >= 16 && AwaitsTag(c) && !c.tte
    requires |IopChainStep(i, im, iv).pushed| == 16 && v.input == Some(QwordOf(IopChainStep(i, im, iv).pushed))
    ensures
      var e := ChainStep(r, c, m, v);
      var (_, _, w2, w3) := TagWords(im, i.tadr);
      var id := Bitfield(28, 3).ExtractFrom(w2);
      && (e.outcome.Threw? <==> id != 0 && id != 1 && id != 7)
      && (!e.outcome.Threw? ==>
            && e.ch.qwc == Bitfield(0, 16).ExtractFrom(w2) && AddrOf(e.ch.madr) == Bitfield(0, 31).ExtractFrom(w3)
            && (SprOf(e.ch.madr) <==> Bitfield(31, 1).ExtractFrom(w3) == 1)
            && (e.ch.tagIrq <==> Bitfield(31, 1).ExtractFrom(w2) == 1) && e.ch.tagExit == (c.tagExit || id == 7))
  {
    IopSendsUpperHalf(i, im, iv);
    var (_, _, w2, w3) := TagWords(im, i.tadr);
    EeReceives(r, c, m, v, w2, w3);
  }

  /** A tag crosses SIF1: what the IOP sets up from what the EE sent is given by the upper half of the
      tag at TADR of EE memory. */
  lemma TagCrossesSif1(r: Registers, c: Channel, m: Memory, v: FifoView, q: Qword, i: IopChannel, im: IopMemory, iv: IopView)
    requires ReadsTag(c) && c.tte && v.free >= 16 && q == ReadMem(m, BusAddress(AddrOf(c.tadr), SprOf(c.tadr)))
    requires i.started && i.length == 0 && i.direction.From? && i.ce && !((i.iqe && i.dmaTag.Irq()) || i.dmaTag.Ert())
    requires |QwordStream(ChainStep(r, c, m, v).pushed)| == 16
    requires iv.qword == Some(QwordOf(QwordStream(ChainStep(r, c, m, v).pushed)))
    ensures
      var e := IopChainStep(i, im, iv);
      && e.ch.madr == Bitfield(0, 24).ExtractFrom(q.uw2) && e.ch.length == Bitfield(0, 24).ExtractFrom(q.uw3)
      && (Stops(e.ch.dmaTag, i.iqe) <==>
            Bitfield(31, 1).ExtractFrom(q.uw2) == 1 || (i.iqe && Bitfield(30, 1).ExtractFrom(q.uw2) == 1))
  {
    EeSendsUpperHalf(r, c, m, v, q);
    UpperBytes(q);
    IopReceives(i, im, iv, q.uw2, q.uw3);
  }
}
