/** Stall control: a source channel that writes memory and a drain channel that reads it back,
    synchronised only by the source's progress in D_STADR. */
module StallControl {
  import opened Wrappers
  import opened Words
  import opened Bits
  import opened EeDmacSpec
  import ST = SourceTransfer

  /** The two channels, each in normal or in chain mode, the shared registers and memory, the
      quadwords the source has stored and the data the drain has sent on. */
  datatype Pair = Pair(regs: Registers, source: Channel, sourceChain: bool, drain: Channel, drainChain: bool,
                       mem: Memory, written: seq<Qword>, sent: seq<Qword>)

  function SourceResult(p: Pair, v: FifoView): Effect { ST.Step(p.regs, p.source, p.mem, v, p.sourceChain) }

  function DrainResult(p: Pair, v: FifoView): Effect { ST.Step(p.regs, p.drain, p.mem, v, p.drainChain) }

  /** The quadword a source step stores, if it stores one. */
  function Stored(p: Pair, v: FifoView): seq<Qword>
  {
    if p.source.qwc == 0 || SourceResult(p, v).ch.qwc == p.source.qwc then []
    else if p.source.id == 8 then [ReadMem(p.mem, BusAddress(SprAddress(p.source.sadr), true))]
    else if v.input.Some? then [v.input.value] else []
  }

  /** The quadword of data a drain step sends, if it sends one; a transferred tag is not data. */
  function Sends(p: Pair, v: FifoView): seq<Qword>
  {
    if p.drain.qwc == 0 then [] else DrainResult(p, v).pushed
  }

  predicate SourceStep(p: Pair, p': Pair, v: FifoView)
  {
    var e := SourceResult(p, v);
    p.source.str && !e.outcome.Threw?
    && p' == p.(regs := e.regs, source := e.ch, mem := e.mem, written := p.written + Stored(p, v))
  }

  predicate DrainStep(p: Pair, p': Pair, v: FifoView)
  {
    var e := DrainResult(p, v);
    p.drain.str && !e.outcome.Threw?
    && p' == p.(regs := e.regs, drain := e.ch, mem := e.mem, sent := p.sent + Sends(p, v))
  }

  /** An area of n quadwords from an aligned base, and the offsets of the two channels' addresses
      within a quadword: the transfers mask them off, but the stall comparison does not. */
  datatype Area = Area(base: uword, n: nat, source: nat, drain: nat) {

    /** The area does not run over the 31-bit address or lap the masked address space. */
    predicate Ok()
    {
      && base % 16 == 0 && AddrOf(base) + 16 * n < 0x8000_0000 && 16 * n <= 0x2000_0000
      && source < 16 && drain < 16
    }

    /** The drain waits when it has caught up. Equal offsets, aligned or not, meet this. */
    predicate Safe() { source < drain + 8 }

    /** The drain does not wait when it is behind. */
    predicate Live() { drain <= source + 8 }
  }

  /** The bus address of the i-th quadword of the area. */
  function Cell(w: Area, i: nat): nat
  {
    BusAddress((AddrOf(w.base) + 16 * i) % 0x2000_0000 / 16 * 16, SprOf(w.base))
  }

  /** Other activity: memory outside the area, and status bits. */
  predicate Interfere(p: Pair, p': Pair, w: Area)
  {
    && p' == p.(regs := p'.regs, mem := p'.mem)
    && p'.regs == p.regs.(cis := p'.regs.cis, sis := p'.regs.sis)
    && forall i :: 0 <= i < w.n ==> ReadMem(p'.mem, Cell(w, i)) == ReadMem(p.mem, Cell(w, i))
  }

  /** The source's data goes where the area goes on. In chain mode it is that of a stall tag, and
      the area may be made up of the data of many tags. */
  predicate SourceFits(p: Pair, w: Area)
  {
    && |p.written| + p.source.qwc <= w.n && (!p.sourceChain ==> |p.written| + p.source.qwc == w.n)
    && (p.source.qwc > 0 || !p.sourceChain ==> p.source.madr == w.base + w.source + 16 * |p.written|)
    && (p.source.qwc > 0 && p.sourceChain ==> p.source.tagStall)
  }

  /** The drain's data comes from where it goes on, under a stall tag in chain mode. */
  predicate DrainFits(p: Pair, w: Area)
  {
    && (p.drain.qwc > 0 || !p.drainChain ==> p.drain.madr == w.base + w.drain + 16 * |p.sent|)
    && (p.drain.qwc > 0 && p.drainChain ==> p.drain.tagStall)
  }

  /** A step of either channel, where a tag that it reads, if it brings data, fits; or other activity. */
  predicate Moves(p: Pair, p': Pair, w: Area, v: FifoView)
  {
    || (SourceStep(p, p', v) && (p.source.qwc == 0 ==> SourceFits(p', w)))
    || (DrainStep(p, p', v) && (p.drain.qwc == 0 ==> DrainFits(p', w)))
    || Interfere(p, p', w)
  }

  /** A channel that D_CTRL.STS selects; channel 8 has no FIFO to read tags from. */
  predicate SourceSelected(r: Registers, c: Channel, chain: bool, w: Area)
  {
    && 0 < r.sts < 4 && c.id == STS_MAP[r.sts] && c.direction.From?
    && (c.id == 8 ==> !SprOf(w.base) && !chain)
  }

  predicate DrainSelected(r: Registers, c: Channel)
  {
    0 < r.std < 4 && c.id == STD_MAP[r.std] && c.direction.To?
  }

  /** The channels selected by D_CTRL.STS and STD, with D_STADR and their data at the start of the
      area, or, in chain mode, with no data yet. */
  predicate Initial(p: Pair, w: Area)
  {
    && w.Ok() && SourceSelected(p.regs, p.source, p.sourceChain, w) && DrainSelected(p.regs, p.drain)
    && SourceFits(p, w) && DrainFits(p, w)
    && p.regs.stadr == AddrOf(w.base) + w.source && p.written == [] && p.sent == []
  }

  predicate SourceOk(p: Pair, w: Area)
  {
    && w.Ok() && SourceSelected(p.regs, p.source, p.sourceChain, w) && SourceFits(p, w)
    && p.regs.stadr == AddrOf(w.base) + w.source + 16 * |p.written|
  }

  predicate DrainOk(p: Pair, w: Area)
  {
    DrainSelected(p.regs, p.drain) && DrainFits(p, w) && p.sent <= p.written
  }

  ghost predicate AreaHolds(p: Pair, w: Area)
  {
    forall i :: 0 <= i < |p.written| ==> ReadMem(p.mem, Cell(w, i)) == p.written[i]
  }

  ghost predicate Inv(p: Pair, w: Area)
  {
    SourceOk(p, w) && DrainOk(p, w) && AreaHolds(p, w) && w.Safe()
  }

  lemma SameQword(a: nat, offset: nat)
    requires a % 16 == 0 && offset < 16
    ensures (a + offset) % 0x2000_0000 / 16 * 16 == a % 0x2000_0000 / 16 * 16
  {
    var (q, r) := (a / 0x2000_0000, a % 0x2000_0000);
    var k := r / 16;
    assert r == 16 * k;
    DivModUnique(a + offset, 0x2000_0000, q, r + offset);
    assert (r + offset) / 16 == k;
  }

  lemma CellOfMadr(w: Area, i: nat, offset: nat)
    requires w.Ok() && i <= w.n && offset < 16
    ensures w.base + offset + 16 * i < 0x1_0000_0000
    ensures
      var madr: uword := w.base + offset + 16 * i;
      && BusAddress(DataAddress(madr), SprOf(madr)) == Cell(w, i)
      && AddrOf(madr) == AddrOf(w.base) + offset + 16 * i && SprOf(madr) == SprOf(w.base)
  {
    SameQword(AddrOf(w.base) + 16 * i, offset);
  }

  lemma QwordAddress(k: nat)
    ensures (16 * k) % 0x2000_0000 / 16 * 16 == 16 * (k % 0x200_0000)
  {
  }

  lemma Apart(x: nat, y: nat)
    requires x != y && x < y + 0x200_0000 && y < x + 0x200_0000
    ensures x % 0x200_0000 != y % 0x200_0000
  {
  }

  lemma CellsDiffer(w: Area, i: nat, j: nat)
    requires w.Ok() && i < w.n && j < w.n && i != j
    ensures Cell(w, i) != Cell(w, j)
  {
    var k := AddrOf(w.base) / 16;
    assert AddrOf(w.base) == 16 * k;
    QwordAddress(k + i);
    QwordAddress(k + j);
    Apart(k + i, k + j);
  }

  predicate SameSource(p: Pair, e: Effect)
  {
    && e.regs.sts == p.regs.sts && e.regs.std == p.regs.std
    && e.ch.id == p.source.id && e.ch.direction == p.source.direction
  }

  predicate Publishes(p: Pair, e: Effect, qs: seq<Qword>, w: Area)
  {
    && SameSource(p, e) && |qs| == 1 && |p.written| < w.n
    && e.mem == p.mem[Cell(w, |p.written|) := qs[0]]
    && e.ch.qwc == p.source.qwc - 1 && e.ch.madr == w.base + w.source + 16 * (|p.written| + 1)
    && e.ch.tagStall == p.source.tagStall
    && e.regs.stadr == AddrOf(w.base) + w.source + 16 * (|p.written| + 1)
  }

  /** Nothing is stored; only a step without data, in chain mode, may set up a transfer. */
  predicate Idles(p: Pair, e: Effect)
  {
    && SameSource(p, e) && e.mem == p.mem && e.regs.stadr == p.regs.stadr
    && (p.source.qwc > 0 || !p.sourceChain ==>
          e.ch.qwc == p.source.qwc && e.ch.madr == p.source.madr && e.ch.tagStall == p.source.tagStall)
  }

  /** Nothing but the status of the channel and its interrupt bit differs. */
  predicate StatusOnly(r: Registers, c: Channel, m: Memory, e: Effect)
  {
    e.regs == r.(cis := e.regs.cis) && e.mem == m && e.ch == c.(started := e.ch.started, str := e.ch.str)
  }

  lemma Statuses(r: Registers, c: Channel, m: Memory)
    ensures StatusOnly(r, c, m, Unchanged(r, c, m, Threw)) && StatusOnly(r, c, m, Unchanged(r, c, m, Waiting))
    ensures StatusOnly(r, c, m, Unchanged(r, c.(started := true), m, Stepped))
    ensures StatusOnly(r, c, m, Suspend(r, c, m))
  {
  }

  /** A destination tag changes registers of the channel only. */
  lemma DestTagOnly(r: Registers, c: Channel, m: Memory, v: FifoView)
    ensures
      var e := DestTagStep(r, c, m, v);
      e.regs == r && e.mem == m && e.ch.id == c.id && e.ch.direction == c.direction
  {
  }

  lemma SourceStatus(r: Registers, c: Channel, m: Memory, v: FifoView)
    requires !c.started || c.qwc == 0
    ensures StatusOnly(r, c, m, NormalStep(r, c, m, v))
    ensures
      var e := ChainStep(r, c, m, v);
      StatusOnly(r, c, m, e) || (c.direction.From? ==> c.qwc == 0 && e == DestTagStep(r, c, m, v))
  {
    Statuses(r, c, m);
    var e := NormalStep(r, c, m, v);
    assert e == Unchanged(r, c, m, Threw) || e == Unchanged(r, c, m, Waiting) || e == Suspend(r, c, m)
        || e == Unchanged(r, c.(started := true), m, Stepped);
    var d := ChainStep(r, c, m, v);
    assert d == Unchanged(r, c, m, Waiting) || d == Suspend(r, c, m) || d == Unchanged(r, c.(started := true), m, Stepped)
        || (c.direction.From? ==> c.qwc == 0 && d == DestTagStep(r, c, m, v));
  }

  /** The quadword that a source stores. */
  function SourceQword(c: Channel, m: Memory, v: FifoView): Option<Qword>
  {
    if c.id == 8 then Some(ReadMem(m, BusAddress(SprAddress(c.sadr), true))) else v.input
  }

  lemma SourceData(r: Registers, c: Channel, m: Memory, v: FifoView)
    requires 0 < r.sts < 4 && c.id == STS_MAP[r.sts] && c.direction.From? && (c.id == 8 ==> !SprOf(c.madr))
    requires c.qwc > 0
    ensures
      var (e, q) := (DataStep(r, c, m, v, true), SourceQword(c, m, v));
      && e.ch.id == c.id && e.ch.direction == c.direction && e.ch.tagStall == c.tagStall
      && if q.None? then e.ch == c && e.mem == m && e.regs == r
         else && e.ch.madr == Wrap(c.madr + 16) && e.ch.qwc == c.qwc - 1
              && e.mem == m[BusAddress(DataAddress(c.madr), SprOf(c.madr)) := q.value]
              && e.regs == r.(stadr := AddrOf(e.ch.madr))
  {
    var t := TransferData(r, c, m, v);
    assert DataStep(r, c, m, v, true) == if t.outcome.Stepped? then UpdateStadr(t) else t;
    if c.id == 8 {
      assert t == ScratchpadTransfer(r, c, m);
    } else {
      assert t == FifoTransfer(r, c, m, v);
    }
  }

  lemma SourceIdles(p: Pair, v: FifoView, w: Area)
    requires SourceOk(p, w) && (!p.source.started || p.source.qwc == 0)
    ensures Stored(p, v) == [] && Idles(p, SourceResult(p, v))
  {
    SourceStatus(p.regs, p.source, p.mem, v);
    DestTagOnly(p.regs, p.source, p.mem, v);
  }

  lemma SourceMoves(p: Pair, v: FifoView, w: Area, e: Effect)
    requires SourceOk(p, w) && p.source.started && p.source.qwc > 0 && e == DataStep(p.regs, p.source, p.mem, v, true)
    ensures
      var q := SourceQword(p.source, p.mem, v);
      if q.None? then Idles(p, e) else Publishes(p, e, [q.value], w)
  {
    CellOfMadr(w, |p.written|, w.source);
    CellOfMadr(w, |p.written| + 1, w.source);
    SourceData(p.regs, p.source, p.mem, v);
  }

  lemma SourceStores(p: Pair, v: FifoView)
    requires p.source.started && p.source.qwc > 0 && 0 < p.regs.sts < 4 && p.source.id == STS_MAP[p.regs.sts]
    requires p.source.direction.From? && (p.source.id == 8 ==> !SprOf(p.source.madr))
    requires p.sourceChain ==> p.source.tagStall
    ensures SourceResult(p, v) == DataStep(p.regs, p.source, p.mem, v, true)
    ensures
      var q := SourceQword(p.source, p.mem, v);
      Stored(p, v) == if q.None? then [] else [q.value]
  {
    SourceData(p.regs, p.source, p.mem, v);
  }

  /** A source step either moves nothing or stores the next quadword of the area and publishes it. */
  lemma SourceEffect(p: Pair, v: FifoView, w: Area)
    requires SourceOk(p, w)
    ensures
      var e := SourceResult(p, v);
      if Stored(p, v) == [] then Idles(p, e) else Publishes(p, e, Stored(p, v), w)
  {
    if !p.source.started || p.source.qwc == 0 {
      SourceIdles(p, v, w);
    } else {
      CellOfMadr(w, |p.written|, w.source);
      SourceStores(p, v);
      SourceMoves(p, v, w, DataStep(p.regs, p.source, p.mem, v, true));
    }
  }

  /** Nothing but status bits changes outside the channel, and the channel stays the same one. */
  predicate DrainKeeps(r: Registers, c: Channel, m: Memory, e: Effect)
  {
    && e.mem == m && e.regs.sts == r.sts && e.regs.std == r.std && e.regs.stadr == r.stadr
    && e.ch.id == c.id && e.ch.direction == c.direction
  }

  /** The effect sends the quadword at MADR and the drain was not waiting, or it sends nothing and
      leaves the transfer alone. */
  predicate DrainOutcome(r: Registers, c: Channel, m: Memory, e: Effect)
  {
    && DrainKeeps(r, c, m, e) && e.ch.tagStall == c.tagStall
    && if e.pushed == [] then e.ch.madr == c.madr && e.ch.qwc == c.qwc else
         !DrainWaiting(r, c) && e.ch.madr == Wrap(c.madr + 16)
         && e.pushed == [ReadMem(m, BusAddress(DataAddress(c.madr), SprOf(c.madr)))]
  }

  lemma DrainWait(r: Registers, c: Channel, m: Memory, outcome: Outcome)
    ensures DrainOutcome(r, c, m, Unchanged(r, c, m, outcome))
    ensures DrainOutcome(r, c, m, Unchanged(r.(sis := true), c, m, outcome))
  {
  }

  /** The drain is not the toSPR channel, so its data goes to its FIFO. */
  lemma DrainTransfer(r: Registers, c: Channel, m: Memory, v: FifoView)
    requires DrainSelected(r, c)
    ensures DrainOutcome(r, c, m, DataStep(r, c, m, v, true))
    ensures DataStep(r, c, m, v, true).pushed != [] <==> !DrainWaiting(r, c) && v.free >= 16
  {
    if DrainWaiting(r, c) {
      DrainWait(r, c, m, Waiting);
    } else {
      assert DataStep(r, c, m, v, true) == FifoTransfer(r, c, m, v);
      DrainWait(r, c, m, Waiting);
    }
  }

  lemma DrainSuspend(r: Registers, c: Channel, m: Memory)
    ensures DrainOutcome(r, c, m, Suspend(r, c, m))
  {
  }

  lemma DrainStart(r: Registers, c: Channel, m: Memory)
    ensures DrainOutcome(r, c, m, Unchanged(r, c.(started := true), m, Stepped))
  {
  }

  lemma DrainNormalStep(r: Registers, c: Channel, m: Memory, v: FifoView)
    requires DrainSelected(r, c)
    ensures DrainOutcome(r, c, m, NormalStep(r, c, m, v))
    ensures c.qwc == 0 ==> NormalStep(r, c, m, v).pushed == []
  {
    if !c.started {
      DrainStart(r, c, m);
      DrainWait(r, c, m, Threw);
    } else if c.qwc == 0 {
      DrainSuspend(r, c, m);
      DrainWait(r, c, m, Waiting);
      assert NormalStep(r, c, m, v) == Suspend(r, c, m) || NormalStep(r, c, m, v) == Unchanged(r, c, m, Waiting);
    } else {
      DrainTransfer(r, c, m, v);
    }
  }

  predicate SameChannel(c: Channel, d: Channel) { d.id == c.id && d.direction == c.direction }

  lemma CallKeeps(c: Channel)
    ensures SameChannel(c, CallTag(c))
    ensures RetTag(c).Some? ==> SameChannel(c, RetTag(c).value)
  {
  }

  lemma TagKeeps(c: Channel)
    ensures SourceTag(c).Some? ==> SameChannel(c, SourceTag(c).value)
  {
    if !ST.NameOf(c.dmaTag).Subroutine? {
      ST.TagRegisters(c);
    } else {
      CallKeeps(c);
      assert SourceTag(c) == if c.dmaTag.Id() == 5 then Some(CallTag(c)) else RetTag(c);
    }
  }

  /** A source tag changes registers of the channel only, and may be transferred. */
  lemma SourceTagOnly(r: Registers, c: Channel, m: Memory, v: FifoView)
    ensures DrainKeeps(r, c, m, SourceTagStep(r, c, m, v))
  {
    TagKeeps(c.(dmaTag := TagOf(ReadMem(m, BusAddress(AddrOf(c.tadr), SprOf(c.tadr))))));
  }

  lemma DrainChainStep(r: Registers, c: Channel, m: Memory, v: FifoView)
    requires DrainSelected(r, c) && (c.qwc > 0 ==> c.tagStall)
    ensures DrainKeeps(r, c, m, ChainStep(r, c, m, v))
    ensures c.qwc > 0 ==> DrainOutcome(r, c, m, ChainStep(r, c, m, v))
  {
    if !c.started {
      DrainStart(r, c, m);
    } else if c.qwc > 0 {
      DrainTransfer(r, c, m, v);
    } else {
      SourceTagOnly(r, c, m, v);
      DrainSuspend(r, c, m);
      DrainWait(r, c, m, Waiting);
      assert ChainStep(r, c, m, v) == Suspend(r, c, m) || ChainStep(r, c, m, v) == Unchanged(r, c, m, Waiting)
          || ChainStep(r, c, m, v) == SourceTagStep(r, c, m, v);
    }
  }

  /** The drain waits when it has caught up with the source; if it is live, only then. */
  lemma DrainWaitsExactly(p: Pair, w: Area)
    requires Inv(p, w) && (p.drain.qwc > 0 || !p.drainChain)
    ensures |p.sent| == |p.written| ==> DrainWaiting(p.regs, p.drain)
    ensures w.Live() ==> (DrainWaiting(p.regs, p.drain) <==> |p.sent| == |p.written|)
  {
    CellOfMadr(w, |p.sent|, w.drain);
  }

  /** A drain step either sends no data or sends the next quadword, and then it has been stored. */
  lemma DrainEffect(p: Pair, v: FifoView, w: Area)
    requires Inv(p, w) && (p.drain.qwc > 0 || !p.drainChain)
    ensures
      var e := DrainResult(p, v);
      && DrainKeeps(p.regs, p.drain, p.mem, e) && e.pushed == Sends(p, v) && e.ch.tagStall == p.drain.tagStall
      && (e.pushed == [] ==> e.ch.madr == p.drain.madr && e.ch.qwc == p.drain.qwc)
      && (e.pushed != [] ==> |p.sent| < |p.written| && e.pushed == [p.written[|p.sent|]])
      && (e.pushed != [] ==> e.ch.madr == w.base + w.drain + 16 * (|p.sent| + 1))
  {
    DrainNormalStep(p.regs, p.drain, p.mem, v);
    if p.drain.qwc > 0 && p.drainChain { DrainChainStep(p.regs, p.drain, p.mem, v); }
    DrainWaitsExactly(p, w);
    CellOfMadr(w, |p.sent|, w.drain);
    if |p.sent| < w.n { CellOfMadr(w, |p.sent| + 1, w.drain); }
  }

  lemma SourceKeepsArea(p: Pair, p': Pair, w: Area, v: FifoView)
    requires Inv(p, w) && SourceStep(p, p', v)
    ensures AreaHolds(p', w)
  {
    SourceEffect(p, v, w);
    if Stored(p, v) == [] {
      assert p'.written == p.written;
    } else {
      forall i | 0 <= i < |p'.written|
        ensures ReadMem(p'.mem, Cell(w, i)) == p'.written[i]
      {
        if i < |p.written| { CellsDiffer(w, i, |p.written|); }
      }
    }
  }

  lemma SourceInv(p: Pair, p': Pair, w: Area, v: FifoView)
    requires Inv(p, w) && SourceStep(p, p', v)
    requires p.source.qwc == 0 ==> SourceFits(p', w)
    ensures Inv(p', w)
  {
    SourceEffect(p, v, w);
    SourceKeepsArea(p, p', w, v);
  }

  lemma DrainInv(p: Pair, p': Pair, w: Area, v: FifoView)
    requires Inv(p, w) && DrainStep(p, p', v)
    requires p.drain.qwc == 0 ==> DrainFits(p', w)
    ensures Inv(p', w)
  {
    if p.drain.qwc > 0 || !p.drainChain {
      DrainEffect(p, v, w);
    } else {
      DrainChainStep(p.regs, p.drain, p.mem, v);
    }
  }

  lemma MovesInv(p: Pair, p': Pair, w: Area, v: FifoView)
    requires Inv(p, w) && Moves(p, p', w, v)
    ensures Inv(p', w)
  {
    if SourceStep(p, p', v) && (p.source.qwc == 0 ==> SourceFits(p', w)) {
      SourceInv(p, p', w, v);
    } else if DrainStep(p, p', v) && (p.drain.qwc == 0 ==> DrainFits(p', w)) {
      DrainInv(p, p', w, v);
    }
  }

  /** A run: its states and what the stepping channel saw of its FIFO before each step. */
  ghost predicate IsRun(run: seq<Pair>, views: seq<FifoView>, w: Area)
  {
    && |run| == |views| + 1 && Initial(run[0], w)
    && forall i :: 0 <= i < |views| ==> Moves(run[i], run[i + 1], w, views[i])
  }

  /** In every run from safe offsets, in either mode of each channel, under every interleaving and every FIFO timing, what the drain
      has sent is a prefix of what the source has stored: it never reads a quadword that is not yet
      written. */
  lemma {:induction false} DrainFollowsSource(run: seq<Pair>, views: seq<FifoView>, w: Area)
    requires IsRun(run, views, w) && w.Safe()
    ensures
      var p := run[|run| - 1];
      && Inv(p, w) && p.sent <= p.written && |p.sent| <= w.n
      && p.regs.stadr == AddrOf(w.base) + w.source + 16 * |p.written|
    decreases |views|
  {
    if views == [] {
    } else {
      var k := |views| - 1;
      DrainFollowsSource(run[..k + 1], views[..k], w);
      assert Moves(run[k], run[k + 1], w, views[k]);
      MovesInv(run[k], run[k + 1], w, views[k]);
    }
  }

  /** A started drain with room in its FIFO sends a quadword before the source has stored any if
      and only if the offsets are not safe. */
  lemma OverrunsExactly(p: Pair, w: Area, v: FifoView)
    requires Initial(p, w) && p.drain.started && p.drain.qwc > 0 && v.free >= 16
    ensures p.written == []
    ensures DrainResult(p, v).pushed != [] <==> !w.Safe()
  {
    CellOfMadr(w, 0, w.drain);
  }

  /** A drain that is behind the source, with room in its FIFO, sends the next stored quadword; a
      drain that is one quadword behind does so if and only if its offset is live, and otherwise
      waits for a quadword the source need never store. */
  lemma DrainAdvances(p: Pair, w: Area, v: FifoView)
    requires Inv(p, w) && p.drain.started && p.drain.qwc > 0 && |p.sent| < |p.written| && v.free >= 16
    ensures w.Live() ==> DrainResult(p, v).pushed == [p.written[|p.sent|]]
    ensures |p.sent| + 1 == |p.written| ==> (DrainResult(p, v).pushed != [] <==> w.Live())
  {
    CellOfMadr(w, |p.sent|, w.drain);
  }

  /** A destination tag that brings data fits exactly if its address is where the area goes on, its
      data ends in the area, and it is CNTS, or a CNTS tag has been read before: tags do not switch
      stall control off again. */
  lemma DestTagFits(p: Pair, p': Pair, w: Area, v: FifoView, q: Qword)
    requires SourceOk(p, w) && p.sourceChain && p.source.started && p.source.qwc == 0 && !ST.LastTag(p.source)
    requires v.input == Some(q) && SourceStep(p, p', v)
    ensures
      var t := TagOf(q);
      SourceFits(p', w) <==>
        t.Qwc() == 0
        || (MakeAddr(t.Addr(), t.Spr()) == w.base + w.source + 16 * |p.written| && |p.written| + t.Qwc() <= w.n
            && (t.Id() == 0 || p.source.tagStall))
  {
  }

  /** A source tag that brings data fits exactly if its data starts where the drain goes on, and it
      is REFS, or a REFS tag has been read before. */
  lemma SourceTagFits(p: Pair, p': Pair, w: Area, v: FifoView, q: Qword)
    requires DrainSelected(p.regs, p.drain) && p.drainChain && p.drain.started && p.drain.qwc == 0
    requires !ST.LastTag(p.drain) && (p.drain.tte ==> v.free >= 16) && DrainStep(p, p', v)
    requires q == ReadMem(p.mem, BusAddress(AddrOf(p.drain.tadr), SprOf(p.drain.tadr)))
    requires !ST.NameOf(TagOf(q)).Subroutine?
    ensures
      var t := TagOf(q);
      DrainFits(p', w) <==>
        t.Qwc() == 0
        || (ST.DataStart(t, p.drain.tadr) == w.base + w.drain + 16 * |p.sent| && (t.Id() == 4 || p.drain.tagStall))
  {
    var c := p.drain.(dmaTag := TagOf(q));
    ST.TagRegisters(c);
    assert DrainResult(p, v) == SourceTagStep(p.regs, p.drain, p.mem, v);
    assert p'.drain == LatchTag(SourceTag(c).value) && p'.sent == p.sent;
  }

  /** D_CTRL.STD = 0 is meant to switch drain stall control off, but it selects channel 0: a VIF0
      transfer in normal mode then waits exactly when MADR + 8 exceeds D_STADR. */
  lemma UnspecifiedDrainStallsVif0(r: Registers, c: Channel, m: Memory, v: FifoView)
    requires r.std == 0 && c.id == 0 && c.direction.To? && c.started && c.qwc > 0 && v.free >= 16
    ensures NormalStep(r, c, m, v).outcome.Waiting? <==> AddrOf(c.madr) + 8 > r.stadr
  {
  }
}
