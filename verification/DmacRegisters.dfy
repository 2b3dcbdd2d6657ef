/** What one step of an EE DMAC channel does to memory, FIFO and registers, by channel number, bit field
    and mask. */
module DmacRegisters {
  import opened Wrappers
  import opened Words
  import opened Bits
  import opened BitfieldModel
  import opened EeDmacSpec
  import ST = SourceTransfer

  const ADDR := Bitfield(0, 31)
  const SPR := Bitfield(31, 1)

  lemma AddressField(reg: uword)
    ensures AddrOf(reg) == ADDR.ExtractFrom(reg)
  {
    LowAddress(reg);
  }

  lemma ScratchpadField(reg: uword)
    ensures SPR.ExtractFrom(reg) == if SprOf(reg) then 1 else 0
  {
    TopBit(reg);
  }

  lemma AddressFields(reg: uword)
    ensures AddrOf(reg) == ADDR.ExtractFrom(reg) && (SprOf(reg) <==> SPR.ExtractFrom(reg) == 1)
  {
    AddressField(reg);
    ScratchpadField(reg);
  }

  lemma MadeAddress(addr: nat, spr: bool)
    ensures AddrOf(MakeAddr(addr, spr)) == addr % 0x8000_0000 && SprOf(MakeAddr(addr, spr)) == spr
  {
  }

  /** Address registers hold the address in bits 0 to 30 and the scratchpad flag in bit 31. */
  lemma AddressRegister(reg: uword, addr: nat, spr: bool)
    ensures AddrOf(reg) == ADDR.ExtractFrom(reg) && (SprOf(reg) <==> SPR.ExtractFrom(reg) == 1)
    ensures ADDR.ExtractFrom(MakeAddr(addr, spr)) == addr % 0x8000_0000
    ensures SPR.ExtractFrom(MakeAddr(addr, spr)) == 1 <==> spr
  {
    AddressFields(reg);
    AddressFields(MakeAddr(addr, spr));
    MadeAddress(addr, spr);
  }

  /** The bus address of an access: the scratchpad lies at 0x70000000. */
  function OnBus(address: nat, spr: nat): nat { address + 0x7000_0000 * spr }

  // ---------------------------------------------------------------- data

  /** Where the data of a channel is: at MADR under the mask 0x1FFFFFF0, with the scratchpad flag, ... */
  function Main(c: Channel): nat { And(ADDR.ExtractFrom(c.madr), 0x1FFF_FFF0) }

  function MainOnBus(c: Channel): nat { OnBus(Main(c), SPR.ExtractFrom(c.madr)) }

  /** ... and for fromSPR and toSPR also in the scratchpad at SADR under the mask 0x3FF0. */
  function Scratchpad(c: Channel): nat { OnBus(And(c.sadr, 0x3FF0), 1) }

  lemma DataAddresses(c: Channel)
    ensures DataAddress(c.madr) == Main(c) && BusAddress(DataAddress(c.madr), SprOf(c.madr)) == MainOnBus(c)
    ensures BusAddress(SprAddress(c.sadr), true) == Scratchpad(c)
  {
    AddressFields(c.madr);
    TopBit(c.madr);
    AddressMask(ADDR.ExtractFrom(c.madr));
    ScratchpadMask(c.sadr);
  }

  /** D_CTRL.STS selects SIF0, fromSPR or fromIPU by 1, 2 and 3, and by 0, meant for none, channel 0. */
  predicate StsSelects(sts: nat, id: nat)
  {
    (sts == 0 && id == 0) || (sts == 1 && id == 5) || (sts == 2 && id == 8) || (sts == 3 && id == 3)
  }

  /** D_CTRL.STD selects VIF1, GIF or SIF1 by 1, 2 and 3, and by 0, meant for none, channel 0. */
  predicate StdSelects(std: nat, id: nat)
  {
    (std == 0 && id == 0) || (std == 1 && id == 1) || (std == 2 && id == 2) || (std == 3 && id == 6)
  }

  /** A channel with data left that stall control holds back; in chain mode a stall tag has been read. */
  predicate HeldBack(r: Registers, c: Channel, chain: bool)
  {
    c.direction.To? && StdSelects(r.std, c.id) && ADDR.ExtractFrom(c.madr) + 8 > r.stadr && (chain ==> c.tagStall)
  }

  /** A channel that is to publish its progress. */
  predicate Publishes(r: Registers, c: Channel, chain: bool)
  {
    c.direction.From? && StsSelects(r.sts, c.id) && (chain ==> c.tagStall)
  }

  /** The two scratchpad channels are always ready, the others when their FIFO has or takes 16 bytes. */
  predicate FifoReady(c: Channel, v: FifoView)
  {
    c.id == 8 || c.id == 9 || if c.direction.From? then v.input.Some? else v.free >= 16
  }

  lemma Selected(r: Registers, c: Channel)
    requires r.sts < 4 && r.std < 4
    ensures SourceStallOn(r, c) <==> c.direction.From? && StsSelects(r.sts, c.id)
    ensures DrainStallOn(r, c) <==> c.direction.To? && StdSelects(r.std, c.id)
  {
  }

  lemma StepIsData(r: Registers, c: Channel, m: Memory, v: FifoView, chain: bool)
    requires c.started && c.qwc > 0
    ensures ST.Step(r, c, m, v, chain) == DataStep(r, c, m, v, !chain || c.tagStall)
  {
  }

  /** A 32-bit register 16 further. */
  function Further(reg: uword): uword { (reg + 16) % 0x1_0000_0000 }

  lemma FurtherIsWrap(reg: uword)
    ensures Wrap(reg + 16) == Further(reg)
  {
  }

  /** The channel after one more quadword. */
  function OneLess(c: Channel): Channel
    requires c.qwc > 0
  {
    c.(madr := Further(c.madr), qwc := c.qwc - 1, sadr := if c.id == 8 || c.id == 9 then Further(c.sadr) else c.sadr)
  }

  lemma AdvanceIsFurther(c: Channel)
    requires c.qwc > 0
    ensures Advance(c) == c.(madr := Further(c.madr), qwc := c.qwc - 1)
  {
    FurtherIsWrap(c.madr);
  }

  /** The quadword is moved if the FIFO is ready. */
  predicate Transfers(r: Registers, c: Channel, m: Memory, v: FifoView, e: Effect)
    requires c.qwc > 0
  {
    if FifoReady(c, v) then e.outcome.Stepped? && e.ch == OneLess(c) && e.regs == r
    else e == Effect(r, c, m, [], false, Waiting)
  }

  lemma ScratchpadTransfers(r: Registers, c: Channel, m: Memory, v: FifoView)
    requires c.qwc > 0 && (c.id == 8 || c.id == 9)
    ensures Transfers(r, c, m, v, ScratchpadTransfer(r, c, m))
  {
    AdvanceIsFurther(c);
    FurtherIsWrap(c.sadr);
  }

  lemma FifoTransfers(r: Registers, c: Channel, m: Memory, v: FifoView)
    requires c.qwc > 0 && c.id != 8 && c.id != 9
    ensures Transfers(r, c, m, v, FifoTransfer(r, c, m, v))
  {
    AdvanceIsFurther(c);
  }

  predicate DataEffect(r: Registers, c: Channel, m: Memory, v: FifoView, e: Effect, held: bool, publishes: bool, next: nat)
    requires c.qwc > 0
  {
    if held then e == Effect(r.(sis := true), c, m, [], false, Waiting)
    else if !FifoReady(c, v) then e == Effect(r, c, m, [], false, Waiting)
    else
      && e.outcome.Stepped? && e.ch == OneLess(c)
      && e.regs == r.(stadr := e.regs.stadr) && e.regs.stadr == if publishes then next else r.stadr
  }

  lemma DataRegisters(r: Registers, c: Channel, m: Memory, v: FifoView, held: bool, publishes: bool, gated: bool)
    requires c.qwc > 0 && held == (DrainStallOn(r, c) && DrainWaiting(r, c) && gated)
    requires publishes == (SourceStallOn(r, c) && gated)
    ensures DataEffect(r, c, m, v, DataStep(r, c, m, v, gated), held, publishes, AddrOf(Further(c.madr)))
  {
    if c.id == 8 || c.id == 9 { ScratchpadTransfers(r, c, m, v); } else { FifoTransfers(r, c, m, v); }
    assert Transfers(r, c, m, v, TransferData(r, c, m, v));
  }

  lemma HeldBackIs(r: Registers, c: Channel, chain: bool)
    requires r.sts < 4 && r.std < 4
    ensures HeldBack(r, c, chain) == (DrainStallOn(r, c) && DrainWaiting(r, c) && (!chain || c.tagStall))
    ensures Publishes(r, c, chain) == (SourceStallOn(r, c) && (!chain || c.tagStall))
  {
    Selected(r, c);
    AddressFields(c.madr);
  }

  /** A step with data left. Held back, it sets D_STAT.SIS and changes nothing else. Otherwise it
      changes nothing if the FIFO is not ready, and if it is, one quadword less is left, MADR is 16
      further and SIS as it was. The step then publishes MADR in D_STADR exactly if the channel is
      the source that STS selects: SIF0, fromSPR or fromIPU for 1, 2 and 3. */
  lemma DataExactly(r: Registers, c: Channel, m: Memory, v: FifoView, chain: bool)
    requires c.started && c.qwc > 0 && r.sts < 4 && r.std < 4
    ensures
      DataEffect(r, c, m, v, ST.Step(r, c, m, v, chain), HeldBack(r, c, chain), Publishes(r, c, chain),
                 ADDR.ExtractFrom(Further(c.madr)))
  {
    StepIsData(r, c, m, v, chain);
    HeldBackIs(r, c, chain);
    AddressFields(Further(c.madr));
    DataRegisters(r, c, m, v, HeldBack(r, c, chain), Publishes(r, c, chain), !chain || c.tagStall);
  }

  /** Exactly SIF0 under STS = 1, fromSPR under 2 and fromIPU under 3 publish their progress in
      D_STADR when they move data; and, where none is meant, channel 0 under 0. */
  lemma PublishesExactly(r: Registers, c: Channel, m: Memory, v: FifoView, chain: bool)
    requires c.started && c.qwc > 0 && c.direction.From? && r.sts < 4 && r.std < 4 && FifoReady(c, v)
    ensures
      ST.Step(r, c, m, v, chain).regs.stadr ==
        if (chain ==> c.tagStall)
           && ((r.sts == 1 && c.id == 5) || (r.sts == 2 && c.id == 8) || (r.sts == 3 && c.id == 3)
               || (r.sts == 0 && c.id == 0))
        then ADDR.ExtractFrom(Further(c.madr)) else r.stadr
  {
    DataExactly(r, c, m, v, chain);
  }

  /** Exactly VIF1 under STD = 1, GIF under 2 and SIF1 under 3, and channel 0 under 0, are held back
      while MADR + 8 exceeds D_STADR, and then set D_STAT.SIS. */
  lemma HeldBackExactly(r: Registers, c: Channel, m: Memory, v: FifoView, chain: bool)
    requires c.started && c.qwc > 0 && c.direction.To? && r.sts < 4 && r.std < 4 && FifoReady(c, v)
    ensures
      var e := ST.Step(r, c, m, v, chain);
      && (e.outcome.Waiting? <==>
            && (chain ==> c.tagStall) && ADDR.ExtractFrom(c.madr) + 8 > r.stadr
            && ((r.std == 1 && c.id == 1) || (r.std == 2 && c.id == 2) || (r.std == 3 && c.id == 6)
                || (r.std == 0 && c.id == 0)))
      && e.regs.sis == (r.sis || e.outcome.Waiting?) && e.regs.stadr == r.stadr
  {
    DataExactly(r, c, m, v, chain);
  }

  /** The quadword moves between memory and scratchpad, FIFO and memory, or memory and FIFO. */
  predicate MoveEffect(c: Channel, m: Memory, v: FifoView, e: Effect, main: nat, onBus: nat, spr: nat)
    requires FifoReady(c, v)
  {
    if c.id == 8 || c.id == 9 then
      && e.pushed == [] && !e.consumed
      && e.mem == if c.direction.From? then m[main := ReadMem(m, spr)] else m[spr := ReadMem(m, main)]
    else if c.direction.From? then
      e.pushed == [] && e.consumed && e.mem == m[onBus := v.input.value]
    else
      e.pushed == [ReadMem(m, onBus)] && !e.consumed && e.mem == m
  }

  lemma MovesAt(r: Registers, c: Channel, m: Memory, v: FifoView, main: nat, onBus: nat, spr: nat)
    requires c.qwc > 0 && FifoReady(c, v)
    requires main == DataAddress(c.madr) && onBus == BusAddress(DataAddress(c.madr), SprOf(c.madr))
    requires spr == BusAddress(SprAddress(c.sadr), true)
    ensures MoveEffect(c, m, v, TransferData(r, c, m, v), main, onBus, spr)
  {
    if c.id == 8 || c.id == 9 {
      assert TransferData(r, c, m, v) == ScratchpadTransfer(r, c, m);
    } else {
      assert TransferData(r, c, m, v) == FifoTransfer(r, c, m, v);
    }
  }

  lemma MovesUngated(r: Registers, c: Channel, m: Memory, v: FifoView, gated: bool, main: nat, onBus: nat, spr: nat)
    requires FifoReady(c, v) && !(DrainStallOn(r, c) && DrainWaiting(r, c) && gated)
    requires MoveEffect(c, m, v, TransferData(r, c, m, v), main, onBus, spr)
    ensures MoveEffect(c, m, v, DataStep(r, c, m, v, gated), main, onBus, spr)
  {
  }

  /** Where the quadword of such a step comes from and goes to. */
  lemma MovesExactly(r: Registers, c: Channel, m: Memory, v: FifoView, chain: bool)
    requires c.started && c.qwc > 0 && r.sts < 4 && r.std < 4 && !HeldBack(r, c, chain) && FifoReady(c, v)
    ensures MoveEffect(c, m, v, ST.Step(r, c, m, v, chain), Main(c), MainOnBus(c), Scratchpad(c))
  {
    StepIsData(r, c, m, v, chain);
    HeldBackIs(r, c, chain);
    DataAddresses(c);
    MovesAt(r, c, m, v, Main(c), MainOnBus(c), Scratchpad(c));
    MovesUngated(r, c, m, v, !chain || c.tagStall, Main(c), MainOnBus(c), Scratchpad(c));
  }

  // ---------------------------------------------------------------- start and end

  lemma CallJumps(c: Channel)
    ensures
      var (d, t) := (Jumped(c), c.dmaTag);
      && AddrOf(d.madr) == (AddrOf(c.tadr) + 16) % 0x8000_0000 && SprOf(d.madr) == SprOf(c.tadr)
      && AddrOf(d.tadr) == t.Addr() && SprOf(d.tadr) == t.Spr()
      && d == c.(qwc := t.Qwc(), madr := d.madr, tadr := d.tadr)
  {
    MadeAddress(AddrOf(c.tadr) + 16, SprOf(c.tadr));
    MadeAddress(c.dmaTag.Addr(), c.dmaTag.Spr());
  }

  /** The channel after a CALL that pushes the given address. */
  function Pushing(d: Channel, back: uword): Channel
  {
    if d.asp >= |d.asr| then d.(tagExit := true) else d.(asp := d.asp + 1, asr := d.asr[d.asp := back])
  }

  lemma CallPushes(c: Channel)
    requires c.dmaTag.Id() == 5
    ensures SourceTag(c) == Some(Pushing(Jumped(c), MakeAddr(AddrOf(Jumped(c).tadr) + 16, SprOf(Jumped(c).tadr))))
  {
    assert SourceTag(c) == Some(CallTag(c));
  }

  /** A CALL pushes the address 16 beyond the tag called, not beyond the CALL; it exits if both return
      address registers are taken. */
  lemma CallRegisters(c: Channel) returns (madr: uword, tadr: uword, back: uword)
    requires c.dmaTag.Id() == 5
    ensures SourceTag(c) == Some(Pushing(c.(qwc := c.dmaTag.Qwc(), madr := madr, tadr := tadr), back))
    ensures AddrOf(madr) == (AddrOf(c.tadr) + 16) % 0x8000_0000 && SprOf(madr) == SprOf(c.tadr)
    ensures AddrOf(tadr) == c.dmaTag.Addr() && SprOf(tadr) == c.dmaTag.Spr()
    ensures AddrOf(back) == (c.dmaTag.Addr() + 16) % 0x8000_0000 && SprOf(back) == c.dmaTag.Spr()
  {
    CallJumps(c);
    CallPushes(c);
    madr, tadr := Jumped(c).madr, Jumped(c).tadr;
    back := MakeAddr(AddrOf(tadr) + 16, SprOf(tadr));
    MadeAddress(AddrOf(tadr) + 16, SprOf(tadr));
  }

  /** Where RET goes: the register above the one that CALL wrote gives its scratchpad flag. */
  function Back(c: Channel): uword
    requires 0 < c.asp < |c.asr|
  {
    MakeAddr(if SprOf(c.asr[c.asp]) then 1 else 0, SprOf(c.tadr))
  }

  lemma RetPops(c: Channel)
    requires c.dmaTag.Id() == 6
    ensures
      SourceTag(c) ==
        if c.asp == 0 then Some(DataAfter(c.(tagExit := true)))
        else if c.asp >= |c.asr| then None
        else Some(DataAfter(c.(tadr := Back(c), asp := c.asp - 1)))
  {
    assert SourceTag(c) == RetTag(c);
  }

  lemma AfterTag(c: Channel) returns (madr: uword)
    ensures DataAfter(c) == c.(qwc := c.dmaTag.Qwc(), madr := madr)
    ensures AddrOf(madr) == (AddrOf(c.tadr) + 16) % 0x8000_0000 && SprOf(madr) == SprOf(c.tadr)
  {
    MadeAddress(AddrOf(c.tadr) + 16, SprOf(c.tadr));
    madr := DataAfter(c).madr;
  }

  lemma RetExits(c: Channel) returns (madr: uword)
    requires c.dmaTag.Id() == 6 && c.asp == 0
    ensures SourceTag(c) == Some(c.(tagExit := true, qwc := c.dmaTag.Qwc(), madr := madr))
    ensures AddrOf(madr) == (AddrOf(c.tadr) + 16) % 0x8000_0000 && SprOf(madr) == SprOf(c.tadr)
  {
    RetPops(c);
    madr := AfterTag(c.(tagExit := true));
  }

  lemma RetPopsOne(c: Channel)
    requires c.dmaTag.Id() == 6 && 0 < c.asp < |c.asr|
    ensures SourceTag(c) == Some(DataAfter(c.(tadr := Back(c), asp := c.asp - 1)))
  {
    RetPops(c);
  }

  lemma BackAddress(c: Channel)
    requires 0 < c.asp < |c.asr|
    ensures AddrOf(Back(c)) == (if SprOf(c.asr[c.asp]) then 1 else 0) && SprOf(Back(c)) == SprOf(c.tadr)
  {
    MadeAddress(if SprOf(c.asr[c.asp]) then 1 else 0, SprOf(c.tadr));
  }

  lemma RetReturns(c: Channel) returns (madr: uword, tadr: uword)
    requires c.dmaTag.Id() == 6 && 0 < c.asp < |c.asr|
    ensures SourceTag(c) == Some(c.(qwc := c.dmaTag.Qwc(), madr := madr, tadr := tadr, asp := c.asp - 1))
    ensures AddrOf(tadr) == (if SprOf(c.asr[c.asp]) then 1 else 0) && SprOf(tadr) == SprOf(c.tadr)
    ensures AddrOf(madr) == AddrOf(tadr) + 16 && SprOf(madr) == SprOf(c.tadr)
  {
    RetPopsOne(c);
    BackAddress(c);
    tadr := Back(c);
    madr := AfterTag(c.(tadr := tadr, asp := c.asp - 1));
  }

  /** RET takes the scratchpad flag of the register above the one that CALL wrote for an address, or
      reads past the registers; without a CALL it exits. */
  lemma RetRegisters(c: Channel) returns (madr: uword, tadr: uword)
    requires c.dmaTag.Id() == 6
    ensures
      SourceTag(c) ==
        if c.asp == 0 then Some(c.(tagExit := true, qwc := c.dmaTag.Qwc(), madr := madr))
        else if c.asp >= |c.asr| then None
        else Some(c.(qwc := c.dmaTag.Qwc(), madr := madr, tadr := tadr, asp := c.asp - 1))
    ensures
      if c.asp == 0 then tadr == c.tadr
      else c.asp < |c.asr| ==> AddrOf(tadr) == (if SprOf(c.asr[c.asp]) then 1 else 0) && SprOf(tadr) == SprOf(c.tadr)
    ensures
      c.asp == 0 || c.asp < |c.asr| ==>
        AddrOf(madr) == (AddrOf(tadr) + 16) % 0x8000_0000 && SprOf(madr) == SprOf(c.tadr)
  {
    madr, tadr := c.madr, c.tadr;
    if c.asp == 0 {
      madr := RetExits(c);
    } else if c.asp < |c.asr| {
      madr, tadr := RetReturns(c);
    } else {
      RetPops(c);
    }
  }

  lemma PushingKeepsStr(d: Channel, back: uword)
    ensures Pushing(d, back).str == d.str
  {
  }

  lemma CallKeepsStr(c: Channel)
    requires c.dmaTag.Id() == 5
    ensures SourceTag(c).Some? && SourceTag(c).value.str == c.str
  {
    var madr, tadr, back := CallRegisters(c);
    PushingKeepsStr(c.(qwc := c.dmaTag.Qwc(), madr := madr, tadr := tadr), back);
  }

  lemma RetKeepsStr(c: Channel)
    requires c.dmaTag.Id() == 6
    ensures SourceTag(c).Some? ==> SourceTag(c).value.str == c.str
  {
    var madr, tadr := RetRegisters(c);
  }

  lemma OtherTagKeepsStr(c: Channel)
    requires !ST.NameOf(c.dmaTag).Subroutine?
    ensures SourceTag(c).Some? && SourceTag(c).value.str == c.str
  {
    ST.TagRegisters(c);
  }

  lemma SubroutineIds(t: Dmatag)
    ensures ST.NameOf(t).Subroutine? <==> t.Id() == 5 || t.Id() == 6
  {
  }

  lemma TagKeepsStr(c: Channel)
    ensures SourceTag(c).Some? ==> SourceTag(c).value.str == c.str
  {
    SubroutineIds(c.dmaTag);
    if c.dmaTag.Id() == 5 {
      CallKeepsStr(c);
    } else if c.dmaTag.Id() == 6 {
      RetKeepsStr(c);
    } else {
      OtherTagKeepsStr(c);
    }
  }

  lemma SourceTagStays(r: Registers, c: Channel, m: Memory, v: FifoView)
    ensures SourceTagStep(r, c, m, v).ch.str == c.str && SourceTagStep(r, c, m, v).regs == r
  {
    TagKeepsStr(c.(dmaTag := TagOf(ReadMem(m, BusAddress(AddrOf(c.tadr), SprOf(c.tadr))))));
  }

  lemma DestTagKeepsStr(c: Channel)
    ensures LatchTag(DestTag(c)).str == c.str
  {
  }

  lemma DestTagStays(r: Registers, c: Channel, m: Memory, v: FifoView)
    ensures DestTagStep(r, c, m, v).ch.str == c.str && DestTagStep(r, c, m, v).regs == r
  {
    if v.input.Some? {
      DestTagKeepsStr(c.(dmaTag := TagOf(v.input.value)));
    }
  }

  lemma StartsExactly(r: Registers, c: Channel, m: Memory, v: FifoView, chain: bool)
    requires !c.started
    ensures ST.Step(r, c, m, v, chain)
         == if !chain && c.qwc == 0 then Effect(r, c, m, [], false, Threw)
            else Effect(r, c.(started := true), m, [], false, Stepped)
  {
  }

  lemma FinishesExactly(r: Registers, c: Channel, m: Memory, v: FifoView)
    requires c.str
    ensures
      var (e, leaves) := (Finish(r, c, m, v), c.direction.To? && c.id != 9 ==> v.empty);
      e.ch.str == !leaves && e.regs == if leaves then r.(cis := r.cis + {c.id}) else r
  {
  }

  /** A started channel with no data left suspends exactly if, in chain mode, an exit is pending, and,
      in direction To except for toSPR, the FIFO is empty; it then sets exactly its bit of D_STAT. */
  lemma SuspendsExactly(r: Registers, c: Channel, m: Memory, v: FifoView, chain: bool)
    requires c.str && c.started && c.qwc == 0
    ensures
      var e := ST.Step(r, c, m, v, chain);
      var leaves := (chain ==> c.tagExit || (c.tie && c.tagIrq)) && (c.direction.To? && c.id != 9 ==> v.empty);
      e.ch.str == !leaves && e.regs == if leaves then r.(cis := r.cis + {c.id}) else r
  {
    if chain && !(c.tagExit || (c.tie && c.tagIrq)) {
      SourceTagStays(r, c, m, v);
      DestTagStays(r, c, m, v);
    } else {
      FinishesExactly(r, c, m, v);
      assert ST.Step(r, c, m, v, chain) == Finish(r, c, m, v);
    }
  }

  // ---------------------------------------------------------------- CALL and RET

  /** A RET after a first CALL resumes at address 0 or 1, by the scratchpad flag of the second return
      address register; so it resumes at the quadword after the CALL exactly if that wraps to there. */
  lemma RetResumesExactly(c: Channel, ret: Dmatag)
    requires c.dmaTag.Id() == 5 && ret.Id() == 6 && c.asp == 0 && |c.asr| == 2
    ensures
      var called := SourceTag(c).value;
      && SourceTag(c).Some? && SourceTag(called.(dmaTag := ret)).Some?
      && var back := SourceTag(called.(dmaTag := ret)).value;
      (AddrOf(back.tadr) == (AddrOf(c.tadr) + 16) % 0x8000_0000 <==>
         (AddrOf(c.tadr) == 0x7FFF_FFF0 && !SprOf(c.asr[1])) || (AddrOf(c.tadr) == 0x7FFF_FFF1 && SprOf(c.asr[1])))
  {
    var madr, tadr, back := CallRegisters(c);
    var madr', tadr' := RetRegisters(SourceTag(c).value.(dmaTag := ret));
  }
}
