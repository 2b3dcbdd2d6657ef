/** One step of an EE DMAC channel, as a function of the registers, the memory and what the
    channel sees of its FIFO. */
module EeDmacSpec {
  import opened Wrappers
  import opened Words
  import opened Bits
  import opened BitfieldModel

  datatype Direction = From | To
  datatype Outcome = Stepped | Waiting | Threw

  // ---------------------------------------------------------------- registers

  /** Address registers hold a 31-bit address and, in the top bit, the scratchpad flag. */
  const SPR_BIT: nat := 0x8000_0000

  function AddrOf(reg: uword): nat { if reg >= SPR_BIT then reg - SPR_BIT else reg }
  function SprOf(reg: uword): bool { reg >= SPR_BIT }
  function MakeAddr(addr: int, spr: bool): uword
  {
    (if 0 <= addr < SPR_BIT then addr else addr % SPR_BIT) + if spr then SPR_BIT else 0
  }

  /** Bus address of an access; the scratchpad lies at 0x70000000. */
  function BusAddress(addr: nat, spr: bool): nat { if spr then 0x7000_0000 + addr else addr }

  /** Data address of MADR: masked with 0x1FFFFFF0. */
  function DataAddress(madr: uword): nat { AddrOf(madr) % 0x2000_0000 / 16 * 16 }

  /** Scratchpad address of SADR: masked with 0x3FF0. */
  function SprAddress(sadr: uword): nat { sadr % 0x4000 / 16 * 16 }

  /** An EE DMA tag: the low two words of a tag quadword. */
  datatype Dmatag = Dmatag(tag0: uword, tag1: uword) {
    function Qwc(): nat { tag0 % 0x1_0000 }
    function Tag(): nat { tag0 / 0x1_0000 }
    function Id(): (id: nat) ensures id < 8 { tag0 / 0x1000_0000 % 8 }
    function Irq(): bool { tag0 >= 0x8000_0000 }
    function Addr(): nat { tag1 % 0x8000_0000 }
    function Spr(): bool { tag1 >= 0x8000_0000 }
  }

  const BLANK_TAG := Dmatag(0, 0)

  function TagOf(q: Qword): Dmatag { Dmatag(q.uw0, q.uw1) }

  /** What a tag read puts into the FIFO when tag transfer is enabled. */
  function TransferredTag(q: Qword): Qword { Qword(q.uw2, q.uw3, 0, 0) }

  /** A channel: the decoded CHCR fields and run-time flags, and the other channel registers. */
  datatype Channel = Channel(
    id: nat, direction: Direction, tte: bool, tie: bool, str: bool, asp: nat, tag: nat,
    madr: uword, qwc: uword, tadr: uword, asr: seq<uword>, sadr: uword,
    started: bool, tagExit: bool, tagStall: bool, tagIrq: bool, dmaTag: Dmatag)

  /** The DMAC registers the channels share: D_STAT bits, D_CTRL stall fields and D_STADR. */
  datatype Registers = Registers(cis: set<nat>, sis: bool, sts: nat, std: nat, stadr: uword)

  type Memory = map<nat, Qword>

  function ReadMem(mem: Memory, address: nat): Qword
  {
    if address in mem then mem[address] else ZERO_QWORD
  }

  /** What a channel sees of its FIFO when it steps: the free bytes, whether it is empty, and the
      first quadword if at least 16 bytes are queued. */
  datatype FifoView = FifoView(free: nat, empty: bool, input: Option<Qword>)

  datatype Effect = Effect(regs: Registers, ch: Channel, mem: Memory, pushed: seq<Qword>, consumed: bool,
                           outcome: Outcome)

  function Unchanged(r: Registers, c: Channel, m: Memory, outcome: Outcome): Effect
  {
    Effect(r, c, m, [], false, outcome)
  }

  // ---------------------------------------------------------------- data transfer

  function Advance(c: Channel): Channel
  {
    c.(madr := Wrap(c.madr + 16), qwc := Wrap(c.qwc - 1))
  }

  /** Copies a quadword between memory and the scratchpad. */
  function ScratchpadTransfer(r: Registers, c: Channel, m: Memory): Effect
  {
    var (address, spr) := (DataAddress(c.madr), BusAddress(SprAddress(c.sadr), true));
    var m' := if c.direction.From? then m[address := ReadMem(m, spr)] else m[spr := ReadMem(m, address)];
    Effect(r, Advance(c).(sadr := Wrap(c.sadr + 16)), m', [], false, Stepped)
  }

  /** Moves a quadword between memory and the FIFO. Waits if the FIFO is not ready. */
  function FifoTransfer(r: Registers, c: Channel, m: Memory, v: FifoView): Effect
  {
    var bus := BusAddress(DataAddress(c.madr), SprOf(c.madr));
    if c.direction.From? then
      if v.input.None? then Unchanged(r, c, m, Waiting)
      else Effect(r, Advance(c), m[bus := v.input.value], [], true, Stepped)
    else if v.free < 16 then Unchanged(r, c, m, Waiting)
    else Effect(r, Advance(c), m, [ReadMem(m, bus)], false, Stepped)
  }

  /** Moves one quadword. The two scratchpad channels have no FIFO. */
  function TransferData(r: Registers, c: Channel, m: Memory, v: FifoView): Effect
  {
    if c.id == 8 || c.id == 9 then ScratchpadTransfer(r, c, m) else FifoTransfer(r, c, m, v)
  }

  /** Memory after quadwords are stored from a data address register on. */
  function StoreAll(m: Memory, madr: uword, qs: seq<Qword>): Memory
    decreases |qs|
  {
    if qs == [] then m
    else StoreAll(m[BusAddress(DataAddress(madr), SprOf(madr)) := qs[0]], Wrap(madr + 16), qs[1..])
  }

  /** MADR after n quadwords. */
  function MadrAfter(madr: uword, n: nat): uword
    decreases n
  {
    if n == 0 then madr else MadrAfter(Wrap(madr + 16), n - 1)
  }

  // ---------------------------------------------------------------- stall control

  const STS_MAP: seq<nat> := [0, 5, 8, 3]
  const STD_MAP: seq<nat> := [0, 1, 2, 6]

  predicate SourceStallOn(r: Registers, c: Channel)
  {
    c.direction.From? && r.sts < 4 && c.id == STS_MAP[r.sts]
  }

  predicate DrainStallOn(r: Registers, c: Channel)
  {
    c.direction.To? && r.std < 4 && c.id == STD_MAP[r.std]
  }

  /** MADR + 8 > STADR. */
  predicate DrainWaiting(r: Registers, c: Channel)
  {
    c.direction.To? && AddrOf(c.madr) + 8 > r.stadr
  }

  function UpdateStadr(e: Effect): Effect
  {
    e.(regs := e.regs.(stadr := AddrOf(e.ch.madr)))
  }

  // ---------------------------------------------------------------- steps

  function Suspend(r: Registers, c: Channel, m: Memory): Effect
  {
    Effect(r.(cis := r.cis + {c.id}), c.(str := false), m, [], false, Stepped)
  }

  /** Ends the transfer once a written FIFO has drained (except for the toSPR channel). */
  function Finish(r: Registers, c: Channel, m: Memory, v: FifoView): Effect
  {
    if c.direction.To? && c.id != 9 && !v.empty then Unchanged(r, c, m, Waiting)
    else Suspend(r, c, m)
  }

  /** Moves a quadword under stall control: a waiting drain channel sets D_STAT.SIS, a source
      channel publishes its progress in D_STADR. In chain mode only stall tags are gated. */
  function DataStep(r: Registers, c: Channel, m: Memory, v: FifoView, gated: bool): Effect
  {
    if DrainStallOn(r, c) && DrainWaiting(r, c) && gated then Unchanged(r.(sis := true), c, m, Waiting)
    else
      var e := TransferData(r, c, m, v);
      if e.outcome.Stepped? && SourceStallOn(r, c) && gated then UpdateStadr(e) else e
  }

  /** A step in normal mode. */
  function NormalStep(r: Registers, c: Channel, m: Memory, v: FifoView): Effect
  {
    if !c.started then
      if c.qwc == 0 then Unchanged(r, c, m, Threw)
      else Unchanged(r, c.(started := true), m, Stepped)
    else if c.qwc == 0 then Finish(r, c, m, v)
    else DataStep(r, c, m, v, true)
  }

  function LatchTag(c: Channel): Channel
  {
    c.(tagIrq := c.dmaTag.Irq(), tag := c.dmaTag.Tag())
  }

  /** QWC and MADR for data after the tag, and for data at the tag's address. */
  function DataAfter(c: Channel): Channel
  {
    c.(qwc := c.dmaTag.Qwc(), madr := MakeAddr(AddrOf(c.tadr) + 16, SprOf(c.tadr)))
  }

  function TagTarget(c: Channel): uword { MakeAddr(c.dmaTag.Addr(), c.dmaTag.Spr()) }

  function DataAt(c: Channel): Channel
  {
    c.(qwc := c.dmaTag.Qwc(), madr := TagTarget(c))
  }

  function Jumped(c: Channel): Channel { DataAfter(c).(tadr := TagTarget(c)) }

  /** The address after TADR, pushed onto the return address stack. */
  function Pushed(c: Channel): Channel
    requires c.asp < |c.asr|
  {
    c.(asp := c.asp + 1, asr := c.asr[c.asp := MakeAddr(AddrOf(c.tadr) + 16, SprOf(c.tadr))])
  }

  function CallTag(c: Channel): Channel
  {
    var d := Jumped(c);
    if d.asp >= |d.asr| then d.(tagExit := true) else Pushed(d)
  }

  function RetTag(c: Channel): Option<Channel>
  {
    if c.asp == 0 then Some(DataAfter(c.(tagExit := true)))
    else if c.asp >= |c.asr| then None
    else
      // Both insertions go to the address field: the second one stores the scratchpad bit.
      var back := MakeAddr(if SprOf(c.asr[c.asp]) then 1 else 0, SprOf(c.tadr));
      Some(DataAfter(c.(tadr := back, asp := c.asp - 1)))
  }

  /** Executes the source chain tag held by the channel; none where the code reads past the
      return address registers. */
  function SourceTag(c: Channel): Option<Channel>
  {
    match c.dmaTag.Id()
    case 0 => Some(DataAt(c).(tadr := Wrap(c.tadr + 16), tagExit := true))
    case 1 =>
      Some(DataAfter(c).(tadr := MakeAddr(AddrOf(c.tadr) + (c.dmaTag.Qwc() + 1) * 16, SprOf(c.tadr))))
    case 2 => Some(DataAfter(c).(tadr := TagTarget(c)))
    case 3 => Some(DataAt(c).(tadr := Wrap(c.tadr + 16)))
    case 4 => Some(DataAt(c).(tadr := Wrap(c.tadr + 16), tagStall := true))
    case 5 => Some(CallTag(c))
    case 6 => RetTag(c)
    case _ => Some(DataAfter(c).(tagExit := true))
  }

  /** Reads the tag at TADR, transfers it if enabled, and executes it. */
  function SourceTagStep(r: Registers, c: Channel, m: Memory, v: FifoView): Effect
  {
    var q := ReadMem(m, BusAddress(AddrOf(c.tadr), SprOf(c.tadr)));
    if c.tte && v.free < 16 then Unchanged(r, c, m, Waiting)
    else
      var c' := SourceTag(c.(dmaTag := TagOf(q)));
      var pushed := if c.tte then [TransferredTag(q)] else [];
      if c'.None? then Effect(r, c.(dmaTag := TagOf(q)), m, pushed, false, Threw)
      else Effect(r, LatchTag(c'.value), m, pushed, false, Stepped)
  }

  /** Executes the destination chain tag held by the channel: CNTS, CNT or END. */
  function DestTag(c: Channel): Channel
  {
    var t := c.dmaTag;
    c.(qwc := t.Qwc(), madr := MakeAddr(t.Addr(), t.Spr()),
       tagStall := c.tagStall || t.Id() == 0,
       tagExit := c.tagExit || t.Id() == 7)
  }

  /** Reads a tag from the FIFO and executes it. */
  function DestTagStep(r: Registers, c: Channel, m: Memory, v: FifoView): Effect
  {
    if v.input.None? then Unchanged(r, c, m, Waiting)
    else
      var c' := c.(dmaTag := TagOf(v.input.value));
      if c.tte || c'.dmaTag.Id() !in {0, 1, 7} then Effect(r, c', m, [], true, Threw)
      else Effect(r, LatchTag(DestTag(c')), m, [], true, Stepped)
  }

  /** A step in chain mode. */
  function ChainStep(r: Registers, c: Channel, m: Memory, v: FifoView): Effect
  {
    if !c.started then Unchanged(r, c.(started := true), m, Stepped)
    else if c.qwc > 0 then DataStep(r, c, m, v, c.tagStall)
    else if (c.tie && c.tagIrq) || c.tagExit then Finish(r, c, m, v)
    else if c.direction.To? then SourceTagStep(r, c, m, v)
    else DestTagStep(r, c, m, v)
  }

  // ---------------------------------------------------------------- the fields are bitfields

  /** The fields used by tags and address registers. */
  lemma LowHalf(v: uword)
    ensures Bitfield(0, 16).ExtractFrom(v) == v % 0x1_0000
  {
    Powers();
    FieldAt(v, 0, 16, 1, 0x1_0000);
  }

  lemma HighHalf(v: uword)
    ensures Bitfield(16, 16).ExtractFrom(v) == v / 0x1_0000
  {
    Powers();
    FieldAt(v, 16, 16, 0x1_0000, 0x1_0000);
  }

  lemma TagId(v: uword)
    ensures Bitfield(28, 3).ExtractFrom(v) == v / 0x1000_0000 % 8
  {
    Powers();
    FieldAt(v, 28, 3, 0x1000_0000, 8);
  }

  lemma LowAddress(v: uword)
    ensures Bitfield(0, 31).ExtractFrom(v) == v % 0x8000_0000
  {
    Powers();
    FieldAt(v, 0, 31, 1, 0x8000_0000);
  }

  lemma TopBit(v: uword)
    ensures Bitfield(31, 1).ExtractFrom(v) == (if v >= 0x8000_0000 then 1 else 0)
  {
    Powers();
    FieldAt(v, 31, 1, 0x8000_0000, 2);
  }

  /** The tag accessors are the declared bitfields of the tag words. */
  lemma TagFieldsAreBitfields(t: Dmatag)
    ensures Bitfield(0, 16).ExtractFrom(t.tag0) == t.Qwc()
    ensures Bitfield(16, 16).ExtractFrom(t.tag0) == t.Tag()
    ensures Bitfield(28, 3).ExtractFrom(t.tag0) == t.Id()
    ensures Bitfield(31, 1).ExtractFrom(t.tag0) == (if t.Irq() then 1 else 0)
    ensures Bitfield(0, 31).ExtractFrom(t.tag1) == t.Addr()
    ensures Bitfield(31, 1).ExtractFrom(t.tag1) == (if t.Spr() then 1 else 0)
  {
    LowHalf(t.tag0);
    HighHalf(t.tag0);
    TagId(t.tag0);
    TopBit(t.tag0);
    LowAddress(t.tag1);
    TopBit(t.tag1);
  }

  /** Masking with a shifted run of ones, for given powers. */
  lemma MaskAt(v: nat, start: nat, len: nat, p: nat, l: nat, mask: nat)
    requires Pow2(start) == p && Pow2(len) == l && mask == (l - 1) * p
    ensures And(v, mask) == v / p % l * p
  {
    AndShiftedMask(v, start, len);
  }

  /** The address masks 0x1FFFFFF0 and 0x3FF0 keep the quadword-aligned part of an address. */
  lemma AddressMask(address: nat)
    ensures And(address, 0x1FFF_FFF0) == address % 0x2000_0000 / 16 * 16
  {
    Powers();
    MaskAt(address, 4, 25, 16, 0x200_0000, 0x1FFF_FFF0);
    DivDiv(address, 16, 0x200_0000);
  }

  lemma ScratchpadMask(address: nat)
    ensures And(address, 0x3FF0) == address % 0x4000 / 16 * 16
  {
    Powers();
    MaskAt(address, 4, 10, 16, 0x400, 0x3FF0);
    DivDiv(address, 16, 0x400);
  }
}
