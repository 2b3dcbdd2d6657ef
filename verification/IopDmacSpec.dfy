/** One chain mode step of an IOP DMAC channel, as a function of the channel, the IOP memory and
    what the channel sees of its FIFO. */
module IopDmacSpec {
  import opened Wrappers
  import opened Words
  import opened Bits
  import opened BitfieldModel
  import opened EeDmacSpec

  /** An IOP DMA tag: the low two words of a tag quadword. */
  datatype IopDmatag = IopDmatag(tag0: uword, tag1: uword) {
    function Addr(): uword { tag0 % 0x100_0000 }
    function Irq(): bool { tag0 / 0x4000_0000 % 2 == 1 }
    function Ert(): bool { tag0 >= 0x8000_0000 }
    function Length(): nat { tag1 % 0x100_0000 }
  }

  const BLANK_IOP_TAG := IopDmatag(0, 0)

  /** Source tag lengths are rounded up to whole quadwords: (length + 3) & 0xFFFFC words. */
  function RoundedLength(length: nat): nat { (length + 3) % 0x10_0000 / 4 * 4 }

  type IopMemory = map<nat, uword>

  function ReadWord(mem: IopMemory, address: nat): uword
  {
    if address in mem then mem[address] else 0
  }

  /** The tag at an address is read as four words. */
  function ReadTag(mem: IopMemory, tadr: uword): Qword
  {
    Qword(ReadWord(mem, tadr), ReadWord(mem, Wrap(tadr + 4)), ReadWord(mem, Wrap(tadr + 8)),
          ReadWord(mem, Wrap(tadr + 12)))
  }

  /** A channel: decoded CHCR fields, run-time flags, addresses and the words left of the tag;
      `iqe` is its tag interrupt enable and `tci` its transfer complete bit. */
  datatype IopChannel = IopChannel(
    direction: Direction, ce: bool, mas: bool, start: bool,
    madr: uword, tadr: uword, length: nat, started: bool, dmaTag: IopDmatag, iqe: bool, tci: bool)

  /** What the channel sees of its FIFO: free bytes, emptiness, the first word and the first
      quadword if as many bytes are queued. */
  datatype IopView = IopView(free: nat, empty: bool, word: Option<uword>, qword: Option<Qword>)

  /** `consumed` is the number of bytes read from the FIFO. */
  datatype IopEffect = IopEffect(ch: IopChannel, mem: IopMemory, pushed: seq<ubyte>, consumed: nat, outcome: Outcome)

  function Kept(c: IopChannel, m: IopMemory, outcome: Outcome): IopEffect
  {
    IopEffect(c, m, [], 0, outcome)
  }

  /** MADR moves up or down by a word, and a word of the tag is done. */
  function AdvanceWord(c: IopChannel): IopChannel
    requires c.length > 0
  {
    c.(madr := Wrap(if c.mas then c.madr - 4 else c.madr + 4), length := c.length - 1)
  }

  function TransferWord(c: IopChannel, m: IopMemory, v: IopView): IopEffect
    requires c.length > 0
  {
    if c.direction.From? then
      if v.word.None? then Kept(c, m, Waiting)
      else IopEffect(AdvanceWord(c), m[c.madr := v.word.value], [], 4, Stepped)
    else if v.free < 4 then Kept(c, m, Waiting)
    else IopEffect(AdvanceWord(c), m, WordBytes(ReadWord(m, c.madr)), 0, Stepped)
  }

  predicate Stops(t: IopDmatag, iqe: bool) { (iqe && t.Irq()) || t.Ert() }

  /** Sends the upper half of the tag at TADR, which is the EE's tag, and sets up its transfer.
      Without tag transfer the code throws after having set everything up. */
  function IopSourceTag(c: IopChannel, m: IopMemory, v: IopView): IopEffect
  {
    var q := ReadTag(m, c.tadr);
    var t := IopDmatag(q.uw0, q.uw1);
    var c' := c.(dmaTag := t, length := RoundedLength(t.Length()), tadr := Wrap(c.tadr + 16));
    if !c.ce then IopEffect(c', m, [], 0, Threw)
    else if v.free < 16 then Kept(c, m, Waiting)
    else IopEffect(c'.(madr := t.Addr()), m, QwordBytes(TransferredTag(q)), 0, Stepped)
  }

  function IopDestTag(c: IopChannel, m: IopMemory, v: IopView): IopEffect
  {
    if v.qword.None? then Kept(c, m, Waiting)
    else
      var t := IopDmatag(v.qword.value.uw0, v.qword.value.uw1);
      var c' := c.(dmaTag := t, length := t.Length());
      if !c.ce then IopEffect(c', m, [], 16, Threw)
      else IopEffect(c'.(madr := t.Addr()), m, [], 16, Stepped)
  }

  function IopChainStep(c: IopChannel, m: IopMemory, v: IopView): IopEffect
  {
    if !c.started then Kept(c.(length := 0, started := true), m, Stepped)
    else if c.length > 0 then TransferWord(c, m, v)
    else if Stops(c.dmaTag, c.iqe) then
      if c.direction.To? && !v.empty then Kept(c, m, Waiting)
      else Kept(c.(start := false, tci := true), m, Stepped)
    else if c.direction.To? then IopSourceTag(c, m, v)
    else IopDestTag(c, m, v)
  }

  lemma LowTwentyFour(v: uword)
    ensures Bitfield(0, 24).ExtractFrom(v) == v % 0x100_0000
  {
    assert Pow2(12) == 0x1000;
    Pow2Add(12, 12);
    FieldAt(v, 0, 24, 1, 0x100_0000);
  }

  lemma BitThirty(v: uword)
    ensures Bitfield(30, 1).ExtractFrom(v) == v / 0x4000_0000 % 2
  {
    Powers();
    Pow2Add(25, 5);
    FieldAt(v, 30, 1, 0x4000_0000, 2);
  }

  /** The tag accessors are the declared bitfields of the tag words. */
  lemma IopTagFieldsAreBitfields(t: IopDmatag)
    ensures Bitfield(0, 24).ExtractFrom(t.tag0) == t.Addr() && Bitfield(0, 24).ExtractFrom(t.tag1) == t.Length()
    ensures Bitfield(30, 1).ExtractFrom(t.tag0) == (if t.Irq() then 1 else 0)
    ensures Bitfield(31, 1).ExtractFrom(t.tag0) == (if t.Ert() then 1 else 0)
  {
    LowTwentyFour(t.tag0);
    LowTwentyFour(t.tag1);
    BitThirty(t.tag0);
    TopBit(t.tag0);
  }

  /** The rounding of lengths is the mask 0xFFFFC. */
  lemma LengthMask(length: nat)
    ensures And(length + 3, 0xF_FFFC) == RoundedLength(length)
  {
    Pow2Add(9, 9);
    assert Pow2(18) == 0x4_0000 && Pow2(2) == 4;
    MaskAt(length + 3, 2, 18, 4, 0x4_0000, 0xF_FFFC);
    DivDiv(length + 3, 4, 0x4_0000);
  }
}
