/** The EE DMA controller: its channels and shared registers, updated in place step by step. */
module EeDmac {
  import opened Wrappers
  import opened Words
  import opened DmaFifo
  import opened EeDmacSpec

  class EeDmacChannel {
    const id: nat
    const dmaFifoQueue: DmaFifoQueue

    // The direction of a channel whose CHCR is a To or From register.
    const wired: Option<Direction>

    // CHCR fields.
    var direction: Direction
    var tte: bool
    var tie: bool
    var str: bool
    var asp: nat
    var tag: nat

    // Run-time state of the transfer.
    var dmaStarted: bool
    var tagExit: bool
    var tagStall: bool
    var tagIrq: bool
    var dmaTag: Dmatag

    // The other channel registers.
    var madr: uword
    var qwc: uword
    var tadr: uword
    var asr: seq<uword>
    var sadr: uword

    constructor (id: nat, fifo: DmaFifoQueue, wired: Option<Direction>)
      ensures this.id == id && dmaFifoQueue == fifo && this.wired == wired && !str && View().asr == [0, 0]
    {
      this.id, dmaFifoQueue, this.wired := id, fifo, wired;
      direction, tte, tie, str, asp, tag := From, false, false, false, 0, 0;
      dmaStarted, tagExit, tagStall, tagIrq, dmaTag := false, false, false, false, BLANK_TAG;
      madr, qwc, tadr, asr, sadr := 0, 0, 0, [0, 0], 0;
    }

    /** The channel as a value. */
    ghost function View(): Channel
      reads this
    {
      Channel(id, direction, tte, tie, str, asp, tag, madr, qwc, tadr, asr, sadr,
              dmaStarted, tagExit, tagStall, tagIrq, dmaTag)
    }

    /** A write of CHCR: the run-time state is reset exactly when the channel goes from suspended
        to started. The To and From registers force their direction. */
    method WriteChcr(dir: Direction, newTte: bool, newTie: bool, newStr: bool, newAsp: nat, newTag: nat)
      modifies this
      ensures
        var forced := if wired.Some? then wired.value else dir;
        var c := old(View()).(direction := forced, tte := newTte, tie := newTie, str := newStr, asp := newAsp, tag := newTag);
        View() == if !old(str) && newStr
          then c.(started := false, tagExit := false, tagStall := false, tagIrq := false, dmaTag := BLANK_TAG)
          else c
    {
      var startOld := str;
      WriteFields(if wired.Some? then wired.value else dir, newTte, newTie, newStr, newAsp, newTag);
      if !startOld && newStr {
        ResetTransfer();
      }
    }

    method WriteFields(dir: Direction, newTte: bool, newTie: bool, newStr: bool, newAsp: nat, newTag: nat)
      modifies `direction, `tte, `tie, `str, `asp, `tag
      ensures direction == dir && tte == newTte && tie == newTie && str == newStr && asp == newAsp && tag == newTag
    {
      direction, tte, tie, str, asp, tag := dir, newTte, newTie, newStr, newAsp, newTag;
    }

    method ResetTransfer()
      modifies `dmaStarted, `tagExit, `tagStall, `tagIrq, `dmaTag
      ensures !dmaStarted && !tagExit && !tagStall && !tagIrq && dmaTag == BLANK_TAG
    {
      dmaStarted, tagExit, tagStall, tagIrq, dmaTag := false, false, false, false, BLANK_TAG;
    }
  }

  /** What a channel sees of a FIFO with these bytes queued. */
  function Look(fifo: seq<ubyte>): FifoView
  {
    FifoView(if |fifo| <= CAPACITY then CAPACITY - |fifo| else 0, |fifo| == 0,
             if |fifo| >= 16 then Some(QwordOf(fifo[..16])) else None)
  }

  /** The FIFO after an effect on it. */
  function FifoAfter(fifo: seq<ubyte>, e: Effect): seq<ubyte>
    requires e.consumed ==> |fifo| >= 16
  {
    (if e.consumed then fifo[16..] else fifo) + QwordStream(e.pushed)
  }

  lemma OneQword(q: Qword)
    ensures QwordStream([q]) == QwordBytes(q)
  {
    assert [q][1..] == [];
  }

  class EeDmac {
    var regs: Registers
    var memory: Memory

    constructor (regs: Registers, memory: Memory)
      ensures this.regs == regs && this.memory == memory
    {
      this.regs, this.memory := regs, memory;
    }

    ghost predicate Ready(ch: EeDmacChannel)
      reads ch.dmaFifoQueue
    {
      ch.dmaFifoQueue.Valid()
    }

    /** The state of the controller, the channel and its FIFO is the given effect of an earlier one. */
    twostate predicate Performed(ch: EeDmacChannel, e: Effect, outcome: Outcome)
      reads this, ch, ch.dmaFifoQueue
    {
      && regs == e.regs && memory == e.mem && ch.View() == e.ch && outcome == e.outcome
      && (e.consumed ==> |old(ch.dmaFifoQueue.fifo)| >= 16)
      && ch.dmaFifoQueue.fifo == FifoAfter(old(ch.dmaFifoQueue.fifo), e)
      && ch.dmaFifoQueue.Valid()
    }

    method SetStateSuspended(ch: EeDmacChannel)
      modifies this, ch
      ensures regs == old(regs).(cis := old(regs.cis) + {ch.id}) && memory == old(memory)
      ensures ch.View() == old(ch.View()).(str := false)
    {
      regs := regs.(cis := regs.cis + {ch.id});
      ch.str := false;
    }

    /** Reads a quadword from the FIFO whose availability has been checked. */
    method PopQword(fifo: DmaFifoQueue) returns (packet: Qword)
      requires fifo.Valid() && |fifo.fifo| >= 16
      modifies fifo
      ensures fifo.Valid() && packet == QwordOf(old(fifo.fifo)[..16]) && fifo.fifo == old(fifo.fifo)[16..]
    {
      var ok, bytes := fifo.Read(16);
      assert bytes == old(fifo.fifo)[..16];
      packet := QwordOf(bytes);
    }

    /** Writes a quadword to the FIFO whose free space has been checked. */
    method PushQword(fifo: DmaFifoQueue, packet: Qword)
      requires fifo.Valid() && |fifo.fifo| + 16 <= CAPACITY
      modifies fifo
      ensures fifo.Valid() && fifo.fifo == old(fifo.fifo) + QwordStream([packet])
    {
      OneQword(packet);
      var ok := fifo.Write(QwordBytes(packet));
    }

    /** Copies a quadword between memory and the scratchpad. */
    method CopyScratchpad(ch: EeDmacChannel)
      modifies this`memory, ch`sadr
      ensures
        var (address, spr) := (DataAddress(ch.madr), BusAddress(SprAddress(old(ch.sadr)), true));
        && memory == (if ch.direction.From? then old(memory)[address := ReadMem(old(memory), spr)]
                      else old(memory)[spr := ReadMem(old(memory), address)])
        && ch.sadr == Wrap(old(ch.sadr) + 16)
    {
      var address := DataAddress(ch.madr);
      var sprAddress := BusAddress(SprAddress(ch.sadr), true);
      if ch.direction.From? {
        memory := memory[address := ReadMem(memory, sprAddress)];
      } else {
        memory := memory[sprAddress := ReadMem(memory, address)];
      }
      ch.sadr := Wrap(ch.sadr + 16);
    }

    method Advance(ch: EeDmacChannel)
      modifies ch`madr, ch`qwc
      ensures ch.View() == EeDmacSpec.Advance(old(ch.View()))
    {
      ch.madr := Wrap(ch.madr + 16);
      ch.qwc := Wrap(ch.qwc - 1);
    }

    method TransferScratchpad(ch: EeDmacChannel)
      requires Ready(ch)
      modifies this`memory, ch`madr, ch`qwc, ch`sadr
      ensures Performed(ch, ScratchpadTransfer(regs, old(ch.View()), old(memory)), Stepped)
    {
      CopyScratchpad(ch);
      Advance(ch);
    }

    /** Moves a quadword between memory and the FIFO if the FIFO is ready. */
    method MoveThroughFifo(ch: EeDmacChannel) returns (moved: bool)
      requires Ready(ch)
      modifies this`memory, ch.dmaFifoQueue
      ensures
        var e := FifoTransfer(regs, ch.View(), old(memory), Look(old(ch.dmaFifoQueue.fifo)));
        && moved == e.outcome.Stepped? && memory == e.mem && ch.dmaFifoQueue.Valid()
        && (e.consumed ==> |old(ch.dmaFifoQueue.fifo)| >= 16)
        && ch.dmaFifoQueue.fifo == FifoAfter(old(ch.dmaFifoQueue.fifo), e)
    {
      var bus := BusAddress(DataAddress(ch.madr), SprOf(ch.madr));
      if ch.direction.From? {
        if !ch.dmaFifoQueue.HasReadAvailable(16) {
          return false;
        }
        var packet := PopQword(ch.dmaFifoQueue);
        memory := memory[bus := packet];
      } else {
        if !ch.dmaFifoQueue.HasWriteAvailable(16) {
          return false;
        }
        PushQword(ch.dmaFifoQueue, ReadMem(memory, bus));
      }
      moved := true;
    }

    method TransferFifo(ch: EeDmacChannel) returns (outcome: Outcome)
      requires Ready(ch)
      modifies this`memory, ch`madr, ch`qwc, ch.dmaFifoQueue
      ensures Performed(ch, FifoTransfer(regs, old(ch.View()), old(memory), Look(old(ch.dmaFifoQueue.fifo))), outcome)
    {
      var moved := MoveThroughFifo(ch);
      if !moved {
        return Waiting;
      }
      Advance(ch);
      outcome := Stepped;
    }

    method TransferData(ch: EeDmacChannel) returns (outcome: Outcome)
      requires Ready(ch)
      modifies this`memory, ch`madr, ch`qwc, ch`sadr, ch.dmaFifoQueue
      ensures Performed(ch, EeDmacSpec.TransferData(old(regs), old(ch.View()), old(memory),
                                                    Look(old(ch.dmaFifoQueue.fifo))), outcome)
    {
      if ch.id == 8 || ch.id == 9 {
        TransferScratchpad(ch);
        outcome := Stepped;
      } else {
        outcome := TransferFifo(ch);
      }
    }

    method FinishTransfer(ch: EeDmacChannel) returns (outcome: Outcome)
      requires Ready(ch)
      modifies this, ch
      ensures Performed(ch, Finish(old(regs), old(ch.View()), old(memory), Look(old(ch.dmaFifoQueue.fifo))), outcome)
    {
      if ch.direction.To? && ch.id != 9 {
        if !ch.dmaFifoQueue.IsEmpty() {
          return Waiting;
        }
      }
      SetStateSuspended(ch);
      outcome := Stepped;
    }

    method TransferNormal(ch: EeDmacChannel) returns (outcome: Outcome)
      requires Ready(ch)
      modifies this, ch, ch.dmaFifoQueue
      ensures Performed(ch, NormalStep(old(regs), old(ch.View()), old(memory),
                                       Look(old(ch.dmaFifoQueue.fifo))), outcome)
    {
      if !ch.dmaStarted {
        if ch.qwc == 0 {
          return Threw;
        }
        ch.dmaStarted := true;
        return Stepped;
      }
      if ch.qwc == 0 {
        outcome := FinishTransfer(ch);
        return;
      }
      outcome := DataCycle(ch, true);
    }

    method TransferChain(ch: EeDmacChannel) returns (outcome: Outcome)
      requires Ready(ch)
      modifies this, ch, ch.dmaFifoQueue
      ensures Performed(ch, ChainStep(old(regs), old(ch.View()), old(memory),
                                      Look(old(ch.dmaFifoQueue.fifo))), outcome)
    {
      if !ch.dmaStarted {
        ch.dmaStarted := true;
        return Stepped;
      }
      if ch.qwc > 0 {
        outcome := DataCycle(ch, ch.tagStall);
        return;
      }
      if (ch.tie && ch.tagIrq) || ch.tagExit {
        outcome := FinishTransfer(ch);
        return;
      }
      if ch.direction.To? {
        outcome := SourceTagCycle(ch);
      } else {
        outcome := DestTagCycle(ch);
      }
    }

    /** Moves the next quadword, subject to stall control where it applies. */
    method DataCycle(ch: EeDmacChannel, gated: bool) returns (outcome: Outcome)
      requires Ready(ch)
      modifies this, ch, ch.dmaFifoQueue
      ensures Performed(ch, DataStep(old(regs), old(ch.View()), old(memory),
                                     Look(old(ch.dmaFifoQueue.fifo)), gated), outcome)
    {
      ghost var (r, c, m, v) := (regs, ch.View(), memory, Look(ch.dmaFifoQueue.fifo));
      if DrainStallControlOn(ch) && DrainStallControlWaiting(ch) && gated {
        regs := regs.(sis := true);
        assert DataStep(r, c, m, v, gated) == Unchanged(r.(sis := true), c, m, Waiting);
        return Waiting;
      }
      ghost var e := EeDmacSpec.TransferData(r, c, m, v);
      outcome := TransferData(ch);
      if outcome.Stepped? && SourceStallControlOn(ch) && gated {
        regs := regs.(stadr := AddrOf(ch.madr));
        e := UpdateStadr(e);
      }
      assert DataStep(r, c, m, v, gated) == e;
    }

    /** Reads and executes the next source chain tag. */
    method SourceTagCycle(ch: EeDmacChannel) returns (outcome: Outcome)
      requires Ready(ch)
      modifies this, ch, ch.dmaFifoQueue
      ensures Performed(ch, SourceTagStep(old(regs), old(ch.View()), old(memory),
                                          Look(old(ch.dmaFifoQueue.fifo))), outcome)
    {
      outcome := ReadChainSourceTag(ch);
      if outcome.Stepped? {
        outcome := ExecuteSourceTag(ch);
        if outcome.Stepped? {
          LatchTag(ch);
        }
      }
    }

    /** Reads and executes the next destination chain tag. */
    method DestTagCycle(ch: EeDmacChannel) returns (outcome: Outcome)
      requires Ready(ch)
      modifies this, ch, ch.dmaFifoQueue
      ensures Performed(ch, DestTagStep(old(regs), old(ch.View()), old(memory),
                                        Look(old(ch.dmaFifoQueue.fifo))), outcome)
    {
      outcome := ReadChainDestTag(ch);
      if outcome.Stepped? {
        outcome := ExecuteDestTag(ch);
        if outcome.Stepped? {
          LatchTag(ch);
        }
      }
    }

    /** Sets the IRQ flag and CHCR.TAG from the tag read. */
    method LatchTag(ch: EeDmacChannel)
      modifies ch
      ensures ch.View() == EeDmacSpec.LatchTag(old(ch.View()))
    {
      ch.tagIrq := ch.dmaTag.Irq();
      ch.tag := ch.dmaTag.Tag();
    }

    predicate SourceStallControlOn(ch: EeDmacChannel)
      reads this, ch
    {
      ch.direction.From? && regs.sts < 4 && ch.id == STS_MAP[regs.sts]
    }

    predicate DrainStallControlOn(ch: EeDmacChannel)
      reads this, ch
    {
      ch.direction.To? && regs.std < 4 && ch.id == STD_MAP[regs.std]
    }

    predicate DrainStallControlWaiting(ch: EeDmacChannel)
      reads this, ch
    {
      ch.direction.To? && AddrOf(ch.madr) + 8 > regs.stadr
    }

    /** Reads the tag at TADR and puts its upper half into the FIFO if tag transfer is enabled. */
    method ReadChainSourceTag(ch: EeDmacChannel) returns (outcome: Outcome)
      requires Ready(ch)
      modifies ch, ch.dmaFifoQueue
      ensures
        var q := ReadMem(memory, BusAddress(AddrOf(old(ch.tadr)), SprOf(old(ch.tadr))));
        var fifo := old(ch.dmaFifoQueue.fifo);
        && ch.dmaFifoQueue.Valid()
        && (outcome.Waiting? <==> ch.tte && |fifo| + 16 > CAPACITY)
        && !outcome.Threw?
        && ch.View() == (if outcome.Waiting? then old(ch.View()) else old(ch.View()).(dmaTag := TagOf(q)))
        && ch.dmaFifoQueue.fifo ==
           (if outcome.Waiting? || !ch.tte then fifo else fifo + QwordStream([TransferredTag(q)]))
    {
      var tag := ReadMem(memory, BusAddress(AddrOf(ch.tadr), SprOf(ch.tadr)));
      if ch.tte {
        if !ch.dmaFifoQueue.HasWriteAvailable(16) {
          return Waiting;
        }
        PushQword(ch.dmaFifoQueue, Qword(tag.uw2, tag.uw3, 0, 0));
      }
      ch.dmaTag := Dmatag(tag.uw0, tag.uw1);
      outcome := Stepped;
    }

    /** The source chain tag handlers. */
    method ExecuteSourceTag(ch: EeDmacChannel) returns (outcome: Outcome)
      modifies ch
      ensures
        var next := SourceTag(old(ch.View()));
        && (outcome == if next.Some? then Stepped else Threw)
        && ch.View() == if next.Some? then next.value else old(ch.View())
    {
      outcome := Stepped;
      match ch.dmaTag.Id() {
        case 0 => ChainSrcRefe(ch);
        case 1 => ChainSrcCnt(ch);
        case 2 => ChainSrcNext(ch);
        case 3 => ChainSrcRef(ch);
        case 4 => ChainSrcRefs(ch);
        case 5 => ChainSrcCall(ch);
        case 6 =>
          if 0 < ch.asp && ch.asp >= |ch.asr| {
            return Threw;
          }
          ChainSrcRet(ch);
        case _ => ChainSrcEnd(ch);
      }
    }

    /** QWC and MADR for data that follows the tag. */
    method DataAfterTag(ch: EeDmacChannel)
      modifies ch`qwc, ch`madr
      ensures ch.View() == DataAfter(old(ch.View()))
    {
      ch.qwc := ch.dmaTag.Qwc();
      ch.madr := MakeAddr(AddrOf(ch.tadr) + 0x10, SprOf(ch.tadr));
    }

    /** QWC and MADR for data at the tag's address. */
    method DataAtTag(ch: EeDmacChannel)
      modifies ch`qwc, ch`madr
      ensures ch.View() == DataAt(old(ch.View()))
    {
      ch.qwc := ch.dmaTag.Qwc();
      ch.madr := MakeAddr(ch.dmaTag.Addr(), ch.dmaTag.Spr());
    }

    method ChainSrcCnt(ch: EeDmacChannel)
      requires ch.dmaTag.Id() == 1
      modifies ch`qwc, ch`madr, ch`tadr
      ensures Some(ch.View()) == SourceTag(old(ch.View()))
    {
      DataAfterTag(ch);
      ch.tadr := MakeAddr(AddrOf(ch.tadr) + (ch.dmaTag.Qwc() + 1) * 0x10, SprOf(ch.tadr));
    }

    method ChainSrcNext(ch: EeDmacChannel)
      requires ch.dmaTag.Id() == 2
      modifies ch`qwc, ch`madr, ch`tadr
      ensures Some(ch.View()) == SourceTag(old(ch.View()))
    {
      DataAfterTag(ch);
      ch.tadr := MakeAddr(ch.dmaTag.Addr(), ch.dmaTag.Spr());
    }

    method ChainSrcRef(ch: EeDmacChannel)
      requires ch.dmaTag.Id() == 3
      modifies ch`qwc, ch`madr, ch`tadr
      ensures Some(ch.View()) == SourceTag(old(ch.View()))
    {
      DataAtTag(ch);
      ch.tadr := Wrap(ch.tadr + 16);
    }

    method ChainSrcRefs(ch: EeDmacChannel)
      requires ch.dmaTag.Id() == 4
      modifies ch`qwc, ch`madr, ch`tadr, ch`tagStall
      ensures Some(ch.View()) == SourceTag(old(ch.View()))
    {
      ch.tagStall := true;
      DataAtTag(ch);
      ch.tadr := Wrap(ch.tadr + 16);
    }

    method ChainSrcRefe(ch: EeDmacChannel)
      requires ch.dmaTag.Id() == 0
      modifies ch`qwc, ch`madr, ch`tadr, ch`tagExit
      ensures Some(ch.View()) == SourceTag(old(ch.View()))
    {
      DataAtTag(ch);
      ch.tadr := Wrap(ch.tadr + 16);
      ch.tagExit := true;
    }

    method JumpToTag(ch: EeDmacChannel)
      modifies ch`qwc, ch`madr, ch`tadr
      ensures ch.View() == Jumped(old(ch.View()))
    {
      DataAfterTag(ch);
      ch.tadr := MakeAddr(ch.dmaTag.Addr(), ch.dmaTag.Spr());
    }

    /** Pushes the address after TADR, which has already been overwritten with the target. */
    method PushReturn(ch: EeDmacChannel)
      requires ch.asp < |ch.asr|
      modifies ch`asr, ch`asp
      ensures ch.View() == Pushed(old(ch.View()))
    {
      ch.asr := ch.asr[ch.asp := MakeAddr(AddrOf(ch.tadr) + 0x10, SprOf(ch.tadr))];
      ch.asp := ch.asp + 1;
    }

    method ChainSrcCall(ch: EeDmacChannel)
      requires ch.dmaTag.Id() == 5
      modifies ch`qwc, ch`madr, ch`tadr, ch`tagExit, ch`asr, ch`asp
      ensures ch.View() == CallTag(old(ch.View()))
    {
      JumpToTag(ch);
      if ch.asp >= |ch.asr| {
        ch.tagExit := true;
      } else {
        PushReturn(ch);
      }
    }

    /** Pops the return address stack into TADR; the second insertion goes to the address field too,
        where it stores the scratchpad bit. */
    method PopReturn(ch: EeDmacChannel)
      requires 0 < ch.asp < |ch.asr|
      modifies ch`tadr, ch`asp
      ensures
        var c := old(ch.View());
        ch.View() == c.(tadr := MakeAddr(if SprOf(c.asr[c.asp]) then 1 else 0, SprOf(c.tadr)), asp := c.asp - 1)
    {
      var popped := ch.asr[ch.asp];
      ch.tadr := MakeAddr(AddrOf(popped), SprOf(ch.tadr));
      ch.tadr := MakeAddr(if SprOf(popped) then 1 else 0, SprOf(ch.tadr));
      ch.asp := ch.asp - 1;
    }

    method ChainSrcRet(ch: EeDmacChannel)
      requires ch.dmaTag.Id() == 6 && (ch.asp == 0 || ch.asp < |ch.asr|)
      modifies ch`qwc, ch`madr, ch`tadr, ch`tagExit, ch`asp
      ensures Some(ch.View()) == RetTag(old(ch.View()))
    {
      if ch.asp == 0 {
        ch.tagExit := true;
      } else {
        PopReturn(ch);
      }
      DataAfterTag(ch);
    }

    method ChainSrcEnd(ch: EeDmacChannel)
      requires ch.dmaTag.Id() == 7
      modifies ch`qwc, ch`madr, ch`tagExit
      ensures Some(ch.View()) == SourceTag(old(ch.View()))
    {
      DataAfterTag(ch);
      ch.tagExit := true;
    }

    /** Reads a tag from the FIFO. Transferring destination tags is not implemented and throws. */
    method ReadChainDestTag(ch: EeDmacChannel) returns (outcome: Outcome)
      requires Ready(ch)
      modifies ch, ch.dmaFifoQueue
      ensures
        var fifo := old(ch.dmaFifoQueue.fifo);
        && ch.dmaFifoQueue.Valid()
        && (outcome.Waiting? <==> |fifo| < 16)
        && (outcome.Threw? <==> |fifo| >= 16 && ch.tte)
        && ch.View() == (if outcome.Waiting? then old(ch.View())
                         else old(ch.View()).(dmaTag := TagOf(QwordOf(fifo[..16]))))
        && ch.dmaFifoQueue.fifo == (if outcome.Waiting? then fifo else fifo[16..])
    {
      if !ch.dmaFifoQueue.HasReadAvailable(16) {
        return Waiting;
      }
      var tag := PopQword(ch.dmaFifoQueue);
      ch.dmaTag := Dmatag(tag.uw0, tag.uw1);
      if ch.tte {
        return Threw;
      }
      outcome := Stepped;
    }

    /** The destination chain tag handlers: CNTS, CNT and END; every other tag throws. */
    method ExecuteDestTag(ch: EeDmacChannel) returns (outcome: Outcome)
      modifies ch
      ensures outcome == if old(ch.dmaTag).Id() in {0, 1, 7} then Stepped else Threw
      ensures ch.View() == if outcome.Stepped? then DestTag(old(ch.View())) else old(ch.View())
    {
      var t := ch.dmaTag;
      if t.Id() != 0 && t.Id() != 1 && t.Id() != 7 {
        return Threw;
      }
      if t.Id() == 0 {
        ch.tagStall := true;
      }
      ch.qwc := t.Qwc();
      ch.madr := MakeAddr(t.Addr(), t.Spr());
      if t.Id() == 7 {
        ch.tagExit := true;
      }
      outcome := Stepped;
    }
  }
}
