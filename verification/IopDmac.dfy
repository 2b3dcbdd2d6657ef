/** The IOP DMA controller's chain mode, updated in place step by step. */
module IopDmac {
  import opened Wrappers
  import opened Words
  import opened DmaFifo
  import opened EeDmacSpec
  import opened IopDmacSpec

  class IopDmacChannel {
    const dmaFifoQueue: DmaFifoQueue

    // The direction of a channel whose CHCR is a To or From register.
    const wired: Option<Direction>

    var direction: Direction
    var ce: bool
    var mas: bool
    var start: bool
    var iqe: bool
    var tci: bool
    var dmaStarted: bool
    var dmaTag: IopDmatag
    var madr: uword
    var tadr: uword
    var transferLength: nat

    constructor (fifo: DmaFifoQueue, wired: Option<Direction>)
      ensures dmaFifoQueue == fifo && this.wired == wired && !start
    {
      dmaFifoQueue, this.wired := fifo, wired;
      direction, ce, mas, start, iqe, tci := To, false, false, false, false, false;
      dmaStarted, dmaTag, madr, tadr, transferLength := false, BLANK_IOP_TAG, 0, 0, 0;
    }

    /** The channel as a value. */
    ghost function View(): IopChannel
      reads this
    {
      IopChannel(direction, ce, mas, start, madr, tadr, transferLength, dmaStarted, dmaTag, iqe, tci)
    }

    method WriteFields(dir: Direction, newCe: bool, newMas: bool, newStart: bool)
      modifies `direction, `ce, `mas, `start
      ensures direction == dir && ce == newCe && mas == newMas && start == newStart
    {
      direction, ce, mas, start := dir, newCe, newMas, newStart;
    }

    method ResetTransfer()
      modifies `dmaStarted, `dmaTag
      ensures !dmaStarted && dmaTag == BLANK_IOP_TAG
    {
      dmaStarted, dmaTag := false, BLANK_IOP_TAG;
    }

    /** A write of CHCR resets the run-time state exactly when the channel becomes started; the To
        and From registers force their direction. */
    method WriteChcr(dir: Direction, newCe: bool, newMas: bool, newStart: bool)
      modifies this
      ensures
        var forced := if wired.Some? then wired.value else dir;
        var c := old(View()).(direction := forced, ce := newCe, mas := newMas, start := newStart);
        View() == if !old(start) && newStart then c.(started := false, dmaTag := BLANK_IOP_TAG) else c
    {
      var startOld := start;
      WriteFields(if wired.Some? then wired.value else dir, newCe, newMas, newStart);
      if !startOld && newStart {
        ResetTransfer();
      }
    }
  }

  /** What a channel sees of a FIFO with these bytes queued. */
  function Look(fifo: seq<ubyte>): IopView
  {
    IopView(if |fifo| <= CAPACITY then CAPACITY - |fifo| else 0, |fifo| == 0,
            if |fifo| >= 4 then Some(WordOf(fifo[..4])) else None,
            if |fifo| >= 16 then Some(QwordOf(fifo[..16])) else None)
  }

  class IopDmac {
    var memory: IopMemory

    constructor (memory: IopMemory)
      ensures this.memory == memory
    {
      this.memory := memory;
    }

    /** The state of the controller, the channel and its FIFO is the given effect of an earlier one. */
    twostate predicate Performed(ch: IopDmacChannel, e: IopEffect, outcome: Outcome)
      reads this, ch, ch.dmaFifoQueue
    {
      && memory == e.mem && ch.View() == e.ch && outcome == e.outcome
      && e.consumed <= |old(ch.dmaFifoQueue.fifo)|
      && ch.dmaFifoQueue.fifo == old(ch.dmaFifoQueue.fifo)[e.consumed..] + e.pushed
      && ch.dmaFifoQueue.Valid()
    }

    method TransferData(ch: IopDmacChannel) returns (outcome: Outcome)
      requires ch.dmaFifoQueue.Valid() && ch.transferLength > 0
      modifies this, ch, ch.dmaFifoQueue
      ensures Performed(ch, TransferWord(old(ch.View()), old(memory), Look(old(ch.dmaFifoQueue.fifo))), outcome)
    {
      var address := ch.madr;
      if ch.direction.From? {
        if !ch.dmaFifoQueue.HasReadAvailable(4) {
          return Waiting;
        }
        var ok, bytes := ch.dmaFifoQueue.Read(4);
        assert bytes == old(ch.dmaFifoQueue.fifo)[..4];
        memory := memory[address := WordOf(bytes)];
      } else {
        if !ch.dmaFifoQueue.HasWriteAvailable(4) {
          return Waiting;
        }
        var packet := ReadWord(memory, address);
        var ok := ch.dmaFifoQueue.Write(WordBytes(packet));
      }
      ch.madr := Wrap(if ch.mas then ch.madr - 4 else ch.madr + 4);
      ch.transferLength := ch.transferLength - 1;
      outcome := Stepped;
    }

    method SetStateSuspended(ch: IopDmacChannel)
      modifies ch`start, ch`tci
      ensures !ch.start && ch.tci
    {
      ch.start := false;
      ch.tci := true;
    }

    method ReadChainSourceTag(ch: IopDmacChannel) returns (outcome: Outcome)
      requires ch.dmaFifoQueue.Valid()
      modifies this, ch, ch.dmaFifoQueue
      ensures Performed(ch, IopSourceTag(old(ch.View()), old(memory), Look(old(ch.dmaFifoQueue.fifo))), outcome)
    {
      var tag := ReadTag(memory, ch.tadr);
      if ch.ce {
        if !ch.dmaFifoQueue.HasWriteAvailable(16) {
          return Waiting;
        }
        var ok := ch.dmaFifoQueue.Write(QwordBytes(Qword(tag.uw2, tag.uw3, 0, 0)));
      }
      ch.dmaTag := IopDmatag(tag.uw0, tag.uw1);
      ch.transferLength := RoundedLength(ch.dmaTag.Length());
      ch.tadr := Wrap(ch.tadr + 16);
      if !ch.ce {
        return Threw;
      }
      ch.madr := ch.dmaTag.Addr();
      outcome := Stepped;
    }

    method ReadChainDestTag(ch: IopDmacChannel) returns (outcome: Outcome)
      requires ch.dmaFifoQueue.Valid()
      modifies this, ch, ch.dmaFifoQueue
      ensures Performed(ch, IopDestTag(old(ch.View()), old(memory), Look(old(ch.dmaFifoQueue.fifo))), outcome)
    {
      if !ch.dmaFifoQueue.HasReadAvailable(16) {
        return Waiting;
      }
      var ok, bytes := ch.dmaFifoQueue.Read(16);
      assert bytes == old(ch.dmaFifoQueue.fifo)[..16];
      var tag := QwordOf(bytes);
      ch.dmaTag := IopDmatag(tag.uw0, tag.uw1);
      ch.transferLength := ch.dmaTag.Length();
      if !ch.ce {
        return Threw;
      }
      ch.madr := ch.dmaTag.Addr();
      outcome := Stepped;
    }

    method TransferChain(ch: IopDmacChannel) returns (outcome: Outcome)
      requires ch.dmaFifoQueue.Valid()
      modifies this, ch, ch.dmaFifoQueue
      ensures Performed(ch, IopChainStep(old(ch.View()), old(memory), Look(old(ch.dmaFifoQueue.fifo))), outcome)
    {
      if !ch.dmaStarted {
        ch.transferLength := 0;
        ch.dmaStarted := true;
        return Stepped;
      }
      if ch.transferLength > 0 {
        outcome := TransferData(ch);
        return;
      }
      if (ch.iqe && ch.dmaTag.Irq()) || ch.dmaTag.Ert() {
        if ch.direction.To? && !ch.dmaFifoQueue.IsEmpty() {
          return Waiting;
        }
        SetStateSuspended(ch);
        return Stepped;
      }
      if ch.direction.To? {
        outcome := ReadChainSourceTag(ch);
      } else {
        outcome := ReadChainDestTag(ch);
      }
    }
  }
}
