/** The bounded byte queue between two DMA controllers. */
module DmaFifo {
  import opened Words

  /** Capacity in bytes of every DMA FIFO. */
  const CAPACITY: nat := 1024

  /** The FIFO queue. Popping an empty queue or pushing to a full one is an exception. */
  class DmaFifoQueue {
    var fifo: seq<ubyte>

    ghost predicate Valid()
      reads this
    {
      |fifo| <= CAPACITY
    }

    constructor ()
      ensures Valid() && fifo == []
    {
      fifo := [];
    }

    predicate HasReadAvailable(n: nat)
      reads this
    {
      |fifo| >= n
    }

    predicate HasWriteAvailable(n: nat)
      requires Valid()
      reads this
    {
      CAPACITY - |fifo| >= n
    }

    predicate IsEmpty()
      reads this
    {
      !HasReadAvailable(1)
    }

    /** Pops one byte; `ok` is false where the emulator throws. */
    method ReadUbyte() returns (ok: bool, data: ubyte)
      requires Valid()
      modifies this
      ensures Valid() && ok == (old(fifo) != [])
      ensures ok ==> old(fifo) == [data] + fifo
      ensures !ok ==> fifo == old(fifo)
    {
      if |fifo| == 0 {
        return false, 0;
      }
      ok, data := true, fifo[0];
      fifo := fifo[1..];
    }

    /** Pushes one byte; `ok` is false where the emulator throws. */
    method WriteUbyte(data: ubyte) returns (ok: bool)
      requires Valid()
      modifies this
      ensures Valid() && ok == (|old(fifo)| < CAPACITY)
      ensures fifo == if ok then old(fifo) + [data] else old(fifo)
    {
      ok := |fifo| < CAPACITY;
      if ok {
        fifo := fifo + [data];
      }
    }

    /** Reads bytes one by one. It throws exactly when too few are queued, after taking them all. */
    method Read(length: nat) returns (ok: bool, buffer: seq<ubyte>)
      requires Valid()
      modifies this
      ensures Valid() && ok == (|old(fifo)| >= length)
      ensures buffer + fifo == old(fifo)
      ensures ok ==> |buffer| == length
      ensures !ok ==> fifo == []
    {
      buffer := [];
      var i := 0;
      while i < length
        invariant 0 <= i <= length && |buffer| == i
        invariant Valid() && buffer + fifo == old(fifo)
      {
        var data;
        ok, data := ReadUbyte();
        if !ok {
          return;
        }
        buffer := buffer + [data];
        i := i + 1;
      }
      ok := true;
    }

    /** Writes bytes one by one. It throws exactly when they do not all fit, after filling the queue. */
    method Write(buffer: seq<ubyte>) returns (ok: bool)
      requires Valid()
      modifies this
      ensures Valid() && ok == (|old(fifo)| + |buffer| <= 1024)
      ensures ok ==> fifo == old(fifo) + buffer
      ensures !ok ==> |fifo| == CAPACITY && fifo == old(fifo) + buffer[..CAPACITY - |old(fifo)|]
    {
      var i := 0;
      while i < |buffer|
        invariant 0 <= i <= |buffer|
        invariant Valid() && fifo == old(fifo) + buffer[..i]
      {
        ok := WriteUbyte(buffer[i]);
        if !ok {
          return;
        }
        assert buffer[..i + 1] == buffer[..i] + [buffer[i]];
        i := i + 1;
      }
      assert buffer[..i] == buffer;
      ok := true;
    }
  }
}
