/** Progress of memory-to-FIFO transfers: they end while the peripheral drains and no stall holds. */
module SourceProgress {
  import opened Words
  import opened EeDmacSpec
  import opened SourceTransfer

  /** The channel's next quadword is held back by stall control. */
  predicate Stalled(s: State, chain: bool)
  {
    && s.ch.started && s.ch.qwc > 0 && (!chain || s.ch.tagStall)
    && DrainStallOn(s.regs, s.ch) && DrainWaiting(s.regs, s.ch)
  }

  /** A step of the channel or of a byte that changes more than the shared registers. */
  predicate Productive(m: Memory, chain: bool, s: State, s': State)
  {
    (Tick(m, chain, s, s') || Push(s, s') || Drain(s, s')) && s'.(regs := s.regs) != s
  }

  /** Work left: each byte for the stages it has still to pass, and the tags and states ahead. */
  function Measure(m: Memory, chain: bool, s: State, n: nat, tail: seq<Qword>): nat
  {
    48 * |ToSend(s.ch, m, chain, tail)| + 2 * |s.outbox| + |s.fifo| + Rank(s.ch, chain, n)
  }

  lemma SentBytes(a: seq<Qword>, b: seq<Qword>)
    ensures |a + b| == |a| + |b|
  {
  }

  lemma TickDecreases(m: Memory, chain: bool, s: State, s': State, n: nat, tail: seq<Qword>, n': nat, tail': seq<Qword>)
    requires Tick(m, chain, s, s') && s'.(regs := s.regs) != s
    requires
      var e := TickEffect(m, chain, s);
      && Advances(s.ch, e.ch, e.pushed, chain, n, n')
      && ToSend(s.ch, m, chain, tail) == e.pushed + ToSend(e.ch, m, chain, tail')
    ensures Measure(m, chain, s', n', tail') < Measure(m, chain, s, n, tail)
  {
    var e := TickEffect(m, chain, s);
    SentBytes(e.pushed, ToSend(e.ch, m, chain, tail'));
    assert |s'.outbox| == 16 * |e.pushed|;
  }

  lemma ProductiveDecreases(m: Memory, chain: bool, total: seq<ubyte>, s: State, s': State, n: nat, tail: seq<Qword>)
    returns (n': nat, tail': seq<Qword>)
    requires Conserved(m, chain, total, s, n, tail) && Productive(m, chain, s, s')
    ensures Conserved(m, chain, total, s', n', tail')
    ensures Measure(m, chain, s', n', tail') < Measure(m, chain, s, n, tail)
  {
    if Tick(m, chain, s, s') {
      n', tail' := TickConserves(m, chain, total, s, s', n, tail);
      TickDecreases(m, chain, s, s', n, tail, n', tail');
    } else {
      n', tail' := n, tail;
      ByteMovesConserve(m, chain, total, s, s', n, tail);
    }
  }

  /** A tag that is its own successor never ends a list. */
  lemma {:induction false} LoopIsOpen(m: Memory, tadr: uword, tte: bool, tie: bool, n: nat)
    requires
      var t := TagOf(ReadMem(m, BusAddress(AddrOf(tadr), SprOf(tadr))));
      !Closes(t, tie) && NextTag(t, tadr) == tadr
    ensures TagList(m, tadr, tte, tie, n).None?
  {
    if n == 0 {
    } else {
      LoopIsOpen(m, tadr, tte, tie, n - 1);
    }
  }

  lemma StatusWorks(r: Registers, c: Channel, m: Memory, v: FifoView, chain: bool)
    requires Sender(c, chain) && c.str && v.empty && (!c.started || (c.qwc == 0 && (!chain || LastTag(c))))
    ensures Step(r, c, m, v, chain).ch != c
  {
  }

  lemma DataWorks(r: Registers, c: Channel, m: Memory, v: FifoView, chain: bool)
    requires Sender(c, chain) && c.started && c.qwc > 0 && v.free >= 16
    requires !((!chain || c.tagStall) && DrainStallOn(r, c) && DrainWaiting(r, c))
    ensures Step(r, c, m, v, chain).ch != c
  {
    assert Step(r, c, m, v, chain) == DataStep(r, c, m, v, !chain || c.tagStall);
    assert Advance(c).qwc != c.qwc;
  }

  lemma TagWorks(r: Registers, c: Channel, m: Memory, v: FifoView, n: nat, tail: seq<Qword>)
    requires Sender(c, true) && c.str && c.started && c.qwc == 0 && !LastTag(c) && v.free >= 16
    requires Pending(c, m, true, n, tail)
    ensures Step(r, c, m, v, true).ch != c
  {
    var q := TagAt(c, m);
    TagListStarts(m, c.tadr, c.tte, c.tie, n, tail, q);
    TagEffect(r, c, m, v);
    var next := SourceTag(c.(dmaTag := TagOf(q))).value;
    TagExecuted(c, q, next);
    if LatchTag(next) == c {
      LoopIsOpen(m, c.tadr, c.tte, c.tie, n);
    }
  }

  lemma NeverStuck(m: Memory, chain: bool, total: seq<ubyte>, s: State, n: nat, tail: seq<Qword>) returns (s': State)
    requires Conserved(m, chain, total, s, n, tail) && s.ch.str && !Stalled(s, chain)
    ensures Productive(m, chain, s, s')
  {
    if s.outbox != [] {
      s' := s.(outbox := s.outbox[1..], fifo := s.fifo + [s.outbox[0]]);
    } else if s.fifo != [] {
      s' := s.(fifo := s.fifo[1..], drained := s.drained + [s.fifo[0]]);
    } else {
      var e := TickEffect(m, chain, s);
      StepIsQuiet(s.regs, s.ch, m, View(s), chain, n, tail);
      if !s.ch.started || (s.ch.qwc == 0 && (!chain || LastTag(s.ch))) {
        StatusWorks(s.regs, s.ch, m, View(s), chain);
      } else if s.ch.qwc > 0 {
        DataWorks(s.regs, s.ch, m, View(s), chain);
      } else {
        TagWorks(s.regs, s.ch, m, View(s), n, tail);
      }
      s' := s.(regs := e.regs, ch := e.ch, outbox := QwordStream(e.pushed));
    }
  }

  ghost predicate IsProductiveRun(m: Memory, chain: bool, run: seq<State>)
  {
    |run| > 0 && Initial(run[0], chain) && forall i :: 0 <= i < |run| - 1 ==> Productive(m, chain, run[i], run[i + 1])
  }

  lemma {:induction false} ProductiveRunBounded(m: Memory, chain: bool, run: seq<State>, n: nat, tail: seq<Qword>)
    returns (n': nat, tail': seq<Qword>)
    requires IsProductiveRun(m, chain, run) && Pending(run[0].ch, m, chain, n, tail)
    ensures
      var (s, total) := (run[|run| - 1], QwordStream(ToSend(run[0].ch, m, chain, tail)));
      && Conserved(m, chain, total, s, n', tail')
      && Measure(m, chain, s, n', tail') + |run| - 1 <= Measure(m, chain, run[0], n, tail)
  {
    var total := QwordStream(ToSend(run[0].ch, m, chain, tail));
    if |run| == 1 {
      n', tail' := n, tail;
      assert run[0].drained + run[0].fifo + run[0].outbox + total == total;
    } else {
      var before := run[..|run| - 1];
      n', tail' := ProductiveRunBounded(m, chain, before, n, tail);
      n', tail' := ProductiveDecreases(m, chain, total, before[|before| - 1], run[|run| - 1], n', tail');
    }
  }

  /** A run in which every step changes something has bounded length: 48 for each quadword to send
      and one for each tag, start and stop. If it cannot be continued, and the channel is not held
      back by stall control, the channel has suspended and everything has been delivered. */
  lemma TransferCompletes(m: Memory, chain: bool, run: seq<State>, n: nat, tail: seq<Qword>)
    requires IsProductiveRun(m, chain, run) && Pending(run[0].ch, m, chain, n, tail)
    ensures |run| <= 48 * |ToSend(run[0].ch, m, chain, tail)| + n + 3
    ensures
      var s := run[|run| - 1];
      (forall s' :: !Productive(m, chain, s, s')) && !Stalled(s, chain) ==>
        && !s.ch.str && s.ch.id in s.regs.cis
        && s.drained == QwordStream(ToSend(run[0].ch, m, chain, tail))
  {
    var n', tail' := ProductiveRunBounded(m, chain, run, n, tail);
    var (s, total) := (run[|run| - 1], QwordStream(ToSend(run[0].ch, m, chain, tail)));
    if s.ch.str {
      if !Stalled(s, chain) { var s' := NeverStuck(m, chain, total, s, n', tail'); }
    } else {
      assert s.drained + [] + [] + QwordStream([]) == s.drained;
    }
  }
}
