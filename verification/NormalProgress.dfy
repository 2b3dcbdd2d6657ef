/** Progress of normal mode transfers of every kind: they end while the peripheral takes or supplies
    bytes and no stall holds. */
module NormalProgress {
  import opened Words
  import opened DmaFifo
  import opened EeDmacSpec
  import opened EeDmac
  import opened NormalMode

  /** The channel's next quadword is held back by stall control. */
  predicate Stalled(s: State)
  {
    s.ch.started && s.ch.qwc > 0 && DrainStallOn(s.regs, s.ch) && DrainWaiting(s.regs, s.ch)
  }

  /** A step of the channel or of a byte that changes more than the shared registers. */
  predicate Productive(s: State, s': State)
  {
    (Tick(s, s') || Peripheral(s, s')) && s'.(regs := s.regs) != s
  }

  /** Bytes still to be put into the FIFO by the peripheral, or taken from it. */
  function FifoWork(s: State): nat
    requires |s.fifo| <= CAPACITY
  {
    if Receives(s.ch) then CAPACITY - |s.fifo| else |s.fifo|
  }

  function Measure(s: State): nat
    requires |s.fifo| <= CAPACITY
  {
    33 * s.ch.qwc + FifoWork(s) + if !s.ch.str then 0 else if s.ch.started then 1 else 2
  }

  lemma DataDecreases(s: State, s': State, e: Effect)
    requires |s.fifo| <= CAPACITY && Does(MovesOne, s.regs, s.ch, s.mem, Look(s.fifo), Quadword(s), e)
    requires s'.ch == e.ch && (e.consumed ==> |s.fifo| >= 16) && s'.fifo == FifoAfter(s.fifo, e)
    ensures |s'.fifo| <= CAPACITY && Measure(s') < Measure(s)
  {
    assert |QwordStream(e.pushed)| == if Sends(s.ch) then 16 else 0;
    assert |s'.fifo| == |s.fifo| + (if Sends(s.ch) then 16 else 0) - (if Receives(s.ch) then 16 else 0);
  }

  lemma StatusDecreases(s: State, s': State, e: Effect, k: Kind)
    requires |s.fifo| <= CAPACITY && s.ch.str && s'.ch == e.ch && s'.fifo == s.fifo && e.ch != s.ch
    requires !k.MovesOne? && Does(k, s.regs, s.ch, s.mem, Look(s.fifo), Quadword(s), e)
    requires k.Starts? ==> !s.ch.started
    ensures Measure(s') < Measure(s)
  {
  }

  lemma StartsOnce(s: State, e: Effect, k: Kind)
    requires Does(k, s.regs, s.ch, s.mem, Look(s.fifo), Quadword(s), e) && e == StepEffect(s)
    ensures k.Starts? && s.ch.started ==> e.ch == s.ch
  {
  }

  lemma TickDecreases(s0: State, s: State, s': State)
    requires Conserved(s0, s) && Tick(s, s') && s'.(regs := s.regs) != s && |s'.fifo| <= CAPACITY
    ensures Measure(s') < Measure(s)
  {
    var e := StepEffect(s);
    var k := StepKind(s.regs, s.ch, s.mem, Look(s.fifo), Quadword(s));
    if k.MovesOne? {
      DataDecreases(s, s', e);
    } else {
      assert s.fifo + [] == s.fifo;
      StartsOnce(s, e, k);
      StatusDecreases(s, s', e, k);
    }
  }

  lemma ProductiveDecreases(s0: State, s: State, s': State)
    requires Conserved(s0, s) && Productive(s, s')
    ensures Conserved(s0, s') && Measure(s') < Measure(s)
  {
    MoveConserves(s0, s, s');
    if Tick(s, s') {
      TickDecreases(s0, s, s');
    }
  }

  /** A channel whose FIFO is ready, and empty if it sends, is never idle without a stall. */
  lemma StepWorks(r: Registers, c: Channel, m: Memory, v: FifoView)
    requires c.str && (c.started || c.qwc > 0) && NoFifoAwaited(c)
    requires FifoReady(c, v) && (c.direction.To? && c.id != 9 ==> v.empty)
    requires !(c.started && c.qwc > 0 && DrainStallOn(r, c) && DrainWaiting(r, c))
    ensures NormalStep(r, c, m, v).ch != c
  {
    if c.started && c.qwc > 0 {
      assert Advance(c).qwc != c.qwc;
    }
  }

  lemma NeverStuck(s0: State, s: State) returns (s': State)
    requires Conserved(s0, s) && s.ch.str && !Stalled(s)
    ensures Productive(s, s')
  {
    if Receives(s.ch) && |s.fifo| < CAPACITY {
      s' := s.(fifo := s.fifo + [0], passed := s.passed + [0]);
    } else if !Receives(s.ch) && s.fifo != [] {
      s' := s.(fifo := s.fifo[1..], passed := s.passed + [s.fifo[0]]);
    } else {
      var e := StepEffect(s);
      var k := StepKind(s.regs, s.ch, s.mem, Look(s.fifo), Quadword(s));
      StepWorks(s.regs, s.ch, s.mem, Look(s.fifo));
      s' := State(e.regs, e.ch, e.mem, FifoAfter(s.fifo, e),
                  if e.ch.qwc == s.ch.qwc then s.moved else s.moved + [Quadword(s)], s.passed);
    }
  }

  ghost predicate IsProductiveRun(run: seq<State>)
  {
    |run| > 0 && Initial(run[0]) && forall i :: 0 <= i < |run| - 1 ==> Productive(run[i], run[i + 1])
  }

  lemma {:induction false} ProductiveRunBounded(run: seq<State>)
    requires IsProductiveRun(run)
    ensures Conserved(run[0], run[|run| - 1])
    ensures Measure(run[|run| - 1]) + |run| - 1 <= Measure(run[0])
  {
    if |run| == 1 {
    } else {
      var before := run[..|run| - 1];
      ProductiveRunBounded(before);
      ProductiveDecreases(run[0], before[|before| - 1], run[|run| - 1]);
    }
  }

  /** A run in which every step changes something has bounded length. If it cannot be continued, and
      the channel is not held back by stall control, the channel has suspended, having moved exactly
      QWC quadwords. */
  lemma NormalModeCompletes(run: seq<State>)
    requires IsProductiveRun(run)
    ensures |run| <= 33 * run[0].ch.qwc + CAPACITY + 3
    ensures
      var s := run[|run| - 1];
      (forall s' :: !Productive(s, s')) && !Stalled(s) ==>
        !s.ch.str && s.ch.id in s.regs.cis && |s.moved| == run[0].ch.qwc
  {
    ProductiveRunBounded(run);
    var s := run[|run| - 1];
    if s.ch.str && !Stalled(s) {
      var s' := NeverStuck(run[0], s);
    }
  }
}
