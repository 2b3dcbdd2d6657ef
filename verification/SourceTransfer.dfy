/** Memory-to-FIFO transfers of an EE DMAC channel, in normal mode and in source chain mode.
    The small steps of the channel, interleaved with a peripheral that drains the FIFO byte by
    byte and with changes to the shared registers, deliver what the transfer means. */
module SourceTransfer {
  import opened Wrappers
  import opened Words
  import opened DmaFifo
  import opened EeDmacSpec

  // ---------------------------------------------------------------- meaning

  /** The n quadwords in memory from a data address register on. */
  function Payload(m: Memory, madr: uword, n: nat): (qs: seq<Qword>)
    ensures |qs| == n
    decreases n
  {
    if n == 0 then []
    else [ReadMem(m, BusAddress(DataAddress(madr), SprOf(madr)))] + Payload(m, Wrap(madr + 16), n - 1)
  }

  /** Source chain tags by name; REFS behaves as REF but for stall control, and CALL and RET lists
      have no meaning here. */
  datatype TagName = Refe | Cnt | Next | Ref | Subroutine | End

  function NameOf(t: Dmatag): TagName
  {
    match t.Id()
    case 0 => Refe
    case 1 => Cnt
    case 2 => Next
    case 3 => Ref
    case 4 => Ref
    case 7 => End
    case _ => Subroutine
  }

  /** Where a tag's data starts: after the tag, or at the tag's address. */
  function DataStart(t: Dmatag, tadr: uword): uword
  {
    match NameOf(t)
    case Ref => MakeAddr(t.Addr(), t.Spr())
    case Refe => MakeAddr(t.Addr(), t.Spr())
    case _ => MakeAddr(AddrOf(tadr) + 16, SprOf(tadr))
  }

  /** Where the next tag is: after the data, at the tag's address, or after the tag. */
  function NextTag(t: Dmatag, tadr: uword): uword
  {
    match NameOf(t)
    case Cnt => MakeAddr(AddrOf(tadr) + 16 * (t.Qwc() + 1), SprOf(tadr))
    case Next => MakeAddr(t.Addr(), t.Spr())
    case _ => Wrap(tadr + 16)
  }

  /** REFE, END and, with tag interrupts enabled, a tag with its IRQ bit close a list. */
  predicate Closes(t: Dmatag, tie: bool)
  {
    NameOf(t).Refe? || NameOf(t).End? || (tie && t.Irq())
  }

  function Before(qs: seq<Qword>, rest: Option<seq<Qword>>): Option<seq<Qword>>
  {
    if rest.None? then None else Some(qs + rest.value)
  }

  /** The meaning of the tag list that starts at tadr, if it is closed within n tags: each tag
      contributes its upper half if tag transfer is on, and then its data. */
  function TagList(m: Memory, tadr: uword, tte: bool, tie: bool, n: nat): Option<seq<Qword>>
    decreases n
  {
    if n == 0 then None
    else
      var q := ReadMem(m, BusAddress(AddrOf(tadr), SprOf(tadr)));
      var t := TagOf(q);
      var data := (if tte then [TransferredTag(q)] else []) + Payload(m, DataStart(t, tadr), t.Qwc());
      if NameOf(t).Subroutine? then None
      else if Closes(t, tie) then Some(data)
      else Before(data, TagList(m, NextTag(t, tadr), tte, tie, n - 1))
  }

  predicate LastTag(c: Channel) { c.tagExit || (c.tie && c.tagIrq) }

  /** What the later list means, if it is closed; where there is none, anything. */
  function LaterList(c: Channel, m: Memory, chain: bool, n: nat, any: seq<Qword>): Option<seq<Qword>>
  {
    if chain && !LastTag(c) then TagList(m, c.tadr, c.tte, c.tie, n) else Some(any)
  }

  /** A later tag list is still to be read, and it means `tail`. */
  predicate Pending(c: Channel, m: Memory, chain: bool, n: nat, tail: seq<Qword>)
  {
    LaterList(c, m, chain, n, tail) == Some(tail)
  }

  /** What a channel still has to send: nothing once suspended, otherwise the rest of its current
      data and, in chain mode, the later tag list unless an exit is pending. */
  function ToSend(c: Channel, m: Memory, chain: bool, tail: seq<Qword>): seq<Qword>
  {
    if !c.str then []
    else Payload(m, c.madr, c.qwc) + if !chain || LastTag(c) then [] else tail
  }

  function Step(r: Registers, c: Channel, m: Memory, v: FifoView, chain: bool): Effect
  {
    if chain then ChainStep(r, c, m, v) else NormalStep(r, c, m, v)
  }

  /** A channel that writes to a FIFO, and may start. */
  predicate Sender(c: Channel, chain: bool)
  {
    c.direction.To? && c.id != 8 && c.id != 9 && (chain || c.qwc > 0 || c.started)
  }

  /** A step does not throw, leaves memory alone, and suspends only on an empty FIFO, setting the
      channel's interrupt bit then and only then. */
  predicate Quiet(r: Registers, c: Channel, m: Memory, v: FifoView, chain: bool, e: Effect)
  {
    && !e.outcome.Threw? && e.mem == m && !e.consumed
    && |e.pushed| <= 1 && (e.pushed != [] ==> v.free >= 16)
    && Sender(e.ch, chain) && e.ch.id == c.id
    && (if e.ch.str then e.regs.cis == r.cis else v.empty && e.regs.cis == r.cis + {c.id})
  }

  /** A data step either changes nothing or sends the quadword at MADR. */
  lemma SenderData(r: Registers, c: Channel, m: Memory, v: FifoView, gated: bool)
    requires c.direction.To? && c.id != 8 && c.id != 9
    ensures
      var e := DataStep(r, c, m, v, gated);
      && !e.outcome.Threw? && e.mem == m && !e.consumed && e.regs.cis == r.cis
      && (e.pushed == [] ==> e.ch == c)
      && (e.pushed != [] ==> e.ch == Advance(c) && v.free >= 16)
      && (e.pushed != [] ==> e.pushed == [ReadMem(m, BusAddress(DataAddress(c.madr), SprOf(c.madr)))])
  {
  }

  lemma DataQuiet(r: Registers, c: Channel, m: Memory, v: FifoView, chain: bool)
    requires Sender(c, chain) && c.str && c.started && c.qwc > 0
    ensures Quiet(r, c, m, v, chain, Step(r, c, m, v, chain))
  {
    SenderData(r, c, m, v, !chain || c.tagStall);
    assert Step(r, c, m, v, chain) == DataStep(r, c, m, v, !chain || c.tagStall);
  }

  /** The channel sends the quadword at MADR, or nothing. */
  predicate SendsNext(c: Channel, c': Channel, pushed: seq<Qword>, m: Memory)
  {
    if pushed == [] then c' == c
    else pushed == [ReadMem(m, BusAddress(DataAddress(c.madr), SprOf(c.madr)))] && c' == Advance(c)
  }

  lemma DataEffect(r: Registers, c: Channel, m: Memory, v: FifoView, chain: bool)
    requires Sender(c, chain) && c.str && c.started && c.qwc > 0
    ensures SendsNext(c, Step(r, c, m, v, chain).ch, Step(r, c, m, v, chain).pushed, m)
  {
    SenderData(r, c, m, v, !chain || c.tagStall);
    assert Step(r, c, m, v, chain) == DataStep(r, c, m, v, !chain || c.tagStall);
  }

  lemma DataSends(c: Channel, c': Channel, pushed: seq<Qword>, m: Memory, chain: bool, tail: seq<Qword>)
    requires c.str && c.qwc > 0 && SendsNext(c, c', pushed, m)
    ensures ToSend(c, m, chain, tail) == pushed + ToSend(c', m, chain, tail)
  {
    if pushed == [] {
      assert [] + ToSend(c, m, chain, tail) == ToSend(c, m, chain, tail);
    } else {
      var rest := if !chain || LastTag(c) then [] else tail;
      assert Payload(m, c.madr, c.qwc) == pushed + Payload(m, c'.madr, c'.qwc);
      Assoc(pushed, Payload(m, c'.madr, c'.qwc), rest);
    }
  }

  /** The data and list registers after a tag has been executed, everything else kept. */
  predicate SetUp(c: Channel, c': Channel)
  {
    var t := c.dmaTag;
    && c'.qwc == t.Qwc() && c'.madr == DataStart(t, c.tadr)
    && c'.tagExit == (c.tagExit || NameOf(t).Refe? || NameOf(t).End?)
    && (!NameOf(t).Refe? && !NameOf(t).End? ==> c'.tadr == NextTag(t, c.tadr))
    && c'.id == c.id && c'.direction == c.direction && c'.tte == c.tte && c'.tie == c.tie
    && c'.str == c.str && c'.started == c.started && c'.dmaTag == c.dmaTag
    && c'.tagStall == (c.tagStall || t.Id() == 4)
  }

  lemma FollowingTags(c: Channel)
    requires c.dmaTag.Id() == 1 || c.dmaTag.Id() == 2 || c.dmaTag.Id() == 7
    ensures SourceTag(c).Some? && SetUp(c, SourceTag(c).value)
  {
  }

  lemma ReferencingTags(c: Channel)
    requires c.dmaTag.Id() == 0 || c.dmaTag.Id() == 3 || c.dmaTag.Id() == 4
    ensures SourceTag(c).Some? && SetUp(c, SourceTag(c).value)
  {
  }

  /** The registers a tag other than CALL and RET sets up. */
  lemma TagRegisters(c: Channel)
    requires !NameOf(c.dmaTag).Subroutine?
    ensures SourceTag(c).Some? && SetUp(c, SourceTag(c).value)
  {
    var id := c.dmaTag.Id();
    if id == 1 || id == 2 || id == 7 { FollowingTags(c); } else { ReferencingTags(c); }
  }

  /** A closed tag list starts with a tag that is not a subroutine's. */
  lemma TagListStarts(m: Memory, tadr: uword, tte: bool, tie: bool, n: nat, tail: seq<Qword>, q: Qword)
    requires TagList(m, tadr, tte, tie, n) == Some(tail) && q == ReadMem(m, BusAddress(AddrOf(tadr), SprOf(tadr)))
    ensures n > 0 && !NameOf(TagOf(q)).Subroutine?
    ensures !Closes(TagOf(q), tie) ==> TagList(m, NextTag(TagOf(q), tadr), tte, tie, n - 1).Some?
  {
  }

  /** What a list closed within n - 1 tags means. */
  function Meaning(m: Memory, tadr: uword, tte: bool, tie: bool, n: nat): seq<Qword>
  {
    if n > 0 && TagList(m, tadr, tte, tie, n - 1).Some? then TagList(m, tadr, tte, tie, n - 1).value else []
  }

  /** It means the tag's data and then, unless the tag closes it, the list after it. */
  lemma TagListMeans(m: Memory, tadr: uword, tte: bool, tie: bool, n: nat, tail: seq<Qword>, q: Qword)
    requires TagList(m, tadr, tte, tie, n) == Some(tail) && q == ReadMem(m, BusAddress(AddrOf(tadr), SprOf(tadr)))
    ensures
      var t := TagOf(q);
      var after := if Closes(t, tie) then [] else Meaning(m, NextTag(t, tadr), tte, tie, n);
      tail == (if tte then [TransferredTag(q)] else []) + (Payload(m, DataStart(t, tadr), t.Qwc()) + after)
  {
    var t := TagOf(q);
    var (header, data) := (if tte then [TransferredTag(q)] else [], Payload(m, DataStart(t, tadr), t.Qwc()));
    if Closes(t, tie) {
      assert data + [] == data;
    } else {
      Assoc(header, data, Meaning(m, NextTag(t, tadr), tte, tie, n));
    }
  }

  /** A tag step sends the transferred tag and leaves the tag's data and the list after it to send. */
  predicate Executed(c: Channel, c': Channel, pushed: seq<Qword>, q: Qword)
  {
    var t := TagOf(q);
    && pushed == (if c.tte then [TransferredTag(q)] else [])
    && c'.str && c'.started && c'.madr == DataStart(t, c.tadr) && c'.qwc == t.Qwc() && LastTag(c') == Closes(t, c.tie)
    && (LastTag(c') || c'.tadr == NextTag(t, c.tadr)) && c'.tte == c.tte && c'.tie == c.tie
  }

  function TagAt(c: Channel, m: Memory): Qword { ReadMem(m, BusAddress(AddrOf(c.tadr), SprOf(c.tadr))) }

  lemma TagPending(c: Channel, c': Channel, pushed: seq<Qword>, q: Qword, m: Memory, n: nat, tail: seq<Qword>)
    requires Pending(c, m, true, n, tail) && !LastTag(c) && q == TagAt(c, m) && Executed(c, c', pushed, q)
    ensures n > 0 && Pending(c', m, true, n - 1, Meaning(m, NextTag(TagOf(q), c.tadr), c.tte, c.tie, n))
  {
    TagListStarts(m, c.tadr, c.tte, c.tie, n, tail, q);
  }

  lemma TagSends(c: Channel, c': Channel, pushed: seq<Qword>, q: Qword, m: Memory, tail: seq<Qword>, tail': seq<Qword>)
    requires c.str && c.qwc == 0 && !LastTag(c) && Executed(c, c', pushed, q)
    requires
      var t := TagOf(q);
      tail == pushed + (Payload(m, DataStart(t, c.tadr), t.Qwc()) + if Closes(t, c.tie) then [] else tail')
    ensures ToSend(c, m, true, tail) == pushed + ToSend(c', m, true, tail')
  {
    assert [] + tail == tail;
  }

  lemma TagEffect(r: Registers, c: Channel, m: Memory, v: FifoView)
    requires c.direction.To? && c.started && c.qwc == 0 && !LastTag(c) && !(c.tte && v.free < 16)
    requires !NameOf(TagOf(TagAt(c, m))).Subroutine?
    ensures
      var q := TagAt(c, m);
      var next := SourceTag(c.(dmaTag := TagOf(q)));
      && next.Some? && SetUp(c.(dmaTag := TagOf(q)), next.value)
      && Step(r, c, m, v, true)
         == Effect(r, LatchTag(next.value), m, if c.tte then [TransferredTag(q)] else [], false, Stepped)
  {
    TagRegisters(c.(dmaTag := TagOf(TagAt(c, m))));
    assert Step(r, c, m, v, true) == SourceTagStep(r, c, m, v);
  }

  lemma TagExecuted(c: Channel, q: Qword, next: Channel)
    requires c.str && c.started && !LastTag(c) && SetUp(c.(dmaTag := TagOf(q)), next)
    ensures Executed(c, LatchTag(next), if c.tte then [TransferredTag(q)] else [], q)
  {
  }

  // ---------------------------------------------------------------- one step

  /** How far a channel is from its end, but for the data it still has to send. */
  function Rank(c: Channel, chain: bool, n: nat): nat
  {
    (if !c.str then 0 else if c.started then 1 else 2) + if chain && c.str && !LastTag(c) then n else 0
  }

  /** The step changes nothing, sends a quadword or gets nearer to the end. */
  predicate Advances(c: Channel, c': Channel, pushed: seq<Qword>, chain: bool, n: nat, n': nat)
  {
    || (pushed == [] && c' == c && n' == n)
    || (pushed != [] && Rank(c', chain, n') <= Rank(c, chain, n))
    || Rank(c', chain, n') < Rank(c, chain, n)
  }

  lemma StartOrFinish(r: Registers, c: Channel, m: Memory, v: FifoView, chain: bool)
    requires Sender(c, chain) && c.str && (!c.started || (c.qwc == 0 && (!chain || LastTag(c))))
    ensures
      var e := Step(r, c, m, v, chain);
      && Quiet(r, c, m, v, chain, e) && e.pushed == []
      && (e.ch == c || e.ch == (if c.started then c.(str := false) else c.(started := true)))
  {
  }

  /** With a tag to read, a step waits for room or executes the tag. */
  lemma TagStep(r: Registers, c: Channel, m: Memory, v: FifoView, n: nat, tail: seq<Qword>)
    requires Sender(c, true) && c.str && c.started && c.qwc == 0 && !LastTag(c) && Pending(c, m, true, n, tail)
    ensures
      var e := Step(r, c, m, v, true);
      && Quiet(r, c, m, v, true, e)
      && ((e.pushed == [] && e.ch == c) || Executed(c, e.ch, e.pushed, TagAt(c, m)))
  {
    assert !NameOf(TagOf(TagAt(c, m))).Subroutine?;
    if c.tte && v.free < 16 {
      assert Step(r, c, m, v, true) == Unchanged(r, c, m, Waiting);
    } else {
      TagEffect(r, c, m, v);
      var q := TagAt(c, m);
      TagExecuted(c, q, SourceTag(c.(dmaTag := TagOf(q))).value);
    }
  }

  /** One step of a started channel does not throw, and suspends only on an empty FIFO. */
  lemma StepIsQuiet(r: Registers, c: Channel, m: Memory, v: FifoView, chain: bool, n: nat, tail: seq<Qword>)
    requires Sender(c, chain) && c.str && Pending(c, m, chain, n, tail)
    ensures Quiet(r, c, m, v, chain, Step(r, c, m, v, chain))
  {
    if !c.started || (c.qwc == 0 && (!chain || LastTag(c))) {
      StartOrFinish(r, c, m, v, chain);
    } else if c.qwc > 0 {
      DataQuiet(r, c, m, v, chain);
    } else {
      TagStep(r, c, m, v, n, tail);
    }
  }

  lemma TagProgress(c: Channel, c': Channel, pushed: seq<Qword>, q: Qword, m: Memory, n: nat, tail: seq<Qword>)
    requires c.str && c.started && c.qwc == 0 && !LastTag(c) && q == TagAt(c, m) && Executed(c, c', pushed, q)
    requires Pending(c, m, true, n, tail)
    ensures
      var tail' := Meaning(m, NextTag(TagOf(q), c.tadr), c.tte, c.tie, n);
      ToSend(c, m, true, tail) == pushed + ToSend(c', m, true, tail')
  {
    TagListMeans(m, c.tadr, c.tte, c.tie, n, tail, q);
    TagSends(c, c', pushed, q, m, tail, Meaning(m, NextTag(TagOf(q), c.tadr), c.tte, c.tie, n));
  }

  lemma TagAdvances(c: Channel, c': Channel, pushed: seq<Qword>, q: Qword, n: nat)
    requires c.str && c.started && !LastTag(c) && Executed(c, c', pushed, q) && n > 0
    ensures Advances(c, c', pushed, true, n, n - 1)
  {
  }

  /** What a step does to the channel and its FIFO: start, finish or wait; send data; or execute a tag. */
  predicate Relates(c: Channel, c': Channel, pushed: seq<Qword>, m: Memory, chain: bool)
  {
    if !c.started || (c.qwc == 0 && (!chain || LastTag(c))) then
      pushed == [] && (c' == c || c' == (if c.started then c.(str := false) else c.(started := true)))
    else if c.qwc > 0 then SendsNext(c, c', pushed, m)
    else (pushed == [] && c' == c) || Executed(c, c', pushed, TagAt(c, m))
  }

  lemma StepRelates(r: Registers, c: Channel, m: Memory, v: FifoView, chain: bool, n: nat, tail: seq<Qword>)
    requires Sender(c, chain) && c.str && Pending(c, m, chain, n, tail)
    ensures Relates(c, Step(r, c, m, v, chain).ch, Step(r, c, m, v, chain).pushed, m, chain)
  {
    if !c.started || (c.qwc == 0 && (!chain || LastTag(c))) {
      StartOrFinish(r, c, m, v, chain);
    } else if c.qwc > 0 {
      DataEffect(r, c, m, v, chain);
    } else {
      TagStep(r, c, m, v, n, tail);
    }
  }

  lemma StatusSends(c: Channel, c': Channel, m: Memory, chain: bool, n: nat, tail: seq<Qword>)
    requires c.str && Pending(c, m, chain, n, tail)
    requires c' == c || (!c.started && c' == c.(started := true))
          || (c.started && c.qwc == 0 && (!chain || LastTag(c)) && c' == c.(str := false))
    ensures Pending(c', m, chain, n, tail) && Advances(c, c', [], chain, n, n)
    ensures ToSend(c, m, chain, tail) == [] + ToSend(c', m, chain, tail)
  {
    assert [] + ToSend(c', m, chain, tail) == ToSend(c', m, chain, tail);
  }

  lemma DataPending(c: Channel, c': Channel, pushed: seq<Qword>, m: Memory, chain: bool, n: nat, tail: seq<Qword>)
    requires c.qwc > 0 && Pending(c, m, chain, n, tail) && SendsNext(c, c', pushed, m)
    ensures Pending(c', m, chain, n, tail) && Advances(c, c', pushed, chain, n, n)
  {
  }

  lemma TagContinues(c: Channel, c': Channel, pushed: seq<Qword>, q: Qword, m: Memory, n: nat, tail: seq<Qword>)
    returns (n': nat, tail': seq<Qword>)
    requires c.str && c.started && c.qwc == 0 && !LastTag(c) && q == TagAt(c, m) && Executed(c, c', pushed, q)
    requires Pending(c, m, true, n, tail)
    ensures Pending(c', m, true, n', tail') && Advances(c, c', pushed, true, n, n')
    ensures ToSend(c, m, true, tail) == pushed + ToSend(c', m, true, tail')
  {
    TagPending(c, c', pushed, q, m, n, tail);
    n', tail' := n - 1, Meaning(m, NextTag(TagOf(q), c.tadr), c.tte, c.tie, n);
    TagProgress(c, c', pushed, q, m, n, tail);
    TagAdvances(c, c', pushed, q, n);
  }

  /** One step of a started channel sends the next part of what remains, and nothing else. */
  lemma StepSends(c: Channel, c': Channel, pushed: seq<Qword>, m: Memory, chain: bool, n: nat, tail: seq<Qword>)
    returns (n': nat, tail': seq<Qword>)
    requires c.str && Pending(c, m, chain, n, tail) && Relates(c, c', pushed, m, chain)
    ensures Pending(c', m, chain, n', tail') && Advances(c, c', pushed, chain, n, n')
    ensures ToSend(c, m, chain, tail) == pushed + ToSend(c', m, chain, tail')
  {
    n', tail' := n, tail;
    if !c.started || (c.qwc == 0 && (!chain || LastTag(c))) {
      StatusSends(c, c', m, chain, n, tail);
    } else if c.qwc > 0 {
      DataSends(c, c', pushed, m, chain, tail);
      DataPending(c, c', pushed, m, chain, n, tail);
    } else if pushed == [] && c' == c {
      StatusSends(c, c', m, chain, n, tail);
    } else {
      n', tail' := TagContinues(c, c', pushed, TagAt(c, m), m, n, tail);
    }
  }

  // ---------------------------------------------------------------- runs

  /** The channel, the bytes of its current FIFO write still to be pushed, the FIFO, and every byte
      the peripheral has taken so far. */
  datatype State = State(regs: Registers, ch: Channel, outbox: seq<ubyte>, fifo: seq<ubyte>, drained: seq<ubyte>)

  function View(s: State): FifoView
  {
    FifoView(if |s.fifo| <= CAPACITY then CAPACITY - |s.fifo| else 0, |s.fifo| == 0, None)
  }

  function TickEffect(m: Memory, chain: bool, s: State): Effect
  {
    Step(s.regs, s.ch, m, View(s), chain)
  }

  /** A step of the controller, once its last write is complete. */
  predicate Tick(m: Memory, chain: bool, s: State, s': State)
  {
    var e := TickEffect(m, chain, s);
    s.ch.str && s.outbox == [] && !e.outcome.Threw?
    && s' == s.(regs := e.regs, ch := e.ch, outbox := QwordStream(e.pushed))
  }

  /** One byte of the current write enters the FIFO. */
  predicate Push(s: State, s': State)
  {
    s.outbox != [] && |s.fifo| < CAPACITY
    && s' == s.(outbox := s.outbox[1..], fifo := s.fifo + [s.outbox[0]])
  }

  /** The peripheral takes one byte. */
  predicate Drain(s: State, s': State)
  {
    s.fifo != [] && s' == s.(fifo := s.fifo[1..], drained := s.drained + [s.fifo[0]])
  }

  /** Other channels and the cores change the shared registers, but not this channel's bit. */
  predicate Interfere(s: State, s': State)
  {
    s' == s.(regs := s'.regs) && (s.ch.id in s'.regs.cis <==> s.ch.id in s.regs.cis)
  }

  predicate Moves(m: Memory, chain: bool, s: State, s': State)
  {
    Tick(m, chain, s, s') || Push(s, s') || Drain(s, s') || Interfere(s, s')
  }

  ghost predicate IsRun(m: Memory, chain: bool, run: seq<State>)
  {
    |run| > 0 && forall i :: 0 <= i < |run| - 1 ==> Moves(m, chain, run[i], run[i + 1])
  }

  predicate Initial(s: State, chain: bool)
  {
    Sender(s.ch, chain) && s.ch.str && s.outbox == [] && s.fifo == [] && s.drained == []
    && s.ch.id !in s.regs.cis
  }

  /** Everything delivered, under way and still to be sent is the meaning of the transfer. */
  ghost predicate Conserved(m: Memory, chain: bool, total: seq<ubyte>, s: State, n: nat, tail: seq<Qword>)
  {
    && Sender(s.ch, chain) && Pending(s.ch, m, chain, n, tail)
    && |s.fifo| + |s.outbox| <= CAPACITY
    && s.drained + s.fifo + s.outbox + QwordStream(ToSend(s.ch, m, chain, tail)) == total
    && (s.ch.str <==> s.ch.id !in s.regs.cis)
    && (!s.ch.str ==> s.fifo == [] && s.outbox == [])
  }

  lemma Refill(a: seq<ubyte>, b: seq<ubyte>, c: seq<ubyte>, d: seq<ubyte>)
    requires b == []
    ensures a + b + (c + d) == a + c + d
  {
  }

  /** A step pushes at most one quadword, and only if it fits. */
  lemma PushedFits(e: Effect, s: State)
    requires |e.pushed| <= 1 && |s.fifo| <= CAPACITY && (e.pushed != [] ==> View(s).free >= 16)
    ensures |s.fifo| + |QwordStream(e.pushed)| <= CAPACITY
  {
  }

  lemma TickConserves(m: Memory, chain: bool, total: seq<ubyte>, s: State, s': State, n: nat, tail: seq<Qword>)
    returns (n': nat, tail': seq<Qword>)
    requires Conserved(m, chain, total, s, n, tail) && Tick(m, chain, s, s')
    ensures Conserved(m, chain, total, s', n', tail')
    ensures
      var e := TickEffect(m, chain, s);
      && Advances(s.ch, e.ch, e.pushed, chain, n, n')
      && ToSend(s.ch, m, chain, tail) == e.pushed + ToSend(e.ch, m, chain, tail')
  {
    StepIsQuiet(s.regs, s.ch, m, View(s), chain, n, tail);
    var e := TickEffect(m, chain, s);
    StepRelates(s.regs, s.ch, m, View(s), chain, n, tail);
    n', tail' := StepSends(s.ch, e.ch, e.pushed, m, chain, n, tail);
    var pushed := TickEffect(m, chain, s).pushed;
    PushedFits(TickEffect(m, chain, s), s);
    QwordStreamConcat(pushed, ToSend(s'.ch, m, chain, tail'));
    Refill(s.drained + s.fifo, s.outbox, QwordStream(pushed), QwordStream(ToSend(s'.ch, m, chain, tail')));
  }

  /** The first byte of b moves to the end of a. */
  lemma Shift(a: seq<ubyte>, b: seq<ubyte>)
    requires b != []
    ensures (a + [b[0]]) + b[1..] == a + b
  {
  }

  lemma ByteMovesConserve(m: Memory, chain: bool, total: seq<ubyte>, s: State, s': State, n: nat, tail: seq<Qword>)
    requires Conserved(m, chain, total, s, n, tail) && (Push(s, s') || Drain(s, s') || Interfere(s, s'))
    ensures Conserved(m, chain, total, s', n, tail)
  {
    assert s'.ch == s.ch;
    if Push(s, s') {
      Shift(s.fifo, s.outbox);
      Assoc(s.drained, s.fifo, s.outbox);
      Assoc(s.drained, s'.fifo, s'.outbox);
    } else if Drain(s, s') {
      Shift(s.drained, s.fifo);
    }
  }

  lemma MoveConserves(m: Memory, chain: bool, total: seq<ubyte>, s: State, s': State, n: nat, tail: seq<Qword>)
    returns (n': nat, tail': seq<Qword>)
    requires Conserved(m, chain, total, s, n, tail) && Moves(m, chain, s, s')
    ensures Conserved(m, chain, total, s', n', tail')
  {
    n', tail' := n, tail;
    if Tick(m, chain, s, s') {
      n', tail' := TickConserves(m, chain, total, s, s', n, tail);
    } else {
      ByteMovesConserve(m, chain, total, s, s', n, tail);
    }
  }

  lemma {:induction false} RunConserves(m: Memory, chain: bool, run: seq<State>, n: nat, tail: seq<Qword>)
    returns (n': nat, tail': seq<Qword>)
    requires IsRun(m, chain, run) && Initial(run[0], chain) && Pending(run[0].ch, m, chain, n, tail)
    ensures Conserved(m, chain, QwordStream(ToSend(run[0].ch, m, chain, tail)), run[|run| - 1], n', tail')
  {
    var total := QwordStream(ToSend(run[0].ch, m, chain, tail));
    if |run| == 1 {
      n', tail' := n, tail;
      assert run[0].drained + run[0].fifo + run[0].outbox + total == total;
    } else {
      var before := run[..|run| - 1];
      n', tail' := RunConserves(m, chain, before, n, tail);
      n', tail' := MoveConserves(m, chain, total, before[|before| - 1], run[|run| - 1], n', tail');
    }
  }

  lemma Prefix(a: seq<ubyte>, b: seq<ubyte>, c: seq<ubyte>, d: seq<ubyte>)
    ensures a <= a + b + c + d && (b == [] && c == [] && d == [] ==> a == a + b + c + d)
  {
  }

  lemma WhenConserved(m: Memory, chain: bool, total: seq<ubyte>, s: State, n: nat, tail: seq<Qword>)
    requires Conserved(m, chain, total, s, n, tail)
    ensures s.drained <= total && (!s.ch.str ==> s.drained == total)
    ensures s.ch.str ==> !TickEffect(m, chain, s).outcome.Threw?
  {
    if s.ch.str {
      StepIsQuiet(s.regs, s.ch, m, View(s), chain, n, tail);
    }
    Prefix(s.drained, s.fifo, s.outbox, QwordStream(ToSend(s.ch, m, chain, tail)));
  }

  /** Every run of a transfer, whatever the peripheral's timing and the stall control registers do,
      has delivered a prefix of what the transfer means; it never throws; the channel's interrupt
      bit is set exactly when it has suspended, and then every byte has been delivered in order. */
  lemma TransferDelivers(m: Memory, chain: bool, run: seq<State>, n: nat, tail: seq<Qword>)
    requires IsRun(m, chain, run) && Initial(run[0], chain) && Pending(run[0].ch, m, chain, n, tail)
    ensures
      var (s, total) := (run[|run| - 1], QwordStream(ToSend(run[0].ch, m, chain, tail)));
      && s.drained <= total
      && (s.ch.id in s.regs.cis <==> !s.ch.str)
      && (!s.ch.str ==> s.drained == total)
      && (s.ch.str ==> !TickEffect(m, chain, s).outcome.Threw?)
  {
    var n', tail' := RunConserves(m, chain, run, n, tail);
    WhenConserved(m, chain, QwordStream(ToSend(run[0].ch, m, chain, tail)), run[|run| - 1], n', tail');
  }
}
