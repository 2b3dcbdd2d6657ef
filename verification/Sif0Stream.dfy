/** The SIF0 stream: the packets an IOP tag list means, and what the EE makes of such a stream. */
module Sif0Stream {
  import opened Wrappers
  import opened Words
  import opened EeDmacSpec
  import opened IopDmacSpec

  /** One IOP tag's contribution: the embedded EE tag and the data words. */
  datatype Packet = Packet(header: Qword, words: seq<uword>)

  function PacketStream(ps: seq<Packet>): seq<ubyte>
  {
    if ps == [] then []
    else QwordBytes(ps[0].header) + (WordStream(ps[0].words) + PacketStream(ps[1..]))
  }

  // ---------------------------------------------------------------- IOP side

  /** The n words in IOP memory from an address on, upwards or downwards. */
  function WordPayload(m: IopMemory, madr: uword, mas: bool, n: nat): (ws: seq<uword>)
    ensures |ws| == n
    decreases n
  {
    if n == 0 then []
    else [ReadWord(m, madr)] + WordPayload(m, Wrap(if mas then madr - 4 else madr + 4), mas, n - 1)
  }

  /** The packets of the IOP tag list at tadr, if it is closed within n tags. */
  function IopTagList(m: IopMemory, tadr: uword, mas: bool, iqe: bool, n: nat): Option<seq<Packet>>
    decreases n
  {
    if n == 0 then None
    else
      var q := ReadTag(m, tadr);
      var t := IopDmatag(q.uw0, q.uw1);
      var packet := Packet(TransferredTag(q), WordPayload(m, t.Addr(), mas, RoundedLength(t.Length())));
      if Stops(t, iqe) then Some([packet])
      else
        var rest := IopTagList(m, Wrap(tadr + 16), mas, iqe, n - 1);
        if rest.None? then None else Some([packet] + rest.value)
  }

  /** No tag is pending because the current one closes the list. */
  predicate IopLast(c: IopChannel) { Stops(c.dmaTag, c.iqe) }

  predicate IopPending(c: IopChannel, m: IopMemory, n: nat, tail: seq<Packet>)
  {
    (c.started ==> !IopLast(c)) ==> IopTagList(m, c.tadr, c.mas, c.iqe, n) == Some(tail)
  }

  /** The bytes an IOP channel still has to send. */
  function IopToSend(c: IopChannel, m: IopMemory, tail: seq<Packet>): seq<ubyte>
  {
    if !c.start then []
    else if !c.started then PacketStream(tail)
    else WordStream(WordPayload(m, c.madr, c.mas, c.length)) + if IopLast(c) then [] else PacketStream(tail)
  }

  predicate IopSender(c: IopChannel) { c.direction.To? && c.ce && (!c.started ==> !IopLast(c)) }

  /** An IOP step does not throw, pushes only what fits, and suspends only on an empty FIFO. */
  predicate IopQuiet(c: IopChannel, m: IopMemory, v: IopView, e: IopEffect)
  {
    && !e.outcome.Threw? && e.mem == m && e.consumed == 0
    && |e.pushed| <= v.free
    && IopSender(e.ch)
    && (if e.ch.start then e.ch.tci == c.tci else v.empty && e.ch.tci)
  }

  lemma IopDataSends(c: IopChannel, m: IopMemory, v: IopView, tail: seq<Packet>)
    requires IopSender(c) && c.start && c.started && c.length > 0
    ensures
      var e := IopChainStep(c, m, v);
      && IopQuiet(c, m, v, e) && e.ch == c.(madr := e.ch.madr, length := e.ch.length)
      && IopToSend(c, m, tail) == e.pushed + IopToSend(e.ch, m, tail)
  {
    var e := IopChainStep(c, m, v);
    if e.outcome.Stepped? {
      var ws := WordPayload(m, c.madr, c.mas, c.length);
      var rest := WordPayload(m, e.ch.madr, c.mas, e.ch.length);
      assert ws[0] == ReadWord(m, c.madr) && ws[1..] == rest;
      Words.Assoc(e.pushed, WordStream(rest), if IopLast(c) then [] else PacketStream(tail));
    }
  }

  lemma IopTagSends(c: IopChannel, m: IopMemory, v: IopView, n: nat, tail: seq<Packet>)
    returns (n': nat, tail': seq<Packet>)
    requires IopSender(c) && c.start && c.started && c.length == 0 && !IopLast(c)
    requires IopPending(c, m, n, tail) && v.free >= 16
    ensures
      var e := IopChainStep(c, m, v);
      && IopQuiet(c, m, v, e) && IopPending(e.ch, m, n', tail')
      && IopToSend(c, m, tail) == e.pushed + IopToSend(e.ch, m, tail')
  {
    var q := ReadTag(m, c.tadr);
    n', tail' := n - 1, tail[1..];
    assert tail[0].header == TransferredTag(q);
    assert WordStream(WordPayload(m, c.madr, c.mas, 0)) == [];
    assert [] + PacketStream(tail) == PacketStream(tail);
  }

  /** One IOP step sends the next bytes of what remains. */
  lemma IopStepSends(c: IopChannel, m: IopMemory, v: IopView, n: nat, tail: seq<Packet>)
    returns (n': nat, tail': seq<Packet>)
    requires IopSender(c) && c.start && IopPending(c, m, n, tail)
    ensures
      var e := IopChainStep(c, m, v);
      && IopQuiet(c, m, v, e) && IopPending(e.ch, m, n', tail')
      && IopToSend(c, m, tail) == e.pushed + IopToSend(e.ch, m, tail')
  {
    n', tail' := n, tail;
    if !c.started {
      assert WordStream(WordPayload(m, c.madr, c.mas, 0)) == [];
      assert [] + PacketStream(tail) == PacketStream(tail);
    } else if c.length > 0 {
      IopDataSends(c, m, v, tail);
    } else if IopLast(c) {
      assert WordStream(WordPayload(m, c.madr, c.mas, 0)) == [];
    } else if v.free < 16 {
    } else {
      n', tail' := IopTagSends(c, m, v, n, tail);
    }
  }

  // ---------------------------------------------------------------- EE side

  datatype Received = Received(mem: Memory, headers: seq<Qword>)

  /** The EE destination chain run to its end on the quadwords of a stream: data goes to memory,
      headers are collected. None if the stream is too short, too long, or holds a bad tag. */
  function DestRun(m: Memory, madr: uword, qwc: nat, last: bool, tie: bool, qs: seq<Qword>, headers: seq<Qword>)
    : Option<Received>
    decreases |qs|
  {
    if qwc == 0 && last then if qs == [] then Some(Received(m, headers)) else None
    else if qs == [] then None
    else if qwc > 0 then
      DestRun(m[BusAddress(DataAddress(madr), SprOf(madr)) := qs[0]], Wrap(madr + 16), qwc - 1, last, tie,
              qs[1..], headers)
    else
      var t := TagOf(qs[0]);
      if t.Id() !in {0, 1, 7} then None
      else DestRun(m, MakeAddr(t.Addr(), t.Spr()), t.Qwc(), t.Id() == 7 || (tie && t.Irq()), tie,
                   qs[1..], headers + [qs[0]])
  }

  /** Memory after packets are delivered: each payload at its embedded tag's address, in order. */
  function Deliver(m: Memory, ps: seq<Packet>): Memory
    decreases |ps|
  {
    if ps == [] then m
    else
      var t := TagOf(ps[0].header);
      Deliver(StoreAll(m, MakeAddr(t.Addr(), t.Spr()), GroupWords(ps[0].words)), ps[1..])
  }

  function Headers(ps: seq<Packet>): seq<Qword>
  {
    if ps == [] then [] else [ps[0].header] + Headers(ps[1..])
  }

  /** The EE tag of every packet announces its payload, and exactly the last one ends the EE's
      transfer, by being an END tag or, with tag interrupts enabled, by its IRQ bit. */
  predicate WellFormed(ps: seq<Packet>, tie: bool)
  {
    && |ps| > 0
    && var t := TagOf(ps[0].header);
    && |ps[0].words| == 4 * t.Qwc() && t.Id() in {0, 1, 7}
    && (if |ps| == 1 then t.Id() == 7 || (tie && t.Irq())
        else t.Id() != 7 && !(tie && t.Irq()) && WellFormed(ps[1..], tie))
  }

  lemma {:induction false} DestRunStores(m: Memory, madr: uword, data: seq<Qword>, last: bool, tie: bool,
                                         rest: seq<Qword>, headers: seq<Qword>)
    ensures DestRun(m, madr, |data|, last, tie, data + rest, headers)
      == DestRun(StoreAll(m, madr, data), MadrAfter(madr, |data|), 0, last, tie, rest, headers)
    decreases |data|
  {
    if data == [] {
      assert data + rest == rest;
    } else {
      var m' := m[BusAddress(DataAddress(madr), SprOf(madr)) := data[0]];
      assert (data + rest)[1..] == data[1..] + rest;
      DestRunStores(m', Wrap(madr + 16), data[1..], last, tie, rest, headers);
    }
  }

  /** A packet at the head of a stream parses into its header and its payload. */
  lemma PacketParses(p: Packet, rest: seq<ubyte>)
    requires |p.words| % 4 == 0
    ensures ParseQwords(QwordBytes(p.header) + (WordStream(p.words) + rest))
      == [p.header] + (GroupWords(p.words) + ParseQwords(rest))
  {
    GroupedStream(p.words);
    ParseCons(p.header, WordStream(p.words) + rest);
    ParseAfterStream(GroupWords(p.words), rest);
  }

  predicate Ends(t: Dmatag, tie: bool) { t.Id() == 7 || (tie && t.Irq()) }

  lemma DestRunPacket(m: Memory, madr: uword, h: Qword, data: seq<Qword>, tie: bool, rest: seq<Qword>,
                      headers: seq<Qword>)
    requires TagOf(h).Id() in {0, 1, 7} && |data| == TagOf(h).Qwc()
    ensures
      var at := MakeAddr(TagOf(h).Addr(), TagOf(h).Spr());
      DestRun(m, madr, 0, false, tie, [h] + (data + rest), headers)
        == DestRun(StoreAll(m, at, data), MadrAfter(at, |data|), 0, Ends(TagOf(h), tie), tie, rest, headers + [h])
  {
    var at := MakeAddr(TagOf(h).Addr(), TagOf(h).Spr());
    assert ([h] + (data + rest))[1..] == data + rest;
    DestRunStores(m, at, data, Ends(TagOf(h), tie), tie, rest, headers + [h]);
  }

  /** The EE's run over a packet: it stores the payload, records the header and goes on. */
  lemma DestRunFirst(m: Memory, madr: uword, ps: seq<Packet>, tie: bool, headers: seq<Qword>)
    requires WellFormed(ps, tie)
    ensures
      var t := TagOf(ps[0].header);
      var (data, at) := (GroupWords(ps[0].words), MakeAddr(t.Addr(), t.Spr()));
      DestRun(m, madr, 0, false, tie, ParseQwords(PacketStream(ps)), headers)
        == DestRun(StoreAll(m, at, data), MadrAfter(at, |data|), 0, |ps| == 1, tie,
                   ParseQwords(PacketStream(ps[1..])), headers + [ps[0].header])
  {
    var rest := PacketStream(ps[1..]);
    PacketParses(ps[0], rest);
    assert Ends(TagOf(ps[0].header), tie) == (|ps| == 1);
    DestRunPacket(m, madr, ps[0].header, GroupWords(ps[0].words), tie, ParseQwords(rest), headers);
  }

  lemma DestRunEmpty(m: Memory, madr: uword, ps: seq<Packet>, tie: bool, headers: seq<Qword>)
    requires ps == []
    ensures DestRun(m, madr, 0, true, tie, ParseQwords(PacketStream(ps)), headers)
      == Some(Received(Deliver(m, ps), headers + Headers(ps)))
  {
    assert headers + [] == headers;
  }

  lemma DeliverFirst(m: Memory, ps: seq<Packet>, headers: seq<Qword>)
    requires |ps| > 0
    ensures
      var t := TagOf(ps[0].header);
      Deliver(m, ps) == Deliver(StoreAll(m, MakeAddr(t.Addr(), t.Spr()), GroupWords(ps[0].words)), ps[1..])
    ensures headers + Headers(ps) == (headers + [ps[0].header]) + Headers(ps[1..])
  {
  }

  /** A well-formed packet stream makes the EE store exactly the payloads at the tag addresses and
      read exactly the packet headers as tags. */
  lemma {:induction false} DestRunDelivers(m: Memory, madr: uword, ps: seq<Packet>, tie: bool, headers: seq<Qword>)
    requires WellFormed(ps, tie)
    ensures DestRun(m, madr, 0, false, tie, ParseQwords(PacketStream(ps)), headers)
      == Some(Received(Deliver(m, ps), headers + Headers(ps)))
    decreases |ps|
  {
    var t := TagOf(ps[0].header);
    var (data, at) := (GroupWords(ps[0].words), MakeAddr(t.Addr(), t.Spr()));
    var m' := StoreAll(m, at, data);
    DestRunFirst(m, madr, ps, tie, headers);
    DeliverFirst(m, ps, headers);
    if |ps| == 1 {
      DestRunEmpty(m', MadrAfter(at, |data|), ps[1..], tie, headers + [ps[0].header]);
    } else {
      DestRunDelivers(m', MadrAfter(at, |data|), ps[1..], tie, headers + [ps[0].header]);
    }
  }
}
