/** The SIF1 stream: the packets an EE tag list means, and what the IOP makes of such a stream. */
module Sif1Stream {
  import opened Wrappers
  import opened Words
  import opened EeDmacSpec
  import opened IopDmacSpec
  import opened SourceTransfer

  /** One EE tag's contribution: the transferred half of the tag, and its data. */
  datatype Packet = Packet(header: Qword, data: seq<Qword>)

  function Flat(ps: seq<Packet>): seq<Qword>
  {
    if ps == [] then [] else [ps[0].header] + (ps[0].data + Flat(ps[1..]))
  }

  // ---------------------------------------------------------------- EE side

  /** The packet of the tag q at tadr. */
  function PacketOf(m: Memory, tadr: uword, q: Qword): Packet
  {
    Packet(TransferredTag(q), Payload(m, DataStart(TagOf(q), tadr), TagOf(q).Qwc()))
  }

  lemma FlatOne(p: Packet)
    ensures Flat([p]) == [p.header] + p.data
  {
    assert [p][1..] == [];
  }

  lemma FlatCons(p: Packet, ps: seq<Packet>)
    ensures Flat([p] + ps) == ([p.header] + p.data) + Flat(ps)
  {
    assert ([p] + ps)[1..] == ps;
  }

  /** An EE tag list that is sent with tag transfer means the packet of its first tag and, unless that
      tag closes it, the packets of the list after it. */
  lemma TagIsPacket(m: Memory, tadr: uword, tie: bool, n: nat, q: Qword, ps: seq<Packet>)
    requires n > 0 && q == ReadMem(m, BusAddress(AddrOf(tadr), SprOf(tadr))) && !NameOf(TagOf(q)).Subroutine?
    ensures Closes(TagOf(q), tie) ==> TagList(m, tadr, true, tie, n) == Some(Flat([PacketOf(m, tadr, q)]))
    ensures !Closes(TagOf(q), tie) && TagList(m, NextTag(TagOf(q), tadr), true, tie, n - 1) == Some(Flat(ps)) ==>
      TagList(m, tadr, true, tie, n) == Some(Flat([PacketOf(m, tadr, q)] + ps))
  {
    FlatOne(PacketOf(m, tadr, q));
    FlatCons(PacketOf(m, tadr, q), ps);
  }

  function Ahead(p: Packet, rest: Option<seq<Packet>>): Option<seq<Packet>>
  {
    if rest.None? then None else Some([p] + rest.value)
  }

  /** The packets of the tag list at tadr, if it is closed within n tags: one for each tag. */
  function EePackets(m: Memory, tadr: uword, tie: bool, n: nat): Option<seq<Packet>>
    decreases n
  {
    if n == 0 then None
    else
      var q := ReadMem(m, BusAddress(AddrOf(tadr), SprOf(tadr)));
      if NameOf(TagOf(q)).Subroutine? then None
      else if Closes(TagOf(q), tie) then Some([PacketOf(m, tadr, q)])
      else Ahead(PacketOf(m, tadr, q), EePackets(m, NextTag(TagOf(q), tadr), tie, n - 1))
  }

  /** The packets, flattened, are the stream; and one exists if the other does. */
  predicate Flattens(ps: Option<seq<Packet>>, list: Option<seq<Qword>>)
  {
    if ps.None? then list.None? else list == Some(Flat(ps.value))
  }

  lemma AheadFlattens(m: Memory, tadr: uword, tie: bool, n: nat, q: Qword, rest: Option<seq<Packet>>)
    requires n > 0 && q == ReadMem(m, BusAddress(AddrOf(tadr), SprOf(tadr)))
    requires !NameOf(TagOf(q)).Subroutine? && !Closes(TagOf(q), tie)
    requires Flattens(rest, TagList(m, NextTag(TagOf(q), tadr), true, tie, n - 1))
    ensures Flattens(Ahead(PacketOf(m, tadr, q), rest), TagList(m, tadr, true, tie, n))
  {
    if rest.Some? {
      TagIsPacket(m, tadr, tie, n, q, rest.value);
    }
  }

  /** What a tag list means as a stream is its packets, flattened. */
  lemma {:induction false} PacketsAreList(m: Memory, tadr: uword, tie: bool, n: nat)
    ensures Flattens(EePackets(m, tadr, tie, n), TagList(m, tadr, true, tie, n))
    decreases n
  {
    if n == 0 {
    } else {
      var q := ReadMem(m, BusAddress(AddrOf(tadr), SprOf(tadr)));
      if NameOf(TagOf(q)).Subroutine? {
      } else if Closes(TagOf(q), tie) {
        TagIsPacket(m, tadr, tie, n, q, []);
      } else {
        PacketsAreList(m, NextTag(TagOf(q), tadr), tie, n - 1);
        AheadFlattens(m, tadr, tie, n, q, EePackets(m, NextTag(TagOf(q), tadr), tie, n - 1));
      }
    }
  }

  // ---------------------------------------------------------------- IOP side

  datatype Received = Received(mem: IopMemory, tags: seq<Qword>)

  function NextWord(madr: uword, mas: bool): uword { Wrap(if mas then madr - 4 else madr + 4) }

  function IopTagOf(q: Qword): IopDmatag { IopDmatag(q.uw0, q.uw1) }

  /** The IOP destination chain run to its end on the bytes of a stream: words go to memory, tags are
      collected. None if the stream is too short or too long. */
  function IopRun(m: IopMemory, madr: uword, length: nat, last: bool, mas: bool, iqe: bool, bytes: seq<ubyte>,
                  tags: seq<Qword>): Option<Received>
    decreases |bytes|
  {
    if length == 0 && last then if bytes == [] then Some(Received(m, tags)) else None
    else if length > 0 then
      if |bytes| < 4 then None
      else IopRun(m[madr := WordOf(bytes[..4])], NextWord(madr, mas), length - 1, last, mas, iqe, bytes[4..], tags)
    else if |bytes| < 16 then None
    else
      var q := QwordOf(bytes[..16]);
      var t := IopTagOf(q);
      IopRun(m, t.Addr(), t.Length(), Stops(t, iqe), mas, iqe, bytes[16..], tags + [q])
  }

  /** Memory after words are stored from an address on, upwards or downwards. */
  function StoreWords(m: IopMemory, madr: uword, mas: bool, ws: seq<uword>): IopMemory
    decreases |ws|
  {
    if ws == [] then m else StoreWords(m[madr := ws[0]], NextWord(madr, mas), mas, ws[1..])
  }

  function WordsOf(qs: seq<Qword>): (ws: seq<uword>)
    ensures |ws| == 4 * |qs|
  {
    if qs == [] then [] else [qs[0].uw0, qs[0].uw1, qs[0].uw2, qs[0].uw3] + WordsOf(qs[1..])
  }

  function Deliver(m: IopMemory, mas: bool, ps: seq<Packet>): IopMemory
    decreases |ps|
  {
    if ps == [] then m
    else Deliver(StoreWords(m, IopTagOf(ps[0].header).Addr(), mas, WordsOf(ps[0].data)), mas, ps[1..])
  }

  function Headers(ps: seq<Packet>): seq<Qword>
  {
    if ps == [] then [] else [ps[0].header] + Headers(ps[1..])
  }

  /** The IOP tag of every packet announces its data, and exactly the last one stops the IOP. */
  predicate WellFormed(ps: seq<Packet>, iqe: bool)
  {
    && |ps| > 0 && IopTagOf(ps[0].header).Length() == 4 * |ps[0].data|
    && (Stops(IopTagOf(ps[0].header), iqe) <==> |ps| == 1)
    && (|ps| > 1 ==> WellFormed(ps[1..], iqe))
  }

  lemma {:induction false} WordsStream(qs: seq<Qword>)
    ensures QwordStream(qs) == WordStream(WordsOf(qs))
  {
    if qs == [] {
    } else {
      var four := [qs[0].uw0, qs[0].uw1, qs[0].uw2, qs[0].uw3];
      WordsStream(qs[1..]);
      WordStreamConcat(four, WordsOf(qs[1..]));
      FourWords(qs[0].uw0, qs[0].uw1, qs[0].uw2, qs[0].uw3);
    }
  }

  lemma WordHead(w: uword, rest: seq<ubyte>)
    ensures (WordBytes(w) + rest)[..4] == WordBytes(w) && (WordBytes(w) + rest)[4..] == rest
    ensures WordOf((WordBytes(w) + rest)[..4]) == w
  {
    WordRoundTrip(w);
  }

  /** The IOP stores the words it is told to expect. */
  lemma {:induction false} RunStores(m: IopMemory, madr: uword, ws: seq<uword>, last: bool, mas: bool, iqe: bool,
                                     rest: seq<ubyte>, tags: seq<Qword>) returns (madr': uword)
    ensures IopRun(m, madr, |ws|, last, mas, iqe, WordStream(ws) + rest, tags)
         == IopRun(StoreWords(m, madr, mas, ws), madr', 0, last, mas, iqe, rest, tags)
    decreases |ws|
  {
    if ws == [] {
      madr' := madr;
      assert WordStream(ws) + rest == rest;
    } else {
      var more := WordStream(ws[1..]) + rest;
      Assoc(WordBytes(ws[0]), WordStream(ws[1..]), rest);
      WordHead(ws[0], more);
      madr' := RunStores(m[madr := ws[0]], NextWord(madr, mas), ws[1..], last, mas, iqe, rest, tags);
      assert WordStream(ws) + rest == WordBytes(ws[0]) + more;
    }
  }

  lemma QwordHead(q: Qword, rest: seq<ubyte>)
    ensures (QwordBytes(q) + rest)[..16] == QwordBytes(q) && (QwordBytes(q) + rest)[16..] == rest
    ensures QwordOf((QwordBytes(q) + rest)[..16]) == q
  {
    QwordRoundTrip(q);
  }

  lemma PacketBytes(p: Packet, ps: seq<Packet>)
    ensures QwordStream(Flat([p] + ps)) == QwordBytes(p.header) + (WordStream(WordsOf(p.data)) + QwordStream(Flat(ps)))
  {
    assert ([p] + ps)[1..] == ps;
    var qs := p.data + Flat(ps);
    assert ([p.header] + qs)[1..] == qs;
    QwordStreamConcat(p.data, Flat(ps));
    WordsStream(p.data);
  }

  /** One packet, whatever follows. */
  lemma RunPacket(m: IopMemory, madr: uword, p: Packet, mas: bool, iqe: bool, rest: seq<ubyte>, tags: seq<Qword>)
    returns (madr': uword)
    requires IopTagOf(p.header).Length() == 4 * |p.data|
    ensures
      var t := IopTagOf(p.header);
      IopRun(m, madr, 0, false, mas, iqe, QwordBytes(p.header) + (WordStream(WordsOf(p.data)) + rest), tags)
        == IopRun(StoreWords(m, t.Addr(), mas, WordsOf(p.data)), madr', 0, Stops(t, iqe), mas, iqe, rest,
                  tags + [p.header])
  {
    var t := IopTagOf(p.header);
    QwordHead(p.header, WordStream(WordsOf(p.data)) + rest);
    madr' := RunStores(m, t.Addr(), WordsOf(p.data), Stops(t, iqe), mas, iqe, rest, tags + [p.header]);
  }

  lemma NothingLeft(m: IopMemory, madr: uword, mas: bool, iqe: bool, ps: seq<Packet>, tags: seq<Qword>)
    requires ps == []
    ensures IopRun(m, madr, 0, true, mas, iqe, QwordStream(Flat(ps)), tags)
         == Some(Received(Deliver(m, mas, ps), tags + Headers(ps)))
  {
    assert tags + [] == tags;
  }

  lemma DeliverFirst(m: IopMemory, mas: bool, ps: seq<Packet>)
    requires ps != []
    ensures Deliver(m, mas, ps)
         == Deliver(StoreWords(m, IopTagOf(ps[0].header).Addr(), mas, WordsOf(ps[0].data)), mas, ps[1..])
    ensures Headers(ps) == [ps[0].header] + Headers(ps[1..])
  {
  }

  /** Run on a well-formed stream, the IOP stores exactly the payloads and reads exactly the headers
      as tags. */
  lemma {:induction false} IopRunDelivers(m: IopMemory, madr: uword, ps: seq<Packet>, mas: bool, iqe: bool,
                                          tags: seq<Qword>)
    requires WellFormed(ps, iqe)
    ensures IopRun(m, madr, 0, false, mas, iqe, QwordStream(Flat(ps)), tags)
         == Some(Received(Deliver(m, mas, ps), tags + Headers(ps)))
    decreases |ps|
  {
    var (p, rest) := (ps[0], ps[1..]);
    assert ps == [p] + rest;
    PacketBytes(p, rest);
    var m' := StoreWords(m, IopTagOf(p.header).Addr(), mas, WordsOf(p.data));
    var madr' := RunPacket(m, madr, p, mas, iqe, QwordStream(Flat(rest)), tags);
    DeliverFirst(m, mas, ps);
    Assoc(tags, [p.header], Headers(rest));
    if |ps| == 1 {
      NothingLeft(m', madr', mas, iqe, rest, tags + [p.header]);
    } else {
      IopRunDelivers(m', madr', rest, mas, iqe, tags + [p.header]);
    }
  }
}
