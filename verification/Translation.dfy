/** The slow path of the EE Core's address translation: a pure function of the COP0 state, the TLB,
    the address and the kind of access. */
module Translation {
  import opened Wrappers
  import opened Words
  import opened Bits
  import opened Tlb

  datatype Access = Read | Write
  datatype Mode = KernelMode | SupervisorMode | UserMode

  /** The COP0 fields that translation and exceptions use: Status, EntryHi, Context, BadVAddr,
      Random, Cause, EPC and ErrorEPC. */
  datatype Cop0 = Cop0(
    ksu: Mode, erl: bool, exl: bool, bev: bool, dev: bool, asid: nat, vpn2: nat,
    badvpn2: nat, badvaddr: uword, random: nat, exccode: nat, exc2: nat, bd: bool, bd2: bool,
    epc: uword, errorepc: uword)
  {
    /** The operating context: any error or exception level is kernel context. */
    function Context(): Mode { if erl || exl then KernelMode else ksu }
  }

  const TLB_MODIFIED := 1
  const REFILL_LOAD := 2
  const REFILL_STORE := 3
  const ADDRESS_LOAD := 4
  const ADDRESS_STORE := 5

  /** A physical address, or the exception that is raised. */
  datatype Result = Physical(address: nat) | Fault(code: nat)

  /** The segment check and the unmapped segments; none where the TLB decides. */
  function Segment(c: Cop0, va: uword, rw: Access): (r: Option<Result>)
    ensures r.Some? && r.value.Fault? ==> r.value.code <= ADDRESS_STORE
  {
    var error := Fault(if rw.Read? then ADDRESS_LOAD else ADDRESS_STORE);
    match c.Context()
    case UserMode => if va <= 0x7FFF_FFFF then None else Some(error)
    case SupervisorMode =>
      // The first range is empty: its bounds are those of two different segments.
      if (0xC000_0000 <= va <= 0x7FFF_FFFF) || va <= 0xDFFF_FFFF then None else Some(error)
    case KernelMode =>
      if 0x8000_0000 <= va <= 0x9FFF_FFFF then Some(Physical(va - 0x8000_0000))
      else if 0xA000_0000 <= va <= 0xBFFF_FFFF then Some(Physical(va - 0xA000_0000))
      else if c.erl && va <= 0x7FFF_FFFF then Some(Physical(va))
      else None
  }

  /** The supervisor segment test rejects exactly the addresses above 0xDFFFFFFF: its other range is
      empty. */
  lemma SupervisorSegment(c: Cop0, va: uword, rw: Access)
    requires c.Context() == SupervisorMode
    ensures Segment(c, va, rw).Some? <==> va > 0xDFFF_FFFF
    ensures Segment(c, va, rw).Some? ==>
      Segment(c, va, rw) == Some(Fault(if rw.Read? then ADDRESS_LOAD else ADDRESS_STORE))
  {
  }

  /** In user context, with no level set, an address is rejected exactly if it is above 0x7FFFFFFF, with
      exception 4 for a read and 5 for a write. */
  lemma UserSegment(c: Cop0, va: uword, rw: Access)
    requires c.ksu.UserMode? && !c.erl && !c.exl
    ensures Segment(c, va, rw) == if va <= 0x7FFF_FFFF then None else Some(Fault(if rw.Read? then 4 else 5))
  {
  }

  /** In kernel context, which either level implies, two segments are unmapped, and a third with the
      error level set; the TLB decides on the rest. */
  lemma KernelSegment(c: Cop0, va: uword, rw: Access)
    requires c.ksu.KernelMode? || c.erl || c.exl
    ensures
      Segment(c, va, rw) ==
        if c.erl && va < 0x8000_0000 then Some(Physical(va))
        else if 0x8000_0000 <= va < 0xA000_0000 then Some(Physical(va - 0x8000_0000))
        else if 0xA000_0000 <= va < 0xC000_0000 then Some(Physical(va - 0xA000_0000))
        else None
  {
  }

  /** The address that an entry maps an address to: in the scratchpad, or in the frame of its page. */
  function MappedTo(e: TlbEntry, va: uword): nat
  {
    if e.s then 0x7000_0000 + And(va, 0x3FFF) else Or(e.PageOf(va).pfn * 0x1000, And(va, e.mask.Offset()))
  }

  /** Translation by a matching entry. */
  function ByEntry(c: Cop0, e: TlbEntry, va: uword, rw: Access): (r: Result)
    ensures r.Fault? ==> r.code <= ADDRESS_STORE
  {
    var refill := Fault(if rw.Read? then REFILL_LOAD else REFILL_STORE);
    var page := e.PageOf(va);
    if !e.g && c.asid != e.asid then refill
    else if !page.v then refill
    else if !page.d && rw.Write? then Fault(TLB_MODIFIED)
    else Physical(MappedTo(e, va))
  }

  /** A complete TLB whose entries the constructor of Mask accepted. */
  predicate Wellformed(es: seq<TlbEntry>)
  {
    |es| == ENTRIES && forall i :: 0 <= i < |es| ==> es[i].Valid()
  }

  function Translate(c: Cop0, es: seq<TlbEntry>, va: uword, rw: Access): (r: Result)
    requires Wellformed(es)
    ensures r.Fault? ==> r.code <= ADDRESS_STORE
  {
    var segment := Segment(c, va, rw);
    if segment.Some? then segment.value
    else
      FindFirst(es, va);
      var i := Find(es, va);
      if i == -1 then Fault(if rw.Read? then REFILL_LOAD else REFILL_STORE)
      else ByEntry(c, es[i], va, rw)
  }

  // ---------------------------------------------------------------- 4 KB pages

  function PageBase(va: uword): uword { va / 0x1000 * 0x1000 }

  /** PageBase clears the low 12 bits, and they are the rest of the address. */
  lemma PageBaseIsMask(va: uword)
    ensures PageBase(va) == And(va, 0xFFFF_F000) && va % 0x1000 == And(va, 0xFFF)
    ensures PageBase(va) % 0x1000 == 0 && va == PageBase(va) + va % 0x1000
  {
    Low12(va);
    Powers();
    AndComplement(va, 0xFFF, 32);
  }

  lemma Twice(a: nat, p: nat)
    ensures a * (2 * p) == 2 * (a * p)
  {
  }

  lemma OrFromHalves(x: nat, y: nat, u: nat, v: nat, bit: nat)
    requires x == 2 * u && y == 2 * v + bit && bit < 2
    ensures Or(x, y) == 2 * Or(u, v) + bit
  {
    OrUnfold(x, y);
  }

  /** Joining digits below 2^k to a value does not disturb a disjunction above them. */
  lemma {:induction false} OrLowDigits(x: nat, y: nat, a: nat, b: nat, c: nat, k: nat, p: nat)
    requires p == Pow2(k) && c < p && x == a * p && y == b * p + c
    ensures Or(x, y) == Or(a, b) * p + c
    decreases k
  {
    if k == 0 {
      assert x == a && y == b;
    } else {
      var h := Pow2(k - 1);
      var (u, v, o) := (a * h, b * h + c / 2, Or(a, b));
      OrLowDigits(u, v, a, b, c / 2, k - 1, h);
      Twice(a, h);
      Twice(b, h);
      Twice(o, h);
      OrFromHalves(x, y, u, v, c % 2);
    }
  }

  lemma OrLowAt(a: nat, b: nat, c: nat, k: nat, p: nat)
    requires Pow2(k) == p && c < p
    ensures Or(a * p, b * p + c) == Or(a, b) * p + c
  {
    OrLowDigits(a * p, b * p + c, a, b, c, k, p);
  }

  lemma OrLow12(a: nat, b: nat, c: nat)
    requires c < 0x1000
    ensures Or(a * 0x1000, b * 0x1000 + c) == Or(a, b) * 0x1000 + c
  {
    Powers();
    OrLowAt(a, b, c, 12, 0x1000);
  }

  lemma SameQuotient(x: nat, y: nat, d: nat)
    requires d > 0 && (x + y) / d == x / d
    ensures (x + y) % d == x % d + y
  {
    DivMod(x, d);
    DivMod(x + y, d);
  }

  lemma WholePages(x: nat)
    ensures x % 0x1000 == 0 ==> x == x / 0x1000 * 0x1000
  {
  }

  /** The page number and offset of an address at a coarser page size. */
  lemma Coarser(key: nat, offset: nat, q: nat)
    requires key % 0x1000 == 0 && offset < 0x1000 && q > 0
    ensures (key + offset) / (q * 0x1000) == key / (q * 0x1000)
    ensures (key + offset) % (q * 0x1000) == key % (q * 0x1000) + offset
    ensures key % (q * 0x1000) == key / 0x1000 % q * 0x1000
  {
    var d := q * 0x1000;
    DivDiv(key, 0x1000, q);
    DivDiv(key + offset, 0x1000, q);
    assert (key + offset) / 0x1000 == key / 0x1000;
    SameQuotient(key, offset, d);
    WholePages(key % d);
  }

  /** va is in the 4 KB page at key. */
  predicate OnPage(key: uword, va: uword)
  {
    key % 0x1000 == 0 && key <= va < key + 0x1000
  }

  lemma SmallPages(key: uword, va: uword)
    requires OnPage(key, va)
    ensures va / 0x2000 == key / 0x2000 && va / 0x4000 == key / 0x4000
    ensures va % 0x4000 == key % 0x4000 + (va - key)
  {
  }

  lemma TagOnPage(m: Mask, key: uword, va: uword)
    requires m.Valid() && OnPage(key, va)
    ensures And(va, m.tlb) / 0x2000 == And(key, m.tlb) / 0x2000
  {
    MaskedTag(m, key);
    MaskedTag(m, va);
    SmallPages(key, va);
  }

  lemma EvenOddOnPage(m: Mask, key: uword, va: uword)
    requires m.Valid() && OnPage(key, va)
    ensures And(va, m.evenodd) != 0 <==> And(key, m.evenodd) != 0
  {
    MaskedEvenOdd(m, key);
    MaskedEvenOdd(m, va);
    Coarser(key, va - key, m.pagemask + 1);
  }

  lemma OffsetsInPage(key: nat, va: nat, q: nat, size: nat, a: nat, b: nat)
    requires key % 0x1000 == 0 && key <= va < key + 0x1000
    requires q > 0 && size == q * 0x1000 && a == key % size && b == va % size
    ensures b == a + (va - key) && a == key / 0x1000 % q * 0x1000
  {
    Coarser(key, va - key, q);
  }

  lemma OffsetOnPage(m: Mask, key: uword, va: uword)
    requires m.Valid() && OnPage(key, va)
    ensures And(va, m.Offset()) == And(key, m.Offset()) + (va - key)
    ensures And(key, m.Offset()) == key / 0x1000 % (m.pagemask + 1) * 0x1000
  {
    MaskedOffset(m, key);
    MaskedOffset(m, va);
    OffsetsInPage(key, va, m.pagemask + 1, m.PageSize(), And(key, m.Offset()), And(va, m.Offset()));
  }

  lemma MatchSameOnPage(e: TlbEntry, key: uword, va: uword)
    requires e.Valid() && OnPage(key, va)
    ensures IsMatch(e, va) == IsMatch(e, key) && e.PageOf(va) == e.PageOf(key)
  {
    TagOnPage(e.mask, key, va);
    EvenOddOnPage(e.mask, key, va);
    SmallPages(key, va);
  }

  /** An address is found by the same entry as its page. */
  lemma FindSameOnPage(es: seq<TlbEntry>, key: uword, va: uword)
    requires Wellformed(es) && OnPage(key, va)
    ensures Find(es, va) == Find(es, key)
  {
    forall i | 0 <= i < |es|
      ensures Matches(es, va)[i] == Matches(es, key)[i]
    {
      MatchSameOnPage(es[i], key, va);
    }
    assert Matches(es, va) == Matches(es, key);
  }

  predicate Shifted(a: Result, b: Result, offset: nat)
  {
    match a
    case Physical(p) => b == Physical(p + offset) && p % 0x1000 == 0
    case Fault(_) => b == a
  }

  lemma FrameJoin(pfn: nat, low: nat, b: nat, offset: nat)
    requires low == b * 0x1000 && offset < 0x1000
    ensures Or(pfn * 0x1000, low) == Or(pfn, b) * 0x1000
    ensures Or(pfn * 0x1000, low + offset) == Or(pfn, b) * 0x1000 + offset
    ensures Or(pfn, b) * 0x1000 % 0x1000 == 0
  {
    OrLow12(pfn, b, 0);
    OrLow12(pfn, b, offset);
    DivMul(Or(pfn, b), 0x1000);
  }

  lemma QuarterPages(key: uword)
    requires key % 0x1000 == 0
    ensures (0x7000_0000 + key % 0x4000) % 0x1000 == 0
  {
  }

  lemma Low14(v: nat)
    ensures And(v, 0x3FFF) == v % 0x4000
  {
    Powers();
    Pow2Add(12, 2);
    LowMaskAt(v, 14, 0x4000);
  }

  lemma ScratchpadOnPage(key: uword, va: uword)
    requires OnPage(key, va)
    ensures 0x7000_0000 + And(va, 0x3FFF) == 0x7000_0000 + And(key, 0x3FFF) + (va - key)
    ensures (0x7000_0000 + And(key, 0x3FFF)) % 0x1000 == 0
  {
    Low14(key);
    Low14(va);
    SmallPages(key, va);
    QuarterPages(key);
  }

  lemma FrameAt(pfn: nat, low: nat, full: nat, b: nat, offset: nat) returns (a: nat)
    requires low == b * 0x1000 && offset < 0x1000 && full == low + offset
    ensures a % 0x1000 == 0 && Or(pfn * 0x1000, low) == a && Or(pfn * 0x1000, full) == a + offset
  {
    a := Or(pfn, b) * 0x1000;
    FrameJoin(pfn, low, b, offset);
  }

  /** The frame's address is that of the page, with the offset added. */
  lemma FrameOnPage(m: Mask, pfn: nat, key: uword, va: uword) returns (a: nat)
    requires m.Valid() && OnPage(key, va)
    ensures a % 0x1000 == 0
    ensures Or(pfn * 0x1000, And(key, m.Offset())) == a && Or(pfn * 0x1000, And(va, m.Offset())) == a + (va - key)
  {
    var b := key / 0x1000 % (m.pagemask + 1);
    OffsetOnPage(m, key, va);
    a := FrameAt(pfn, And(key, m.Offset()), And(va, m.Offset()), b, va - key);
  }

  lemma MappedOnPage(e: TlbEntry, key: uword, va: uword)
    requires e.Valid() && OnPage(key, va) && e.PageOf(va) == e.PageOf(key)
    ensures MappedTo(e, key) % 0x1000 == 0 && MappedTo(e, va) == MappedTo(e, key) + (va - key)
  {
    if e.s {
      ScratchpadOnPage(key, va);
    } else {
      var a := FrameOnPage(e.mask, e.PageOf(key).pfn, key, va);
    }
  }

  lemma EntrySameOnPage(c: Cop0, e: TlbEntry, key: uword, va: uword, rw: Access)
    requires e.Valid() && OnPage(key, va)
    ensures Shifted(ByEntry(c, e, key, rw), ByEntry(c, e, va, rw), va - key)
  {
    EvenOddOnPage(e.mask, key, va);
    MappedOnPage(e, key, va);
  }

  lemma SegmentSameOnPage(c: Cop0, key: uword, va: uword, rw: Access)
    requires OnPage(key, va)
    ensures
      var (a, b) := (Segment(c, key, rw), Segment(c, va, rw));
      if a.None? then b.None? else b.Some? && Shifted(a.value, b.value, va - key)
  {
  }

  /** The slow path is homogeneous on 4 KB pages: an address translates exactly as its page does,
      with the offset added, and raises the same exception if it fails. */
  lemma PageHomogeneous(c: Cop0, es: seq<TlbEntry>, key: uword, va: uword, rw: Access)
    requires Wellformed(es) && OnPage(key, va)
    ensures Shifted(Translate(c, es, key, rw), Translate(c, es, va, rw), va - key)
  {
    SegmentSameOnPage(c, key, va, rw);
    FindSameOnPage(es, key, va);
    FindFirst(es, key);
    if Find(es, key) != -1 {
      EntrySameOnPage(c, es[Find(es, key)], key, va, rw);
    }
  }

  predicate WriteFollowsRead(r: Result, w: Result)
  {
    && (w.Physical? ==> r == w)
    && (r.Physical? && w.Fault? <==> w == Fault(TLB_MODIFIED))
    && (r.Fault? ==> w == Fault(r.code + 1))
  }

  lemma EntryWriteFollows(c: Cop0, e: TlbEntry, va: uword)
    ensures WriteFollowsRead(ByEntry(c, e, va, Read), ByEntry(c, e, va, Write))
  {
  }

  lemma SegmentWriteFollows(c: Cop0, va: uword)
    ensures
      var (r, w) := (Segment(c, va, Read), Segment(c, va, Write));
      if r.None? then w.None? else w.Some? && WriteFollowsRead(r.value, w.value)
  {
  }

  /** A write translates as a read does, unless the page is clean: then it faults, and with
      TLB_MODIFIED exactly where the read succeeds. */
  lemma WriteAgainstRead(c: Cop0, es: seq<TlbEntry>, va: uword)
    requires Wellformed(es)
    ensures
      var (r, w) := (Translate(c, es, va, Read), Translate(c, es, va, Write));
      && (w.Physical? ==> r == w)
      && (r.Physical? && w.Fault? <==> w == Fault(TLB_MODIFIED))
      && (r.Fault? ==> w == Fault(r.code + 1))
  {
    SegmentWriteFollows(c, va);
    FindFirst(es, va);
    if Segment(c, va, Read).None? && Find(es, va) != -1 {
      EntryWriteFollows(c, es[Find(es, va)], va);
    }
  }

  lemma Pairs(n: nat, q: nat)
    ensures n * q * 0x2000 == (2 * n) * (q * 0x1000)
  {
  }

  /** Position of an address in an aligned pair of pages. */
  lemma InBlock(va: nat, vpn2: nat, q: nat)
    requires q > 0 && vpn2 % q == 0 && vpn2 * 0x2000 <= va < vpn2 * 0x2000 + 2 * (q * 0x1000)
    ensures
      var (base, size) := (vpn2 * 0x2000, q * 0x1000);
      && (va / size % 2 == 1 <==> va >= base + size)
      && va % size == va - base - if va >= base + size then size else 0
  {
    var (base, size, n) := (vpn2 * 0x2000, q * 0x1000, vpn2 / q);
    DivMod(vpn2, q);
    assert base == (2 * n) * size by { assert vpn2 == n * q; Pairs(n, q); }
    if va >= base + size {
      assert (2 * n + 1) * size == base + size;
      DivModUnique(va, size, 2 * n + 1, va - base - size);
    } else {
      DivModUnique(va, size, 2 * n, va - base);
    }
  }

  lemma Scaled(n: nat, q: nat)
    ensures n * q * 0x1000 == n * (q * 0x1000)
  {
  }

  lemma AlignedOr(pfn: nat, q: nat, low: nat, k: nat)
    requires q > 0 && pfn % q == 0 && low < q * 0x1000 == Pow2(k)
    ensures Or(pfn * 0x1000, low) == pfn * 0x1000 + low
  {
    var n := pfn / q;
    DivMod(pfn, q);
    Scaled(n, q);
    OrLowAt(n, 0, low, k, q * 0x1000);
    assert Or(n, 0) == n;
  }

  lemma FrameOffset(m: Mask, pfn: nat, va: uword)
    requires m.Valid() && pfn % (m.pagemask + 1) == 0
    ensures m.PageSize() > 0
    ensures Or(pfn * 0x1000, va % m.PageSize()) == pfn * 0x1000 + va % m.PageSize()
  {
    var j := MaskShape(m);
    AlignedOr(pfn, m.pagemask + 1, va % m.PageSize(), 12 + j);
  }

  /** Within a page of a mapped entry the physical address is the frame's address plus the distance
      from the start of the page, provided the frame is aligned to the page size. */
  lemma EntryIsLinear(c: Cop0, e: TlbEntry, va: uword, rw: Access)
    requires e.Valid() && !e.s && IsMatch(e, va) && ByEntry(c, e, va, rw).Physical?
    ensures
      var size := e.mask.PageSize();
      var odd := va >= e.Base() + size;
      var page := if odd then e.odd else e.even;
      && e.PageOf(va) == page
      && (page.pfn % (e.mask.pagemask + 1) == 0 ==>
            ByEntry(c, e, va, rw).address
            == page.pfn * 0x1000 + (va - e.Base() - if odd then size else 0))
  {
    var q := e.mask.pagemask + 1;
    MatchIsRange(e, va);
    MaskedEvenOdd(e.mask, va);
    MaskedOffset(e.mask, va);
    InBlock(va, e.vpn2, q);
    var page := e.PageOf(va);
    if page.pfn % q == 0 {
      FrameOffset(e.mask, page.pfn, va);
    }
  }

  /** Which of the two pages of an entry holds an address: the half of its range decides. */
  lemma PageByHalf(e: TlbEntry, va: uword)
    requires e.Valid()
    ensures e.mask.PageSize() > 0
    ensures e.PageOf(va) == if va / e.mask.PageSize() % 2 == 1 then e.odd else e.even
    ensures !e.s && IsMatch(e, va) ==> e.PageOf(va) == if va >= e.Base() + e.mask.PageSize() then e.odd else e.even
  {
    MaskedEvenOdd(e.mask, va);
    if !e.s && IsMatch(e, va) {
      MatchIsRange(e, va);
      InBlock(va, e.vpn2, e.mask.pagemask + 1);
    }
  }

  /** Where the TLB decides and finds an entry, a read succeeds exactly if the entry is global or has
      the current ASID and the page of the address is valid, and a write exactly if it is also dirty.
      A read fails with exception 2, a write with 1 if only the dirty bit is missing and else 3. */
  lemma EntryDecides(c: Cop0, es: seq<TlbEntry>, va: uword, i: nat)
    requires Wellformed(es) && Segment(c, va, Read).None? && i < |es| && Find(es, va) == i
    ensures (es[i].mask.pagemask + 1) * 0x1000 > 0
    ensures
      var (r, w) := (Translate(c, es, va, Read), Translate(c, es, va, Write));
      var (e, size) := (es[i], (es[i].mask.pagemask + 1) * 0x1000);
      var page := if va / size % 2 == 1 then e.odd else e.even;
      var valid := (e.g || e.asid == c.asid) && page.v;
      && (r.Physical? <==> valid) && (r.Fault? ==> r.code == 2)
      && (w.Physical? <==> valid && page.d) && (w.Fault? ==> w.code == if valid then 1 else 3)
  {
    FindFirst(es, va);
    PageByHalf(es[i], va);
  }

  /** Where it finds none, a read fails with exception 2 and a write with 3. */
  lemma NoEntry(c: Cop0, es: seq<TlbEntry>, va: uword)
    requires Wellformed(es) && Segment(c, va, Read).None? && Find(es, va) == -1
    ensures Translate(c, es, va, Read) == Fault(2) && Translate(c, es, va, Write) == Fault(3)
  {
  }

  /** The address given: in the scratchpad at 0x70000000, or the frame joined with the offset in the
      page. */
  lemma EntryGives(c: Cop0, es: seq<TlbEntry>, va: uword, rw: Access, i: nat)
    requires Wellformed(es) && Segment(c, va, rw).None? && i < |es| && Find(es, va) == i
    requires Translate(c, es, va, rw).Physical?
    ensures es[i].mask.PageSize() > 0
    ensures
      Translate(c, es, va, rw).address ==
        if es[i].s then 0x7000_0000 + va % 0x4000
        else Or(es[i].PageOf(va).pfn * 0x1000, va % es[i].mask.PageSize())
  {
    FindFirst(es, va);
    MaskedOffset(es[i].mask, va);
    Low14(va);
  }
}
