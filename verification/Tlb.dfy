/** The EE Core's translation lookaside buffer: page masks, entries and the probe order. */
module Tlb {
  import opened Wrappers
  import opened Words
  import opened Bits

  // ---------------------------------------------------------------- page masks

  /** A page mask and the two masks derived from it. */
  datatype Mask = Mask(pagemask: nat, evenodd: nat, tlb: nat) {

    predicate Valid() { pagemask <= 0xFFF && MakeMask(pagemask) == Some(this) }

    /** The address bits within a page. */
    function Offset(): nat { Or(pagemask * 0x1000, 0xFFF) }

    function PageSize(): nat { (pagemask + 1) * 0x1000 }
  }

  function EvenOddBit(size: nat): Option<nat>
  {
    match size
    case 0x0 => Some(0x1000)
    case 0x3 => Some(0x4000)
    case 0xF => Some(0x1_0000)
    case 0x3F => Some(0x4_0000)
    case 0xFF => Some(0x10_0000)
    case 0x3FF => Some(0x40_0000)
    case 0xFFF => Some(0x100_0000)
    case _ => None
  }

  /** The bit that selects the even or odd page, if the low 12 bits are a page size. */
  function EvenOdd(pagemask: nat): Option<nat> { EvenOddBit(And(pagemask, 0xFFF)) }

  /** None where the constructor throws. */
  function MakeMask(pagemask: uword): Option<Mask>
  {
    var evenodd := EvenOdd(pagemask);
    if evenodd.None? then None
    else Some(Mask(pagemask, evenodd.value, Or(0xFE00_0000, Shl(And(0xFFFF_FFFF - pagemask, 0xFFF), 13))))
  }

  lemma LowMaskAt(v: nat, len: nat, p: nat)
    requires Pow2(len) == p
    ensures And(v, p - 1) == v % p
  {
    AndLowMask(v, len);
  }

  lemma Low12(v: nat)
    ensures And(v, 0xFFF) == v % 0x1000
  {
    Powers();
    LowMaskAt(v, 12, 0x1000);
  }

  lemma LowComplement(p: uword)
    ensures (0xFFFF_FFFF - p) % 0x1000 == 0xFFF - p % 0x1000
  {
  }

  lemma InvertedMask(p: uword)
    ensures Shl(And(0xFFFF_FFFF - p, 0xFFF), 13) == (0xFFF - p % 0x1000) * 0x2000
  {
    Low12(0xFFFF_FFFF - p);
    LowComplement(p);
    Powers();
    ShlIsMul(0xFFF - p % 0x1000, 13);
  }

  lemma EvenOddValues(size: nat)
    ensures EvenOddBit(size).Some? <==>
      size == 0 || size == 3 || size == 0xF || size == 0x3F || size == 0xFF || size == 0x3FF || size == 0xFFF
    ensures EvenOddBit(size).Some? ==> EvenOddBit(size).value == (size + 1) * 0x1000
  {
  }

  lemma BelowMask(v: nat, start: nat, len: nat)
    requires v < Pow2(start)
    ensures And(v, (Pow2(len) - 1) * Pow2(start)) == 0
  {
    AndShiftedMask(v, start, len);
    DivModUnique(v, Pow2(start), 0, v);
    SmallRemainder(Pow2(len));
  }

  lemma HighMaskAt(v: nat, start: nat, len: nat, p: nat, l: nat, mask: nat)
    requires Pow2(start) == p && Pow2(len) == l && mask == (l - 1) * p && v < p
    ensures And(v, mask) == 0
  {
    BelowMask(v, start, len);
  }

  /** The address bits from 25 on are in every tag. */
  lemma TopBits(low: nat)
    requires low < 0x200_0000
    ensures Or(0xFE00_0000, low) == 0xFE00_0000 + low
  {
    Powers();
    HighMaskAt(low, 25, 7, 0x200_0000, 0x80, 0xFE00_0000);
    AndComm(0xFE00_0000, low);
    OrIsSum(0xFE00_0000, low);
  }

  lemma TlbMaskValue(p: uword)
    ensures Or(0xFE00_0000, Shl(And(0xFFFF_FFFF - p, 0xFFF), 13)) == 0xFE00_0000 + (0xFFF - p % 0x1000) * 0x2000
  {
    InvertedMask(p);
    TopBits((0xFFF - p % 0x1000) * 0x2000);
  }

  /** The constructor accepts exactly the page masks whose low 12 bits are a power of four from 1 to
      4096, less one. */
  lemma MaskValues(p: uword)
    ensures
      var size := p % 0x1000;
      && (MakeMask(p).Some? <==>
            size == 0 || size == 3 || size == 0xF || size == 0x3F || size == 0xFF || size == 0x3FF || size == 0xFFF)
      && (MakeMask(p).Some? ==>
            MakeMask(p).value == Mask(p, (size + 1) * 0x1000, 0xFE00_0000 + (0xFFF - size) * 0x2000))
  {
    Low12(p);
    EvenOddValues(p % 0x1000);
    TlbMaskValue(p);
  }

  /** The exponent of a page size. */
  lemma Exponent(p: nat) returns (j: nat)
    requires p == 0 || p == 3 || p == 0xF || p == 0x3F || p == 0xFF || p == 0x3FF || p == 0xFFF
    ensures j <= 12 && p + 1 == Pow2(j)
  {
    Powers();
    j := if p == 0 then 0 else if p == 3 then 2 else if p == 0xF then 4 else if p == 0x3F then 6
      else if p == 0xFF then 8 else if p == 0x3FF then 10 else 12;
  }

  lemma PageExponent(j: nat)
    ensures Pow2(12 + j) == Pow2(j) * 0x1000 && Pow2(13 + j) == Pow2(j) * 0x2000
  {
    Powers();
    Pow2Add(12, j);
    Pow2Add(13, j);
  }

  lemma LessOne(a: nat, b: nat)
    requires a > 0
    ensures (a - 1) * b == a * b - b
  {
  }

  lemma TagPower(j: nat)
    requires j <= 12
    ensures (Pow2(19 - j) - 1) * Pow2(13 + j) == 0x1_0000_0000 - Pow2(13 + j)
    ensures Pow2(19 - j) * Pow2(13 + j) == 0x1_0000_0000
  {
    Powers();
    Pow2Add(19 - j, 13 + j);
    Pow2Add(7, 25);
    LessOne(Pow2(19 - j), Pow2(13 + j));
  }

  lemma LowBitsClear(p: nat)
    ensures And(p * 0x1000, 0xFFF) == 0
  {
    DivMul(p, 0x1000);
    Low12(p * 0x1000);
  }

  lemma OffsetIsSum(p: nat)
    ensures Or(p * 0x1000, 0xFFF) == p * 0x1000 + 0xFFF
  {
    LowBitsClear(p);
    OrIsSum(p * 0x1000, 0xFFF);
  }

  lemma ValidMaskValues(m: Mask)
    requires m.Valid()
    ensures
      var p := m.pagemask;
      && (p == 0 || p == 3 || p == 0xF || p == 0x3F || p == 0xFF || p == 0x3FF || p == 0xFFF)
      && m.evenodd == (p + 1) * 0x1000 && m.tlb == 0xFE00_0000 + (0xFFF - p) * 0x2000
  {
    MaskValues(m.pagemask);
    SmallMod(m.pagemask, 0x1000);
  }

  /** The masks of a page size, in powers of two: the tag is above two pages. */
  lemma MaskShape(m: Mask) returns (j: nat)
    requires m.Valid()
    ensures j <= 12 && m.pagemask + 1 == Pow2(j)
    ensures m.evenodd == Pow2(12 + j) == m.PageSize()
    ensures m.tlb == (Pow2(19 - j) - 1) * Pow2(13 + j)
    ensures m.Offset() == Pow2(12 + j) - 1
  {
    ValidMaskValues(m);
    j := Exponent(m.pagemask);
    PageExponent(j);
    TagPower(j);
    OffsetIsSum(m.pagemask);
  }

  lemma Disjoint(offset: nat, evenodd: nat, tlb: nat, j: nat)
    requires j <= 12 && offset == Pow2(12 + j) - 1 && evenodd == Pow2(12 + j)
    requires tlb == (Pow2(19 - j) - 1) * Pow2(13 + j)
    ensures And(evenodd, tlb) == 0 && And(offset, tlb) == 0 && And(offset, evenodd) == 0
    ensures And(offset + evenodd, tlb) == 0 && offset + evenodd == Pow2(13 + j) - 1
  {
    var (p, l) := (Pow2(13 + j), Pow2(19 - j));
    assert p == 2 * evenodd;
    HighMaskAt(evenodd, 13 + j, 19 - j, p, l, tlb);
    HighMaskAt(offset, 13 + j, 19 - j, p, l, tlb);
    HighMaskAt(offset + evenodd, 13 + j, 19 - j, p, l, tlb);
    assert Pow2(1) == 2;
    HighMaskAt(offset, 12 + j, 1, evenodd, 2, evenodd);
  }

  /** The tag, even/odd and offset masks of every valid page mask partition the 32 address bits,
      and the even/odd bit is the page size. */
  lemma MasksPartition(m: Mask)
    requires m.Valid()
    ensures And(m.evenodd, m.tlb) == 0 && And(m.Offset(), m.tlb) == 0 && And(m.Offset(), m.evenodd) == 0
    ensures Or(Or(m.Offset(), m.evenodd), m.tlb) == 0xFFFF_FFFF
    ensures m.evenodd == m.PageSize()
  {
    var j := MaskShape(m);
    TagPower(j);
    Disjoint(m.Offset(), m.evenodd, m.tlb, j);
    OrIsSum(m.Offset(), m.evenodd);
    OrIsSum(m.Offset() + m.evenodd, m.tlb);
  }

  // ---------------------------------------------------------------- entries

  datatype Page = Page(pfn: nat, d: bool, v: bool)

  datatype TlbEntry = TlbEntry(mask: Mask, vpn2: nat, g: bool, asid: nat, s: bool, even: Page, odd: Page) {

    /** What the fields of the COP0 registers it is written from can hold. */
    predicate Valid() { mask.Valid() && vpn2 < 0x8_0000 && even.pfn < 0x10_0000 && odd.pfn < 0x10_0000 }

    /** The first address of the even page. */
    function Base(): nat { vpn2 * 0x2000 }

    function PageOf(va: uword): Page { if And(va, mask.evenodd) != 0 then odd else even }
  }

  predicate IsMatch(e: TlbEntry, va: uword)
  {
    (e.s && va / 0x4000 == e.vpn2 / 2) || And(va, e.mask.tlb) / 0x2000 == e.vpn2
  }

  lemma Regroup(y: nat, q: nat)
    ensures y * (q * 0x2000) / 0x2000 == y * q
  {
    assert y * (q * 0x2000) == (y * q) * 0x2000;
  }

  lemma TagArithmetic(va: nat, q: nat, n: nat, span: nat)
    requires q > 0 && span == q * 0x2000 && va < n * span
    ensures va / span % n * span / 0x2000 == va / 0x2000 / q * q
  {
    DivDiv(va, 0x2000, q);
    QuotientBelow(va, span, n);
    SmallMod(va / span, n);
    Regroup(va / span, q);
  }

  lemma UnderTag(va: uword, q: nat, tlb: nat, j: nat)
    requires j <= 12 && q == Pow2(j) && tlb == (Pow2(19 - j) - 1) * Pow2(13 + j)
    ensures And(va, tlb) / 0x2000 == va / 0x2000 / q * q
  {
    TagPower(j);
    PageExponent(j);
    AndShiftedMask(va, 13 + j, 19 - j);
    TagArithmetic(va, q, Pow2(19 - j), Pow2(13 + j));
  }

  /** An address under the masks of its page size, arithmetically. */
  lemma MaskedTag(m: Mask, va: uword)
    requires m.Valid()
    ensures And(va, m.tlb) / 0x2000 == va / 0x2000 / (m.pagemask + 1) * (m.pagemask + 1)
  {
    var j := MaskShape(m);
    UnderTag(va, m.pagemask + 1, m.tlb, j);
  }

  lemma OneBit(b: nat, p: nat)
    requires b < 2 && p > 0
    ensures b * p != 0 <==> b == 1
  {
  }

  lemma UnderEvenOdd(va: nat, size: nat, start: nat)
    requires size == Pow2(start)
    ensures And(va, size) != 0 <==> va / size % 2 == 1
  {
    AndShiftedMask(va, start, 1);
    LessOne(2, size);
    OneBit(va / size % 2, size);
  }

  lemma MaskedEvenOdd(m: Mask, va: uword)
    requires m.Valid()
    ensures m.PageSize() > 0
    ensures And(va, m.evenodd) != 0 <==> va / m.PageSize() % 2 == 1
  {
    var j := MaskShape(m);
    UnderEvenOdd(va, m.PageSize(), 12 + j);
  }

  lemma MaskedOffset(m: Mask, va: uword)
    requires m.Valid()
    ensures m.PageSize() > 0
    ensures And(va, m.Offset()) == va % m.PageSize()
  {
    var j := MaskShape(m);
    LowMaskAt(va, 12 + j, m.PageSize());
  }

  /** x rounded down to a multiple of q is v. */
  lemma BlockOf(x: nat, v: nat, q: nat)
    requires q > 0
    ensures x / q * q == v <==> v % q == 0 && v <= x < v + q
  {
    DivMod(x, q);
    DivMul(x / q, q);
    if v % q == 0 && v <= x < v + q {
      DivMod(v, q);
      DivModUnique(x, q, v / q, x - v);
    }
  }

  /** An entry other than the scratchpad's matches exactly the addresses of its two pages; an entry
      whose VPN2 is not a multiple of the page size matches nothing. */
  lemma MatchIsRange(e: TlbEntry, va: uword)
    requires e.Valid() && !e.s
    ensures
      IsMatch(e, va) <==>
        e.vpn2 % (e.mask.pagemask + 1) == 0 && e.Base() <= va < e.Base() + 2 * e.mask.PageSize()
  {
    var q := e.mask.pagemask + 1;
    MaskedTag(e.mask, va);
    BlockOf(va / 0x2000, e.vpn2, q);
    assert e.Base() + 2 * e.mask.PageSize() == (e.vpn2 + q) * 0x2000;
  }

  /** The scratchpad's entry also matches the 16 KB that its VPN2, less the lowest bit, starts. */
  lemma ScratchpadMatch(e: TlbEntry, va: uword)
    requires e.Valid() && e.s
    ensures
      var start := (e.vpn2 - e.vpn2 % 2) * 0x2000;
      IsMatch(e, va) <==>
        || start <= va < start + 0x4000
        || (e.vpn2 % (e.mask.pagemask + 1) == 0 && e.Base() <= va < e.Base() + 2 * e.mask.PageSize())
  {
    MatchIsRange(e.(s := false), va);
    assert e.vpn2 - e.vpn2 % 2 == 2 * (e.vpn2 / 2);
  }

  // ---------------------------------------------------------------- probing

  const ENTRIES := 48

  /** When an entry is probed. */
  function Rank(i: nat): (k: nat)
    requires i < 47
    ensures k < 47
  {
    if i == 0 then 0 else if i <= 12 then i + 18 else if i <= 30 then i - 12 else i
  }

  /** The k-th entry probed: 0, then 13 to 30, 1 to 12, and 31 to 46. */
  function Probe(k: nat): (i: nat)
    requires k < 47
    ensures i < 47 && Rank(i) == k
  {
    if k == 0 then 0 else if k <= 18 then k + 12 else if k <= 30 then k - 18 else k
  }

  lemma ProbeRank(i: nat)
    requires i < 47
    ensures Probe(Rank(i)) == i
  {
  }

  /** Which entries match an address. */
  function Matches(es: seq<TlbEntry>, va: uword): (ms: seq<bool>)
    ensures |ms| == |es| && forall i :: 0 <= i < |es| ==> ms[i] == IsMatch(es[i], va)
  {
    seq(|es|, (i: nat) requires i < |es| => IsMatch(es[i], va))
  }

  /** The first match from the k-th probe on. */
  function FindFrom(ms: seq<bool>, k: nat): int
    requires |ms| == ENTRIES && k <= 47
    decreases 47 - k
  {
    if k == 47 then -1 else if ms[Probe(k)] then Probe(k) else FindFrom(ms, k + 1)
  }

  function Find(es: seq<TlbEntry>, va: uword): int
    requires |es| == ENTRIES
  {
    FindFrom(Matches(es, va), 0)
  }

  lemma {:induction false} FindFromFirst(ms: seq<bool>, k: nat)
    requires |ms| == ENTRIES && k <= 47
    ensures
      var r := FindFrom(ms, k);
      if r == -1 then forall j :: 0 <= j < 47 && Rank(j) >= k ==> !ms[j]
      else && 0 <= r < 47 && Rank(r) >= k && ms[r]
           && forall j :: 0 <= j < 47 && k <= Rank(j) < Rank(r) ==> !ms[j]
    decreases 47 - k
  {
    if k == 47 || ms[Probe(k)] {
    } else {
      FindFromFirst(ms, k + 1);
      forall j | 0 <= j < 47 && Rank(j) == k
        ensures !ms[j]
      {
        ProbeRank(j);
      }
    }
  }

  /** The search finds the first matching entry in probe order, and fails if and only if none of
      the entries 0 to 46 matches: entry 47 is never found. */
  lemma FindFirst(es: seq<TlbEntry>, va: uword)
    requires |es| == ENTRIES
    ensures Find(es, va) == -1 <==> forall j :: 0 <= j < 47 ==> !IsMatch(es[j], va)
    ensures -1 <= Find(es, va) < 47
    ensures Find(es, va) != -1 ==> IsMatch(es[Find(es, va)], va)
    ensures
      Find(es, va) != -1 ==>
        forall j :: 0 <= j < 47 && IsMatch(es[j], va) ==> Rank(Find(es, va)) <= Rank(j)
  {
    FindFromFirst(Matches(es, va), 0);
  }

  /** The search prefers entry 0, then 13 to 30, then 1 to 12, then 31 to 46, and in each of these
      ranges the lowest. */
  lemma SearchOrder(es: seq<TlbEntry>, va: uword, j: nat)
    requires |es| == ENTRIES && j < 47 && IsMatch(es[j], va)
    ensures
      var i := Find(es, va);
      && i != -1
      && (j == 0 ==> i == 0)
      && (13 <= j <= 30 ==> i == 0 || 13 <= i <= j)
      && (1 <= j <= 12 ==> i == 0 || 13 <= i <= 30 || 1 <= i <= j)
      && (31 <= j ==> 0 <= i <= j)
  {
    FindFirst(es, va);
  }

  lemma ProbeStep(ms: seq<bool>, i: nat, k: nat)
    requires |ms| == ENTRIES && i < 47 && Rank(i) == k
    ensures FindFrom(ms, k) == if ms[i] then i else FindFrom(ms, k + 1)
  {
    ProbeRank(i);
  }

  /** The first match among entries that are also probed one after the other. */
  lemma {:induction false} BlockSearch(ms: seq<bool>, from: nat, end: nat, k: nat, index: int)
    requires |ms| == ENTRIES && from <= end <= 47 && k + (end - from) <= 47
    requires forall i :: from <= i < end ==> Rank(i) == k + (i - from)
    requires index == -1 || (from <= index < end && ms[index])
    requires forall i :: from <= i < (if index == -1 then end else index) ==> !ms[i]
    ensures FindFrom(ms, k) == (if index == -1 then FindFrom(ms, k + (end - from)) else index)
    decreases end - from
  {
    if from == end {
    } else {
      assert Rank(from) == k;
      ProbeStep(ms, from, k);
      if index != from {
        assert !ms[from];
        BlockSearch(ms, from + 1, end, k + 1, index);
      }
    }
  }

  lemma {:induction false} FindFromIgnores47(ms: seq<bool>, ns: seq<bool>, k: nat)
    requires |ms| == |ns| == ENTRIES && k <= 47 && ms[..47] == ns[..47]
    ensures FindFrom(ms, k) == FindFrom(ns, k)
    decreases 47 - k
  {
    if k == 47 {
    } else {
      assert ms[Probe(k)] == ms[..47][Probe(k)] && ns[Probe(k)] == ns[..47][Probe(k)];
      FindFromIgnores47(ms, ns, k + 1);
    }
  }

  /** Whatever entry 47 holds, it is not found. */
  lemma Entry47NeverFound(es: seq<TlbEntry>, e: TlbEntry, va: uword)
    requires |es| == ENTRIES
    ensures Find(es[47 := e], va) == Find(es, va)
  {
    FindFromIgnores47(Matches(es[47 := e], va), Matches(es, va), 0);
  }

  class EeCoreTlb {
    const tlbEntries: array<TlbEntry>

    ghost predicate Valid()
      reads this, tlbEntries
    {
      tlbEntries.Length == ENTRIES
    }

    constructor (entry: TlbEntry)
      ensures Valid() && fresh(tlbEntries) && tlbEntries[..] == seq(ENTRIES, i => entry)
    {
      tlbEntries := new TlbEntry[ENTRIES](i => entry);
    }

    method Probes(va: uword, i: nat, ghost ms: seq<bool>) returns (matches: bool)
      requires Valid() && i < ENTRIES && ms == Matches(tlbEntries[..], va)
      ensures matches == ms[i]
    {
      matches := IsMatch(tlbEntries[i], va);
    }

    /** The first match among consecutive entries, which are probed from the k-th probe on. */
    method ProbeRange(va: uword, from: nat, end: nat, ghost ms: seq<bool>, ghost k: nat) returns (index: int)
      requires Valid() && ms == Matches(tlbEntries[..], va) && from <= end <= 47 && k + (end - from) <= 47
      requires forall i :: from <= i < end ==> Rank(i) == k + (i - from)
      ensures index == -1 || from <= index < end
      ensures FindFrom(ms, k) == (if index == -1 then FindFrom(ms, k + (end - from)) else index)
    {
      index := -1;
      for i := from to end
        invariant index == -1 && forall j :: from <= j < i ==> !ms[j]
      {
        var matches := Probes(va, i, ms);
        if matches {
          index := i;
          break;
        }
      }
      BlockSearch(ms, from, end, k, index);
    }

    method FindTlbEntryIndex(va: uword) returns (index: int)
      requires Valid()
      ensures index == Find(tlbEntries[..], va)
    {
      ghost var ms := Matches(tlbEntries[..], va);
      ProbeStep(ms, 0, 0);
      var first := Probes(va, 0, ms);
      if first {
        return 0;
      }
      index := ProbeRange(va, 13, 31, ms, 1);
      if index == -1 {
        index := ProbeRange(va, 1, 13, ms, 19);
      }
      if index == -1 {
        index := ProbeRange(va, 31, 38, ms, 31);
      }
      if index == -1 {
        index := ProbeRange(va, 38, 47, ms, 38);
      }
    }

    method SetTlbEntryAt(entry: TlbEntry, index: nat)
      requires Valid() && index < ENTRIES
      modifies tlbEntries
      ensures Valid() && tlbEntries[..] == old(tlbEntries[..])[index := entry]
    {
      tlbEntries[index] := entry;
    }
  }
}
