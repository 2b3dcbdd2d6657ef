/** The two-level page table behind a bus, as values: what a table resolves an address to, what
    mapping an object and optimising the table compute, and what any run of them preserves. */
module ByteBusTable {
  import opened Bits
  import opened BitfieldModel
  import opened Wrappers

  /** A mappable target: its identity and the number of bytes it occupies on a bus. */
  datatype Mappable = Mappable(id: nat, size: nat)

  /** A page table entry; `None` is the null object pointer. */
  datatype Page = Page(baseAddress: nat, target: Option<Mappable>)

  const NULL_PAGE := Page(0, None)

  datatype Directory = Directory(pageMask: Bitfield, optimalAlignment: nat, pageTable: seq<Page>)

  /** The number of address bits and of directory bits, fixed at construction. */
  datatype Shape = Shape(width: nat, directoryBits: nat) {
    predicate Valid() { 0 < directoryBits < width }

    function PageBits(): nat requires Valid() { width - directoryBits }

    function DirectoryMask(): Bitfield requires Valid() { Bitfield(PageBits(), directoryBits) }

    /** The virtual directory number of an address. */
    function Vdn(address: nat): nat requires Valid() { DirectoryMask().ExtractFrom(address) }

    function FirstAddress(k: nat): nat requires Valid() { k * Pow2(PageBits()) }
  }

  type Table = seq<Directory>

  /** A table as constructed: one empty directory per directory number, one-byte pages. */
  function FreshTable(sh: Shape): Table
    requires sh.Valid()
  {
    seq(Pow2(sh.directoryBits), _ => Directory(Bitfield(0, sh.PageBits()), sh.PageBits(), []))
  }

  ghost predicate DirectoryOk(sh: Shape, d: Directory)
    requires sh.Valid()
  {
    && d.pageMask.start <= d.optimalAlignment <= sh.PageBits()
    && d.pageMask.length == sh.PageBits() - d.pageMask.start
    && (d.pageMask.start == 0 || d.pageMask.start == d.optimalAlignment)
    && (d.pageTable == [] || |d.pageTable| == Pow2(d.pageMask.length))
  }

  /** Page sizes are either still one byte or already optimal, and page vectors empty or full. */
  ghost predicate WellShaped(sh: Shape, t: Table)
    requires sh.Valid()
  {
    && |t| == Pow2(sh.directoryBits)
    && forall k :: 0 <= k < |t| ==> DirectoryOk(sh, t[k])
  }

  /** The entry in a slot of a directory; a slot that was never allocated reads as null. */
  function PageIn(d: Directory, i: nat): Page
  {
    if i < |d.pageTable| then d.pageTable[i] else NULL_PAGE
  }

  lemma Locate(sh: Shape, address: nat)
    requires sh.Valid() && address < Pow2(sh.width)
    ensures sh.Vdn(address) == address / Pow2(sh.PageBits()) < Pow2(sh.directoryBits)
    ensures sh.FirstAddress(sh.Vdn(address)) == Down(address, sh.PageBits())
  {
    var (d, n) := (Pow2(sh.PageBits()), Pow2(sh.directoryBits));
    ExtractIsDigit(sh.DirectoryMask(), address);
    Pow2Add(sh.PageBits(), sh.directoryBits);
    DivMod(address, d);
    QuotientBelow(address, d, n);
    SmallMod(address / d, n);
    DownBounds(address, sh.PageBits());
  }

  /** The page an address is looked up in. */
  function Resolve(sh: Shape, t: Table, address: nat): Page
    requires sh.Valid() && |t| == Pow2(sh.directoryBits) && address < Pow2(sh.width)
  {
    Locate(sh, address);
    var d := t[sh.Vdn(address)];
    PageIn(d, d.pageMask.ExtractFrom(address))
  }

  /** The first address served by slot i of directory k. */
  function PageAddress(sh: Shape, d: Directory, k: nat, i: nat): nat
    requires sh.Valid()
  {
    sh.FirstAddress(k) + i * Pow2(d.pageMask.start)
  }

  // ---------------------------------------------------------------- addresses and slots

  /** The slot of an address starts at the address rounded down to the page size. */
  lemma SlotOf(sh: Shape, d: Directory, address: nat)
    requires sh.Valid() && DirectoryOk(sh, d) && address < Pow2(sh.width)
    ensures
      var i := d.pageMask.ExtractFrom(address);
      && i < Pow2(d.pageMask.length)
      && PageAddress(sh, d, sh.Vdn(address), i) == Down(address, d.pageMask.start)
  {
    var (s, len) := (d.pageMask.start, d.pageMask.length);
    var (p, n) := (Pow2(s), Pow2(len));
    ExtractIsDigit(d.pageMask, address);
    Locate(sh, address);
    Pow2Add(s, len);
    DivDiv(address, p, n);
    DivMod(address, p);
    DivMod(address / p, n);
    DownBounds(address, s);
    var (q, i) := (address / p / n, address / p % n);
    TwoDigits(q, i, address % p, p, n);
    Distribute(q * n, i, p);
  }

  lemma SlotArithmetic(k: nat, i: nat, p: nat, n: nat, m: nat)
    requires p > 0 && i < n && k < m
    ensures
      var a := k * (p * n) + i * p;
      && p * n > 0
      && a + p <= k * (p * n) + p * n <= (p * n) * m
      && a / (p * n) == k && a / p % n == i && a % p == 0
  {
    TwoDigits(k, i, 0, p, n);
    DivDigits(k * (p * n) + i * p, p, n, k, i, 0);
    DivModUnique(k * n + i, n, k, i);
    MulMono(i + 1, n, p);
    MulMono(k + 1, m, p * n);
    Distribute(i, 1, p);
    Distribute(k, 1, p * n);
  }

  /** Slot i of directory k serves the addresses that round down to its first address. */
  lemma SlotAddress(sh: Shape, d: Directory, k: nat, i: nat)
    requires sh.Valid() && DirectoryOk(sh, d)
    requires k < Pow2(sh.directoryBits) && i < Pow2(d.pageMask.length)
    ensures
      var a := PageAddress(sh, d, k, i);
      && a + Pow2(d.pageMask.start) <= sh.FirstAddress(k) + Pow2(sh.PageBits()) <= Pow2(sh.width)
      && sh.FirstAddress(k) <= a < Pow2(sh.width)
      && sh.Vdn(a) == k && d.pageMask.ExtractFrom(a) == i
      && Down(a, d.pageMask.start) == a && a % Pow2(d.pageMask.start) == 0
  {
    var (s, len) := (d.pageMask.start, d.pageMask.length);
    var (p, n, m) := (Pow2(s), Pow2(len), Pow2(sh.directoryBits));
    var a := PageAddress(sh, d, k, i);
    Pow2Add(s, len);
    Pow2Add(sh.PageBits(), sh.directoryBits);
    SlotArithmetic(k, i, p, n, m);
    Locate(sh, a);
    ExtractIsDigit(d.pageMask, a);
  }

  /** Lookup cannot tell an address from the start of its page. */
  lemma ResolveByPage(sh: Shape, t: Table, address: nat)
    requires sh.Valid() && WellShaped(sh, t) && address < Pow2(sh.width)
    ensures
      && sh.Vdn(address) < |t|
      && var d := t[sh.Vdn(address)];
      && sh.Vdn(Down(address, d.pageMask.start)) == sh.Vdn(address)
      && Resolve(sh, t, Down(address, d.pageMask.start)) == Resolve(sh, t, address)
  {
    Locate(sh, address);
    var k := sh.Vdn(address);
    SlotOf(sh, t[k], address);
    SlotAddress(sh, t[k], k, t[k].pageMask.ExtractFrom(address));
  }

  // ---------------------------------------------------------------- mapping and optimising

  /** The number of low zero bits of a word (32 for zero). */
  function TrailingZeros(value: nat): nat
  {
    if value == 0 then 32 else if value % 2 == 1 then 0 else 1 + TrailingZeros(value / 2)
  }

  function Min(a: nat, b: nat): nat { if a <= b then a else b }

  /** Directory k serves some address in [lo, hi). */
  predicate Touches(sh: Shape, k: nat, lo: nat, hi: nat)
    requires sh.Valid()
  {
    sh.FirstAddress(k) < hi && lo < sh.FirstAddress(k) + Pow2(sh.PageBits())
  }

  /** A directory after the slots starting in [lo, hi) have been given to a page. */
  function Claim(sh: Shape, d: Directory, k: nat, lo: nat, hi: nat, page: Page): Directory
    requires sh.Valid()
  {
    d.(pageTable := seq(Pow2(d.pageMask.length), (i: nat) =>
      if lo <= PageAddress(sh, d, k, i) < hi then page else PageIn(d, i)))
  }

  function MappedDirectory(sh: Shape, d: Directory, k: nat, address: nat, target: Mappable): Directory
    requires sh.Valid()
  {
    if Touches(sh, k, address, address + target.size) then
      Claim(sh, d, k, address, address + target.size, Page(address, Some(target)))
        .(optimalAlignment := Min(d.optimalAlignment, TrailingZeros(address)))
    else d
  }

  /** The table after an object has been mapped at an address. */
  function Mapped(sh: Shape, t: Table, address: nat, target: Mappable): Table
    requires sh.Valid()
  {
    seq(|t|, (k: nat) requires k < |t| => MappedDirectory(sh, t[k], k, address, target))
  }

  /** Mapping succeeds: the object has a size, ends on the bus, starts on a page boundary of every directory it
      meets, and none of its addresses is taken. */
  ghost predicate CanMap(sh: Shape, t: Table, address: nat, target: Mappable)
    requires sh.Valid() && |t| == Pow2(sh.directoryBits)
  {
    && target.size > 0 && address + target.size <= Pow2(sh.width)
    && (forall k | 0 <= k < |t| && Touches(sh, k, address, address + target.size) ::
          t[k].pageMask.start <= TrailingZeros(address))
    && (forall a :: address <= a < address + target.size ==> Resolve(sh, t, a).target == None)
  }

  function OptimisedDirectory(sh: Shape, d: Directory): Directory
    requires sh.Valid() && d.optimalAlignment <= sh.PageBits()
  {
    if d.pageMask.start == d.optimalAlignment then d
    else
      var mask := Bitfield(d.optimalAlignment, sh.PageBits() - d.optimalAlignment);
      Directory(mask, d.optimalAlignment,
        seq(Pow2(mask.length), (j: nat) => PageIn(d, j * Pow2(d.optimalAlignment))))
  }

  /** The table with every directory at its coarsest page size. */
  function Optimised(sh: Shape, t: Table): Table
    requires sh.Valid() && forall k :: 0 <= k < |t| ==> t[k].optimalAlignment <= sh.PageBits()
  {
    seq(|t|, (k: nat) requires k < |t| => OptimisedDirectory(sh, t[k]))
  }

  lemma {:induction false} TrailingZerosDivides(value: nat)
    ensures value % Pow2(TrailingZeros(value)) == 0
  {
    if value == 0 {
      SmallRemainder(Pow2(32));
    } else if value % 2 == 1 {
      assert value % 1 == 0;
    } else {
      var n := TrailingZeros(value / 2);
      TrailingZerosDivides(value / 2);
      DivDiv(value, 2, Pow2(n));
    }
  }

  /** It is the largest such exponent: a smaller or equal power divides the value, a larger one does
      not; 0 is divided by all, and counts as 32. */
  lemma {:induction false} TrailingZerosLargest(value: nat, j: nat)
    ensures j <= TrailingZeros(value) <==> value % Pow2(j) == 0 && (value == 0 ==> j <= 32)
  {
    if j == 0 {
      assert value % 1 == 0;
    } else if value == 0 {
      SmallRemainder(Pow2(j));
    } else if value % 2 == 1 {
      TwiceRemainder(value, Pow2(j - 1));
    } else {
      TrailingZerosLargest(value / 2, j - 1);
      TwiceRemainder(value, Pow2(j - 1));
    }
  }

  /** An address belongs to the directory it is looked up in. */
  lemma TouchedByAddress(sh: Shape, address: nat, lo: nat, hi: nat)
    requires sh.Valid() && address < Pow2(sh.width)
    ensures lo <= address < hi ==> Touches(sh, sh.Vdn(address), lo, hi)
  {
    Locate(sh, address);
    DownBounds(address, sh.PageBits());
  }

  lemma MappedShape(sh: Shape, t: Table, address: nat, target: Mappable)
    requires sh.Valid() && WellShaped(sh, t)
    requires CanMap(sh, t, address, target)
    ensures WellShaped(sh, Mapped(sh, t, address, target))
  {
  }

  /** What a mapping does to lookup: exactly the pages starting inside the object change. */
  lemma MappedLookup(sh: Shape, t: Table, address: nat, target: Mappable, a: nat)
    requires sh.Valid() && WellShaped(sh, t) && a < Pow2(sh.width)
    requires CanMap(sh, t, address, target)
    ensures sh.Vdn(a) < |t|
    ensures
      var start := t[sh.Vdn(a)].pageMask.start;
      Resolve(sh, Mapped(sh, t, address, target), a) ==
        if address <= Down(a, start) < address + target.size then Page(address, Some(target))
        else Resolve(sh, t, a)
  {
    Locate(sh, a);
    var k := sh.Vdn(a);
    var start := t[k].pageMask.start;
    SlotOf(sh, t[k], a);
    ResolveByPage(sh, t, a);
    TouchedByAddress(sh, Down(a, start), address, address + target.size);
  }

  /** Every address of a freshly mapped object lies on a page that starts inside the object. */
  lemma MappedRange(sh: Shape, t: Table, address: nat, target: Mappable, a: nat)
    requires sh.Valid() && WellShaped(sh, t)
    requires CanMap(sh, t, address, target)
    requires address <= a < address + target.size
    ensures sh.Vdn(a) < |t| && address <= Down(a, t[sh.Vdn(a)].pageMask.start) <= a
    ensures address % Pow2(Mapped(sh, t, address, target)[sh.Vdn(a)].optimalAlignment) == 0
  {
    Locate(sh, a);
    TouchedByAddress(sh, a, address, address + target.size);
    TrailingZerosDivides(address);
    var k := sh.Vdn(a);
    var start := t[k].pageMask.start;
    DividesLess(address, start, TrailingZeros(address));
    DividesLess(address, Min(t[k].optimalAlignment, TrailingZeros(address)), TrailingZeros(address));
    DownGreatest(a, start, address);
    DownBounds(a, start);
  }

  lemma OptimisedShape(sh: Shape, t: Table)
    requires sh.Valid() && WellShaped(sh, t)
    ensures WellShaped(sh, Optimised(sh, t))
  {
  }

  /** A slot of a directory of one-byte pages serves one address. */
  lemma ByteSlot(sh: Shape, d: Directory, k: nat, i: nat)
    requires sh.Valid() && DirectoryOk(sh, d) && d.pageMask.start == 0
    requires k < Pow2(sh.directoryBits) && i < Pow2(sh.PageBits())
    ensures
      var a := sh.FirstAddress(k) + i;
      a < Pow2(sh.width) && sh.Vdn(a) == k && d.pageMask.ExtractFrom(a) == i
  {
    SlotAddress(sh, d, k, i);
    assert Pow2(d.pageMask.start) == 1;
  }

  /** The start of slot j of a coarsened directory, as a slot of the directory before. */
  lemma CoarseSlot(j: nat, n: nat, bits: nat)
    requires n <= bits && j < Pow2(bits - n)
    ensures j * Pow2(n) < Pow2(bits)
  {
    Pow2Add(n, bits - n);
    MulLess(j, Pow2(bits - n), Pow2(n));
  }

  /** The address of the slot that an address has in a coarsened directory. */
  lemma CoarseStart(sh: Shape, d: Directory, k: nat, a: nat, j: nat)
    requires sh.Valid() && DirectoryOk(sh, d) && a < Pow2(sh.width) && sh.Vdn(a) == k
    requires j == Bitfield(d.optimalAlignment, sh.PageBits() - d.optimalAlignment).ExtractFrom(a)
    ensures j < Pow2(sh.PageBits() - d.optimalAlignment)
    ensures Down(a, d.optimalAlignment) == sh.FirstAddress(k) + j * Pow2(d.optimalAlignment)
  {
    var mask := Bitfield(d.optimalAlignment, sh.PageBits() - d.optimalAlignment);
    SlotOf(sh, Directory(mask, d.optimalAlignment, []), a);
  }

  lemma CoarsePage(sh: Shape, d: Directory, j: nat)
    requires sh.Valid() && DirectoryOk(sh, d) && d.pageMask.start != d.optimalAlignment
    requires j < Pow2(sh.PageBits() - d.optimalAlignment)
    ensures PageIn(OptimisedDirectory(sh, d), j) == PageIn(d, j * Pow2(d.optimalAlignment))
  {
  }

  lemma CoarseLookupAt(sh: Shape, d: Directory, k: nat, j: nat, i: nat, down: nat)
    requires sh.Valid() && DirectoryOk(sh, d) && d.pageMask.start == 0 != d.optimalAlignment
    requires k < Pow2(sh.directoryBits) && j < Pow2(sh.PageBits() - d.optimalAlignment)
    requires i == j * Pow2(d.optimalAlignment) && down == sh.FirstAddress(k) + i
    ensures down < Pow2(sh.width) && sh.Vdn(down) == k
    ensures PageIn(OptimisedDirectory(sh, d), j) == PageIn(d, d.pageMask.ExtractFrom(down))
  {
    CoarseSlot(j, d.optimalAlignment, sh.PageBits());
    ByteSlot(sh, d, k, i);
    CoarsePage(sh, d, j);
  }

  /** Lookup in a coarsened directory, by address. */
  lemma CoarseLookup(sh: Shape, d: Directory, k: nat, a: nat, down: nat)
    requires sh.Valid() && DirectoryOk(sh, d) && d.pageMask.start == 0 != d.optimalAlignment
    requires a < Pow2(sh.width) && sh.Vdn(a) == k && down == Down(a, d.optimalAlignment)
    ensures down < Pow2(sh.width) && sh.Vdn(down) == k
    ensures
      var o := OptimisedDirectory(sh, d);
      PageIn(o, o.pageMask.ExtractFrom(a)) == PageIn(d, d.pageMask.ExtractFrom(down))
  {
    var j := OptimisedDirectory(sh, d).pageMask.ExtractFrom(a);
    Locate(sh, a);
    CoarseStart(sh, d, k, a, j);
    CoarseLookupAt(sh, d, k, j, j * Pow2(d.optimalAlignment), down);
  }

  /** Optimising is rounding the address down to the directory's optimal page before lookup. */
  lemma OptimisedLookup(sh: Shape, t: Table, a: nat)
    requires sh.Valid() && WellShaped(sh, t) && a < Pow2(sh.width)
    ensures sh.Vdn(a) < |t| && Down(a, t[sh.Vdn(a)].optimalAlignment) < Pow2(sh.width)
    ensures Resolve(sh, Optimised(sh, t), a) == Resolve(sh, t, Down(a, t[sh.Vdn(a)].optimalAlignment))
  {
    Locate(sh, a);
    var k := sh.Vdn(a);
    if t[k].pageMask.start == t[k].optimalAlignment {
      ResolveByPage(sh, t, a);
      DownBounds(a, t[k].optimalAlignment);
    } else {
      CoarseLookup(sh, t[k], k, a, Down(a, t[k].optimalAlignment));
    }
  }

  /** Optimising twice is optimising once. */
  lemma OptimisedIdempotent(sh: Shape, t: Table)
    requires sh.Valid() && WellShaped(sh, t)
    ensures WellShaped(sh, Optimised(sh, t))
    ensures Optimised(sh, Optimised(sh, t)) == Optimised(sh, t)
  {
    OptimisedShape(sh, t);
  }

  // ---------------------------------------------------------------- runs of a bus

  datatype Mapping = Mapping(base: nat, target: Mappable)

  ghost predicate ServedAt(sh: Shape, t: Table, m: Mapping, a: nat)
    requires sh.Valid() && |t| == Pow2(sh.directoryBits) && a < Pow2(sh.width)
  {
    Locate(sh, a);
    && Resolve(sh, t, a) == Page(m.base, Some(m.target))
    && m.base % Pow2(t[sh.Vdn(a)].optimalAlignment) == 0
  }

  /** Every address of a mapped object resolves to it, and its base is on a coarse page boundary. */
  ghost predicate Served(sh: Shape, t: Table, m: Mapping)
    requires sh.Valid() && |t| == Pow2(sh.directoryBits)
  {
    && m.base + m.target.size <= Pow2(sh.width)
    && forall a :: m.base <= a < m.base + m.target.size ==> ServedAt(sh, t, m, a)
  }

  /** A resolved address lies on a page that starts inside the mapped object it resolves to. */
  ghost predicate BackedAt(sh: Shape, t: Table, maps: set<Mapping>, a: nat)
    requires sh.Valid() && |t| == Pow2(sh.directoryBits) && a < Pow2(sh.width)
  {
    Locate(sh, a);
    Resolve(sh, t, a).target.Some? ==>
      exists m :: m in maps && Resolve(sh, t, a) == Page(m.base, Some(m.target))
        && m.base <= Down(a, t[sh.Vdn(a)].pageMask.start) < m.base + m.target.size
  }

  ghost predicate Coherent(sh: Shape, t: Table, maps: set<Mapping>)
    requires sh.Valid()
  {
    && WellShaped(sh, t)
    && (forall m :: m in maps ==> Served(sh, t, m))
    && (forall a: nat :: a < Pow2(sh.width) ==> BackedAt(sh, t, maps, a))
  }

  lemma FreshCoherent(sh: Shape)
    requires sh.Valid()
    ensures Coherent(sh, FreshTable(sh), {})
  {
    forall a: nat | a < Pow2(sh.width)
      ensures BackedAt(sh, FreshTable(sh), {}, a)
    {
      Locate(sh, a);
    }
  }

  lemma KeepsServed(sh: Shape, t: Table, m: Mapping, address: nat, target: Mappable, a: nat)
    requires sh.Valid() && WellShaped(sh, t) && a < Pow2(sh.width)
    requires CanMap(sh, t, address, target)
    requires ServedAt(sh, t, m, a)
    ensures ServedAt(sh, Mapped(sh, t, address, target), m, a)
  {
    MappedLookup(sh, t, address, target, a);
    ResolveByPage(sh, t, a);
    Locate(sh, a);
    var k := sh.Vdn(a);
    DividesLess(m.base, Min(t[k].optimalAlignment, TrailingZeros(address)), t[k].optimalAlignment);
  }

  /** Mapping an object keeps every earlier object resolved and resolves the new one. */
  lemma MappedCoherent(sh: Shape, t: Table, maps: set<Mapping>, address: nat, target: Mappable)
    requires sh.Valid() && Coherent(sh, t, maps)
    requires CanMap(sh, t, address, target)
    ensures Coherent(sh, Mapped(sh, t, address, target), maps + {Mapping(address, target)})
  {
    var t' := Mapped(sh, t, address, target);
    var maps' := maps + {Mapping(address, target)};
    MappedShape(sh, t, address, target);
    forall m, a: nat | m in maps' && m.base <= a < m.base + m.target.size && a < Pow2(sh.width)
      ensures ServedAt(sh, t', m, a)
    {
      MappedLookup(sh, t, address, target, a);
      if m == Mapping(address, target) {
        MappedRange(sh, t, address, target, a);
      } else {
        assert ServedAt(sh, t, m, a);
        KeepsServed(sh, t, m, address, target, a);
      }
    }
    forall a: nat | a < Pow2(sh.width)
      ensures BackedAt(sh, t', maps', a)
    {
      MappedLookup(sh, t, address, target, a);
      assert BackedAt(sh, t, maps, a);
      assert Mapping(address, target) in maps';
    }
  }

  lemma SameDirectory(sh: Shape, a: nat, n: nat)
    requires sh.Valid() && a < Pow2(sh.width) && n <= sh.PageBits()
    ensures Down(a, n) < Pow2(sh.width) && sh.Vdn(Down(a, n)) == sh.Vdn(a)
  {
    DownBounds(a, n);
    Locate(sh, a);
    Locate(sh, Down(a, n));
    DownDown(a, n, sh.PageBits());
    DownBounds(a, sh.PageBits());
    var k := a / Pow2(sh.PageBits());
    DivModUnique(Down(a, n), Pow2(sh.PageBits()), k, Down(a, n) - Down(a, sh.PageBits()));
  }

  /** Optimising keeps every mapped object resolved. */
  lemma OptimisedCoherent(sh: Shape, t: Table, maps: set<Mapping>)
    requires sh.Valid() && Coherent(sh, t, maps)
    ensures Coherent(sh, Optimised(sh, t), maps)
  {
    var t' := Optimised(sh, t);
    OptimisedShape(sh, t);
    forall m, a: nat | m in maps && m.base <= a < m.base + m.target.size && a < Pow2(sh.width)
      ensures ServedAt(sh, t', m, a)
    {
      OptimisedLookup(sh, t, a);
      assert ServedAt(sh, t, m, a);
      var n := t[sh.Vdn(a)].optimalAlignment;
      DownGreatest(a, n, m.base);
      DownBounds(a, n);
      assert ServedAt(sh, t, m, Down(a, n));
    }
    forall a: nat | a < Pow2(sh.width)
      ensures BackedAt(sh, t', maps, a)
    {
      OptimisedLookup(sh, t, a);
      var k := sh.Vdn(a);
      var n := t[k].optimalAlignment;
      DownDown(a, t[k].pageMask.start, n);
      SameDirectory(sh, a, n);
      assert BackedAt(sh, t, maps, Down(a, n));
    }
  }

  datatype BusOp = Map(address: nat, target: Mappable) | Optimise

  function Mappings(ops: seq<BusOp>): set<Mapping>
  {
    if ops == [] then {}
    else
      var op := ops[|ops| - 1];
      Mappings(ops[..|ops| - 1]) + if op.Map? then {Mapping(op.address, op.target)} else {}
  }

  /** The table after a run of operations on a fresh bus; none if some mapping failed. */
  ghost function Run(sh: Shape, ops: seq<BusOp>): (t: Option<Table>)
    requires sh.Valid()
    ensures t.Some? ==> Coherent(sh, t.value, Mappings(ops))
  {
    if ops == [] then
      FreshCoherent(sh);
      Some(FreshTable(sh))
    else
      var (before, op) := (ops[..|ops| - 1], ops[|ops| - 1]);
      var t := Run(sh, before);
      if t.None? then None
      else if op.Optimise? then
        OptimisedCoherent(sh, t.value, Mappings(before));
        assert Mappings(ops) == Mappings(before);
        Some(Optimised(sh, t.value))
      else if CanMap(sh, t.value, op.address, op.target) then
        MappedCoherent(sh, t.value, Mappings(before), op.address, op.target);
        Some(Mapped(sh, t.value, op.address, op.target))
      else None
  }

  lemma {:induction false} MappingsComplete(ops: seq<BusOp>, i: nat)
    requires i < |ops| && ops[i].Map?
    ensures Mapping(ops[i].address, ops[i].target) in Mappings(ops)
  {
    if i == |ops| - 1 {
    } else {
      MappingsComplete(ops[..|ops| - 1], i);
    }
  }

  /** Some mapping meets the directory. */
  ghost predicate Reached(sh: Shape, ops: seq<BusOp>, k: nat)
    requires sh.Valid()
  {
    exists m :: m in Mappings(ops) && Touches(sh, k, m.base, m.base + m.target.size)
  }

  /** A directory in which nothing has been mapped. */
  predicate Unallocated(sh: Shape, d: Directory)
    requires sh.Valid()
  {
    d == Directory(Bitfield(0, sh.PageBits()), sh.PageBits(), [])
  }

  lemma ReachedNext(sh: Shape, ops: seq<BusOp>, k: nat)
    requires sh.Valid() && ops != []
    ensures
      var (before, op) := (ops[..|ops| - 1], ops[|ops| - 1]);
      && (Optimise in ops <==> Optimise in before || op.Optimise?)
      && (Reached(sh, ops, k) <==>
            Reached(sh, before, k) || (op.Map? && Touches(sh, k, op.address, op.address + op.target.size)))
  {
    var (before, op) := (ops[..|ops| - 1], ops[|ops| - 1]);
    assert ops == before + [op];
    if op.Map? {
      var m := Mapping(op.address, op.target);
      assert Mappings(ops) == Mappings(before) + {m};
      assert m in Mappings(ops);
    } else {
      assert Mappings(ops) == Mappings(before);
    }
  }

  lemma OptimisedAllocates(sh: Shape, d: Directory)
    requires sh.Valid() && (Unallocated(sh, d) || d.pageTable != []) && d.optimalAlignment <= sh.PageBits()
    ensures OptimisedDirectory(sh, d).pageTable != []
  {
  }

  lemma MappedAllocates(sh: Shape, d: Directory, k: nat, address: nat, target: Mappable)
    requires sh.Valid()
    ensures
      var d' := MappedDirectory(sh, d, k, address, target);
      if Touches(sh, k, address, address + target.size) then d'.pageTable != [] else d' == d
  {
  }

  /** A directory has pages exactly if an object has been mapped in it, or the bus has been
      optimised: before that, a lookup in any other directory reads past an empty page vector. */
  lemma {:induction false} AllocatedExactly(sh: Shape, ops: seq<BusOp>, k: nat)
    requires sh.Valid() && Run(sh, ops).Some? && k < Pow2(sh.directoryBits)
    ensures |Run(sh, ops).value| == Pow2(sh.directoryBits)
    ensures
      var d := Run(sh, ops).value[k];
      if Optimise !in ops && !Reached(sh, ops, k) then Unallocated(sh, d) else d.pageTable != []
  {
    if ops == [] {
    } else {
      var (before, op) := (ops[..|ops| - 1], ops[|ops| - 1]);
      var t := Run(sh, before).value;
      AllocatedExactly(sh, before, k);
      ReachedNext(sh, ops, k);
      if op.Optimise? {
        OptimisedAllocates(sh, t[k]);
        assert Run(sh, ops).value[k] == OptimisedDirectory(sh, t[k]);
      } else {
        MappedAllocates(sh, t[k], k, op.address, op.target);
        assert Run(sh, ops).value[k] == MappedDirectory(sh, t[k], k, op.address, op.target);
      }
    }
  }

  /** An alignment that suits every object mapped in the directory; address 0 suits up to 2^32. */
  ghost predicate Suits(sh: Shape, ops: seq<BusOp>, k: nat, j: nat)
    requires sh.Valid()
  {
    forall m :: m in Mappings(ops) && Touches(sh, k, m.base, m.base + m.target.size) ==>
      m.base % Pow2(j) == 0 && (m.base == 0 ==> j <= 32)
  }

  lemma SuitsNext(sh: Shape, ops: seq<BusOp>, k: nat, j: nat)
    requires sh.Valid() && ops != []
    ensures
      var (before, op) := (ops[..|ops| - 1], ops[|ops| - 1]);
      Suits(sh, ops, k, j) <==>
        Suits(sh, before, k, j)
        && (op.Map? && Touches(sh, k, op.address, op.address + op.target.size) ==> j <= TrailingZeros(op.address))
  {
    var (before, op) := (ops[..|ops| - 1], ops[|ops| - 1]);
    if op.Map? {
      var m := Mapping(op.address, op.target);
      assert Mappings(ops) == Mappings(before) + {m};
      assert m in Mappings(ops);
      TrailingZerosLargest(op.address, j);
    } else {
      assert Mappings(ops) == Mappings(before);
    }
  }

  lemma OptimisedAlignment(sh: Shape, d: Directory)
    requires sh.Valid() && d.optimalAlignment <= sh.PageBits()
    ensures OptimisedDirectory(sh, d).optimalAlignment == d.optimalAlignment
  {
  }

  /** After any run the optimal page of a directory is the largest power of two, at most the directory
      itself, that divides the address of every object mapped in it. */
  lemma {:induction false} OptimalAlignmentExactly(sh: Shape, ops: seq<BusOp>, k: nat, j: nat)
    requires sh.Valid() && Run(sh, ops).Some? && k < Pow2(sh.directoryBits) && j <= sh.PageBits()
    ensures |Run(sh, ops).value| == Pow2(sh.directoryBits)
    ensures Run(sh, ops).value[k].optimalAlignment <= sh.PageBits()
    ensures j <= Run(sh, ops).value[k].optimalAlignment <==> Suits(sh, ops, k, j)
  {
    if ops == [] {
    } else {
      var (before, op) := (ops[..|ops| - 1], ops[|ops| - 1]);
      var t := Run(sh, before).value;
      OptimalAlignmentExactly(sh, before, k, j);
      SuitsNext(sh, ops, k, j);
      if op.Optimise? {
        OptimisedAlignment(sh, t[k]);
        assert Run(sh, ops).value[k] == OptimisedDirectory(sh, t[k]);
      } else {
        assert Run(sh, ops).value[k] == MappedDirectory(sh, t[k], k, op.address, op.target);
      }
    }
  }

  /** After any run of mappings and optimisations, every address inside any mapped object's range
      resolves to that object with its own base, so the offset handed to it is below its size. */
  lemma MappedObjectsResolve(sh: Shape, ops: seq<BusOp>, i: nat, a: nat)
    requires sh.Valid() && Run(sh, ops).Some?
    requires i < |ops| && ops[i].Map?
    requires ops[i].address <= a < ops[i].address + ops[i].target.size
    ensures a < Pow2(sh.width)
    ensures
      var page := Resolve(sh, Run(sh, ops).value, a);
      page == Page(ops[i].address, Some(ops[i].target)) && a - page.baseAddress < ops[i].target.size
  {
    MappingsComplete(ops, i);
    var t := Run(sh, ops).value;
    var m := Mapping(ops[i].address, ops[i].target);
    assert m in Mappings(ops) && Served(sh, t, m);
    assert ServedAt(sh, t, m, a);
  }

  lemma {:induction false} NoOptimiseBytePages(sh: Shape, ops: seq<BusOp>)
    requires sh.Valid() && Run(sh, ops).Some? && Optimise !in ops
    ensures forall k :: 0 <= k < |Run(sh, ops).value| ==> Run(sh, ops).value[k].pageMask.start == 0
  {
    if ops == [] {
    } else {
      NoOptimiseBytePages(sh, ops[..|ops| - 1]);
      assert ops[|ops| - 1].Map?;
    }
  }

  /** Before the first optimisation lookup is exact: an address resolves to an object if and only
      if it lies inside the range at which that object was mapped. */
  lemma LookupExactBeforeOptimise(sh: Shape, ops: seq<BusOp>, a: nat, m: Mapping)
    requires sh.Valid() && Run(sh, ops).Some? && Optimise !in ops
    requires a < Pow2(sh.width)
    ensures Resolve(sh, Run(sh, ops).value, a) == Page(m.base, Some(m.target))
      <==> m in Mappings(ops) && m.base <= a < m.base + m.target.size
  {
    var t := Run(sh, ops).value;
    NoOptimiseBytePages(sh, ops);
    Locate(sh, a);
    assert BackedAt(sh, t, Mappings(ops), a);
    assert Down(a, 0) == a;
    if m in Mappings(ops) && m.base <= a < m.base + m.target.size {
      assert Served(sh, t, m);
      assert ServedAt(sh, t, m, a);
    }
  }

  /** After optimising a bus that was only mapped before, an address resolves to an object if and
      only if the address rounded down to its directory's optimal page lies inside the object. */
  lemma LookupExactAfterOptimise(sh: Shape, ops: seq<BusOp>, a: nat, m: Mapping)
    requires sh.Valid() && Run(sh, ops).Some? && Optimise !in ops
    requires a < Pow2(sh.width)
    ensures sh.Vdn(a) < |Run(sh, ops).value|
    ensures
      var t := Run(sh, ops).value;
      Resolve(sh, Optimised(sh, t), a) == Page(m.base, Some(m.target))
      <==> m in Mappings(ops)
           && m.base <= Down(a, t[sh.Vdn(a)].optimalAlignment) < m.base + m.target.size
  {
    var t := Run(sh, ops).value;
    OptimisedLookup(sh, t, a);
    LookupExactBeforeOptimise(sh, ops, Down(a, t[sh.Vdn(a)].optimalAlignment), m);
  }

  /** The range test of mapping compares the wrapped end address and so never rejects anything. */
  lemma RangeGuardNeverFires(sh: Shape, t: Table, address: nat, size: nat)
    requires sh.Valid() && |t| == Pow2(sh.directoryBits)
    ensures (address + size) % Pow2(sh.width) < Pow2(sh.width)
    ensures sh.Vdn((address + size) % Pow2(sh.width)) < |t|
  {
    DivMod(address + size, Pow2(sh.width));
    Locate(sh, (address + size) % Pow2(sh.width));
  }
}
