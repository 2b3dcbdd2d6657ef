/** The bus itself: the in-place loops that map objects and coarsen the page tables. */
module ByteBusModel {
  import opened Bits
  import opened BitfieldModel
  import opened Wrappers
  import opened ByteBusTable

  /** How a call to map ends; `OffTheEnd` is where the code indexes past its last
      directory, and every other outcome but `Done` is an exception. */
  datatype MapOutcome = Done | ZeroSized | OutOfRange | Misaligned | Occupied | OffTheEnd

  /** The object goes on past the end of the bus, and the part before it can be mapped. */
  ghost predicate RunsOff(sh: Shape, t: Table, address: nat, target: Mappable)
    requires sh.Valid() && |t| == Pow2(sh.directoryBits) && address < Pow2(sh.width)
  {
    address + target.size > Pow2(sh.width) && CanMap(sh, t, address, Mappable(target.id, Pow2(sh.width) - address))
  }

  lemma {:induction false} TrailingZerosBelow(value: nat, n: nat)
    requires 0 < value < Pow2(n)
    ensures TrailingZeros(value) < n
  {
    if value % 2 == 1 {
    } else {
      TrailingZerosBelow(value / 2, n - 1);
    }
  }

  /** Number of low zero bits of a 32-bit word, counted by testing bits upwards. */
  method CountTrailingZeros(value: nat) returns (count: nat)
    requires value < Pow2(32)
    ensures count == TrailingZeros(value)
    ensures if value == 0 then count == 32 else value % Pow2(count) == 0 && value % Pow2(count + 1) != 0
  {
    TrailingZerosLargest(value, TrailingZeros(value));
    TrailingZerosLargest(value, TrailingZeros(value) + 1);
    if value == 0 {
      return 32;
    }
    TrailingZerosBelow(value, 32);
    count := 0;
    var i := 0;
    var rest := value;
    while i < 32
      invariant i <= 32 && count == i && 0 < rest
      invariant TrailingZeros(value) == i + TrailingZeros(rest)
    {
      if rest % 2 == 0 {
        count := count + 1;
      } else {
        break;
      }
      rest := rest / 2;
      i := i + 1;
    }
  }

  // ---------------------------------------------------------------- progress of a mapping

  /** Nothing in [lo, hi) resolves to an object. */
  ghost predicate Vacant(sh: Shape, t: Table, lo: nat, hi: nat)
    requires sh.Valid() && |t| == Pow2(sh.directoryBits)
  {
    forall a :: lo <= a < hi && a < Pow2(sh.width) ==> Resolve(sh, t, a).target == None
  }

  /** State at the head of the directory loop: directories before k are mapped, the others are
      as before, and the next page to claim starts at pos, in directory k. */
  ghost predicate MappedUpTo(sh: Shape, t0: Table, t: Table, address: nat, target: Mappable, k: nat, pos: nat)
    requires sh.Valid()
  {
    && WellShaped(sh, t0) && |t| == |t0| && k < |t|
    && address <= pos < address + target.size && pos < Pow2(sh.width)
    && sh.Vdn(address) <= k
    && pos == (if k == sh.Vdn(address) then address else sh.FirstAddress(k))
    && sh.FirstAddress(k) <= pos < sh.FirstAddress(k) + Pow2(sh.PageBits())
    && (forall j :: 0 <= j < k ==> t[j] == MappedDirectory(sh, t0[j], j, address, target))
    && (forall j :: k <= j < |t| ==> t[j] == t0[j])
    && (forall j | 0 <= j < k && Touches(sh, j, address, address + target.size) ::
          t0[j].pageMask.start <= TrailingZeros(address))
    && Vacant(sh, t0, address, pos)
  }

  /** Every object resolved before still resolves the same way. */
  ghost predicate Keeps(sh: Shape, t0: Table, t: Table)
    requires sh.Valid() && |t| == |t0| == Pow2(sh.directoryBits)
  {
    forall a: nat :: a < Pow2(sh.width) && Resolve(sh, t0, a).target.Some?
      ==> Resolve(sh, t, a) == Resolve(sh, t0, a)
  }

  lemma MappingStarts(sh: Shape, t: Table, address: nat, target: Mappable)
    requires sh.Valid() && WellShaped(sh, t)
    requires target.size > 0 && address < Pow2(sh.width)
    ensures MappedUpTo(sh, t, t, address, target, sh.Vdn(address), address)
  {
    Locate(sh, address);
    DownBounds(address, sh.PageBits());
    var end := address + target.size;
    forall j | 0 <= j < sh.Vdn(address)
      ensures !Touches(sh, j, address, end)
    {
      MulMono(j + 1, sh.Vdn(address), Pow2(sh.PageBits()));
      Distribute(j, 1, Pow2(sh.PageBits()));
    }
  }

  /** The directory being filled: its slots starting in [address, pos) are claimed. */
  ghost predicate Filling(sh: Shape, d0: Directory, d: Directory, k: nat, address: nat, target: Mappable, pos: nat)
    requires sh.Valid()
  {
    d == Claim(sh, d0, k, address, pos, Page(address, Some(target)))
      .(optimalAlignment := Min(d0.optimalAlignment, TrailingZeros(address)))
  }

  /** The page at pos serves exactly the addresses from pos to the next page. */
  lemma PageServes(sh: Shape, t: Table, k: nat, i: nat)
    requires sh.Valid() && WellShaped(sh, t) && k < |t| && i < Pow2(t[k].pageMask.length)
    ensures
      var pos := PageAddress(sh, t[k], k, i);
      && pos < Pow2(sh.width)
      && Resolve(sh, t, pos) == PageIn(t[k], i)
      && forall a :: pos <= a < pos + Pow2(t[k].pageMask.start) ==>
           a < Pow2(sh.width) && Resolve(sh, t, a) == PageIn(t[k], i)
  {
    var (d, p) := (t[k], Pow2(t[k].pageMask.start));
    var pos := PageAddress(sh, d, k, i);
    SlotAddress(sh, d, k, i);
    forall a | pos <= a < pos + p
      ensures a < Pow2(sh.width) && Resolve(sh, t, a) == PageIn(d, i)
    {
      Locate(sh, a);
      Locate(sh, pos);
      DivMod(pos, p);
      DivModUnique(a, p, pos / p, a - pos);
      DownBounds(pos, sh.PageBits());
      DivModUnique(a, Pow2(sh.PageBits()), k, a - sh.FirstAddress(k));
      ResolveByPage(sh, t, a);
    }
  }

  /** Slots are laid out in address order. */
  lemma SlotOrder(sh: Shape, d: Directory, k: nat, i: nat, j: nat)
    requires sh.Valid()
    ensures PageAddress(sh, d, k, i) < PageAddress(sh, d, k, j) <==> i < j
  {
    var p := Pow2(d.pageMask.start);
    if i < j { MulLess(i, j, p); } else { MulMono(j, i, p); }
  }

  /** Claiming the slot at pos extends the claimed range by one page. */
  lemma ClaimNext(sh: Shape, d0: Directory, d: Directory, k: nat, address: nat, target: Mappable, i: nat)
    requires sh.Valid() && DirectoryOk(sh, d0) && i < Pow2(d0.pageMask.length)
    requires Filling(sh, d0, d, k, address, target, PageAddress(sh, d0, k, i))
    requires address <= PageAddress(sh, d0, k, i)
    ensures Filling(sh, d0, d.(pageTable := d.pageTable[i := Page(address, Some(target))]), k, address,
                    target, PageAddress(sh, d0, k, i + 1))
    ensures PageAddress(sh, d0, k, i + 1) == PageAddress(sh, d0, k, i) + Pow2(d0.pageMask.start)
  {
    var p := Pow2(d0.pageMask.start);
    Distribute(i, 1, p);
    forall j: nat | j < Pow2(d0.pageMask.length)
      ensures PageAddress(sh, d0, k, j) < PageAddress(sh, d0, k, i + 1) <==>
              j == i || PageAddress(sh, d0, k, j) < PageAddress(sh, d0, k, i)
    {
      SlotOrder(sh, d0, k, j, i);
      SlotOrder(sh, d0, k, j, i + 1);
    }
  }

  /** Once pos has passed the end of the object the directory is completely mapped. */
  lemma FillingDone(sh: Shape, d0: Directory, d: Directory, k: nat, address: nat, target: Mappable, i: nat)
    requires sh.Valid() && DirectoryOk(sh, d0) && 0 < i <= Pow2(d0.pageMask.length)
    requires Filling(sh, d0, d, k, address, target, PageAddress(sh, d0, k, i))
    requires PageAddress(sh, d0, k, i - 1) < address + target.size <= PageAddress(sh, d0, k, i)
    requires Touches(sh, k, address, address + target.size)
    ensures d == MappedDirectory(sh, d0, k, address, target)
  {
    forall j: nat | j < Pow2(d0.pageMask.length)
      ensures PageAddress(sh, d0, k, j) < PageAddress(sh, d0, k, i) <==>
              PageAddress(sh, d0, k, j) < address + target.size
    {
      SlotOrder(sh, d0, k, j, i);
      SlotOrder(sh, d0, k, i - 1, j);
    }
  }

  /** A directory filled to its end while the object goes on is completely mapped. */
  lemma FillingFull(sh: Shape, d0: Directory, d: Directory, k: nat, address: nat, target: Mappable, pos: nat)
    requires sh.Valid() && DirectoryOk(sh, d0) && k < Pow2(sh.directoryBits)
    requires Filling(sh, d0, d, k, address, target, pos)
    requires sh.FirstAddress(k) + Pow2(sh.PageBits()) == pos < address + target.size
    requires Touches(sh, k, address, address + target.size)
    ensures d == MappedDirectory(sh, d0, k, address, target)
  {
    forall j: nat | j < Pow2(d0.pageMask.length)
      ensures PageAddress(sh, d0, k, j) < pos
    {
      SlotAddress(sh, d0, k, j);
    }
  }

  /** The slot of an address that resolves to an object starts outside any vacant range. */
  lemma TakenSlot(sh: Shape, t: Table, a: nat, lo: nat, hi: nat)
    requires sh.Valid() && WellShaped(sh, t) && Vacant(sh, t, lo, hi)
    requires a < Pow2(sh.width) && Resolve(sh, t, a).target.Some?
    ensures sh.Vdn(a) < |t|
    ensures
      var k := sh.Vdn(a);
      var (d, i) := (t[k], t[k].pageMask.ExtractFrom(a));
      && i < Pow2(d.pageMask.length) && Resolve(sh, t, a) == PageIn(d, i)
      && !(lo <= PageAddress(sh, d, k, i) < hi)
      && PageAddress(sh, d, k, i) < sh.FirstAddress(k + 1)
  {
    Locate(sh, a);
    var (k, i) := (sh.Vdn(a), t[sh.Vdn(a)].pageMask.ExtractFrom(a));
    SlotOf(sh, t[k], a);
    SlotAddress(sh, t[k], k, i);
    PageServes(sh, t, k, i);
    Distribute(k, 1, Pow2(sh.PageBits()));
  }

  /** A slot outside the claimed range keeps its page. */
  lemma SlotKept(sh: Shape, d0: Directory, d: Directory, k: nat, lo: nat, hi: nat, page: Page, i: nat)
    requires sh.Valid() && i < Pow2(d0.pageMask.length) && !(lo <= PageAddress(sh, d0, k, i) < hi)
    requires d.pageMask == d0.pageMask && d.pageTable == Claim(sh, d0, k, lo, hi, page).pageTable
    ensures PageIn(d, i) == PageIn(d0, i)
  {
  }

  /** A partly mapped table still resolves every earlier object. */
  lemma PartialKeepsAt(sh: Shape, t0: Table, t: Table, address: nat, target: Mappable, k: nat, pos: nat, a: nat)
    requires sh.Valid() && WellShaped(sh, t0) && |t| == |t0| && k < |t|
    requires pos <= address + target.size && Vacant(sh, t0, address, pos)
    requires sh.FirstAddress(k) <= pos
    requires forall j :: 0 <= j < k ==> t[j] == MappedDirectory(sh, t0[j], j, address, target)
    requires t[k] == t0[k] || Filling(sh, t0[k], t[k], k, address, target, pos)
    requires forall j :: k < j < |t| ==> t[j] == t0[j]
    requires a < Pow2(sh.width) && Resolve(sh, t0, a).target.Some?
    ensures Resolve(sh, t, a) == Resolve(sh, t0, a)
  {
    TakenSlot(sh, t0, a, address, pos);
    var j := sh.Vdn(a);
    var (page, i) := (Page(address, Some(target)), t0[j].pageMask.ExtractFrom(a));
    if t[j] == t0[j] {
    } else if j == k {
      SlotKept(sh, t0[j], t[j], j, address, pos, page, i);
    } else {
      MulMono(j + 1, k, Pow2(sh.PageBits()));
      SlotKept(sh, t0[j], t[j], j, address, address + target.size, page, i);
    }
  }

  lemma PartialKeeps(sh: Shape, t0: Table, t: Table, address: nat, target: Mappable, k: nat, pos: nat)
    requires sh.Valid() && WellShaped(sh, t0) && |t| == |t0| && k < |t|
    requires pos <= address + target.size && Vacant(sh, t0, address, pos)
    requires sh.FirstAddress(k) <= pos
    requires forall j :: 0 <= j < k ==> t[j] == MappedDirectory(sh, t0[j], j, address, target)
    requires t[k] == t0[k] || Filling(sh, t0[k], t[k], k, address, target, pos)
    requires forall j :: k < j < |t| ==> t[j] == t0[j]
    ensures Keeps(sh, t0, t)
  {
    forall a: nat | a < Pow2(sh.width) && Resolve(sh, t0, a).target.Some?
      ensures Resolve(sh, t, a) == Resolve(sh, t0, a)
    {
      PartialKeepsAt(sh, t0, t, address, target, k, pos, a);
    }
  }

  /** A directory with its page vector allocated and its optimal page size lowered. */
  function Resized(d: Directory, alignment: nat): Directory
  {
    Directory(d.pageMask, Min(d.optimalAlignment, alignment),
      seq(Pow2(d.pageMask.length), (i: nat) => PageIn(d, i)))
  }

  /** The position at the head of the directory loop is the start of a page. */
  lemma FirstSlot(sh: Shape, t0: Table, t: Table, address: nat, target: Mappable, k: nat, pos: nat)
    requires sh.Valid() && MappedUpTo(sh, t0, t, address, target, k, pos)
    requires t0[k].pageMask.start <= TrailingZeros(address)
    ensures
      var i := t0[k].pageMask.ExtractFrom(pos);
      && i < Pow2(t0[k].pageMask.length) && PageAddress(sh, t0[k], k, i) == pos
    ensures Filling(sh, t0[k], Resized(t0[k], TrailingZeros(address)), k, address, target, pos)
  {
    var start := t0[k].pageMask.start;
    Locate(sh, pos);
    DivModUnique(pos, Pow2(sh.PageBits()), k, pos - sh.FirstAddress(k));
    SlotOf(sh, t0[k], pos);
    TrailingZerosDivides(address);
    DividesLess(address, start, TrailingZeros(address));
    DivMul(k, Pow2(sh.PageBits()));
    DividesLess(sh.FirstAddress(k), start, sh.PageBits());
    DownGreatest(pos, start, pos);
  }

  /** The end of slot i of directory k is at most the end of the directory, and equal for the last. */
  lemma SlotEnd(sh: Shape, d: Directory, k: nat, i: nat)
    requires sh.Valid() && DirectoryOk(sh, d) && i <= Pow2(d.pageMask.length)
    ensures PageAddress(sh, d, k, i) <= sh.FirstAddress(k) + Pow2(sh.PageBits()) == sh.FirstAddress(k + 1)
    ensures i == Pow2(d.pageMask.length) ==> PageAddress(sh, d, k, i) == sh.FirstAddress(k + 1)
  {
    Pow2Add(d.pageMask.length, d.pageMask.start);
    MulMono(i, Pow2(d.pageMask.length), Pow2(d.pageMask.start));
    Distribute(k, 1, Pow2(sh.PageBits()));
  }

  /** The object ended in directory k: the whole table is the mapped table. */
  lemma LastDirectory(sh: Shape, t0: Table, t: Table, address: nat, target: Mappable, k: nat, i: nat)
    requires sh.Valid() && WellShaped(sh, t0) && |t| == |t0| && k < |t| && target.size > 0
    requires address + target.size <= Pow2(sh.width) && i <= Pow2(t0[k].pageMask.length)
    requires address + target.size <= PageAddress(sh, t0[k], k, i)
    requires Vacant(sh, t0, address, PageAddress(sh, t0[k], k, i))
    requires t0[k].pageMask.start <= TrailingZeros(address)
    requires forall j :: 0 <= j <= k ==> t[j] == MappedDirectory(sh, t0[j], j, address, target)
    requires forall j :: k < j < |t| ==> t[j] == t0[j]
    requires forall j | 0 <= j < k && Touches(sh, j, address, address + target.size) ::
               t0[j].pageMask.start <= TrailingZeros(address)
    ensures CanMap(sh, t0, address, target) && t == Mapped(sh, t0, address, target)
  {
    SlotEnd(sh, t0[k], k, i);
    var end := address + target.size;
    forall j | k < j < |t|
      ensures !Touches(sh, j, address, end)
    {
      MulMono(k + 1, j, Pow2(sh.PageBits()));
    }
  }

  /** The directories divide up the bus. */
  lemma DirectoryBelow(sh: Shape, k: nat)
    requires sh.Valid() && k <= Pow2(sh.directoryBits)
    ensures if k < Pow2(sh.directoryBits) then sh.FirstAddress(k) < Pow2(sh.width) else sh.FirstAddress(k) == Pow2(sh.width)
  {
    Pow2Add(sh.PageBits(), sh.directoryBits);
    if k < Pow2(sh.directoryBits) {
      MulLess(k, Pow2(sh.directoryBits), Pow2(sh.PageBits()));
    }
  }

  /** The object goes on past directory k: the next pass starts at the next directory. */
  lemma NextDirectory(sh: Shape, t0: Table, t: Table, address: nat, target: Mappable, k: nat, pos: nat)
    requires sh.Valid() && WellShaped(sh, t0) && |t| == |t0| && k < |t|
    requires address <= pos < address + target.size && sh.Vdn(address) <= k && k + 1 < |t|
    requires address < Pow2(sh.width)
    requires pos == PageAddress(sh, t0[k], k, Pow2(t0[k].pageMask.length))
    requires Vacant(sh, t0, address, pos) && t0[k].pageMask.start <= TrailingZeros(address)
    requires forall j :: 0 <= j <= k ==> t[j] == MappedDirectory(sh, t0[j], j, address, target)
    requires forall j :: k < j < |t| ==> t[j] == t0[j]
    requires forall j | 0 <= j < k && Touches(sh, j, address, address + target.size) ::
               t0[j].pageMask.start <= TrailingZeros(address)
    ensures MappedUpTo(sh, t0, t, address, target, k + 1, pos)
  {
    SlotEnd(sh, t0[k], k, Pow2(t0[k].pageMask.length));
    DirectoryBelow(sh, k + 1);
    MulPositive(1, Pow2(sh.PageBits()));
  }

  /** Mapping an object takes nothing away from the objects mapped before. */
  lemma MappedKeeps(sh: Shape, t: Table, address: nat, target: Mappable)
    requires sh.Valid() && WellShaped(sh, t)
    requires CanMap(sh, t, address, target)
    ensures Keeps(sh, t, Mapped(sh, t, address, target))
  {
    forall a: nat | a < Pow2(sh.width) && Resolve(sh, t, a).target.Some?
      ensures Resolve(sh, Mapped(sh, t, address, target), a) == Resolve(sh, t, a)
    {
      MappedLookup(sh, t, address, target, a);
      ResolveByPage(sh, t, a);
    }
  }

  /** The page loop of map within one directory, whose slots are claimed from pageIndex on. Ends
      with an exception at the first slot already taken. */
  method FillDirectory(sh: Shape, ghost t0: Table, d0: Directory, address: nat, target: Mappable,
                       alignment: nat, ghost k: nat, mapped: nat)
    returns (occupied: bool, directory: Directory, mapSize: nat, pageIndex: nat)
    requires sh.Valid() && WellShaped(sh, t0) && k < |t0| && t0[k] == d0
    requires alignment == TrailingZeros(address) && mapped < target.size
    requires Vacant(sh, t0, address, address + mapped)
    requires PageAddress(sh, d0, k, d0.pageMask.ExtractFrom(address + mapped)) == address + mapped
    requires d0.pageMask.ExtractFrom(address + mapped) < Pow2(d0.pageMask.length)
    requires Filling(sh, d0, Resized(d0, alignment), k, address, target, address + mapped)
    ensures Vacant(sh, t0, address, address + mapSize)
    ensures mapped <= mapSize
    ensures Filling(sh, d0, directory, k, address, target, address + mapSize)
    ensures 0 <= pageIndex <= Pow2(d0.pageMask.length)
    ensures address + mapSize == PageAddress(sh, d0, k, pageIndex)
    ensures occupied ==> mapSize < target.size && pageIndex < Pow2(d0.pageMask.length)
    ensures occupied ==> PageIn(d0, pageIndex).target.Some?
    ensures !occupied && mapSize < target.size ==> pageIndex == Pow2(d0.pageMask.length)
    ensures !occupied && mapSize >= target.size ==>
      0 < pageIndex && PageAddress(sh, d0, k, pageIndex - 1) < address + target.size
  {
    mapSize := mapped;
    var pageSize := Pow2(d0.pageMask.start);
    pageIndex := d0.pageMask.ExtractFrom(address + mapSize);
    directory := Resized(d0, alignment);
    while pageIndex < |directory.pageTable|
      invariant pageIndex <= |directory.pageTable| == Pow2(d0.pageMask.length)
      invariant address + mapSize == PageAddress(sh, d0, k, pageIndex)
      invariant mapped <= mapSize < target.size
      invariant Filling(sh, d0, directory, k, address, target, address + mapSize)
      invariant Vacant(sh, t0, address, address + mapSize)
    {
      PageServes(sh, t0, k, pageIndex);
      if directory.pageTable[pageIndex].target.Some? {
        return true, directory, mapSize, pageIndex;
      }
      ClaimNext(sh, d0, directory, k, address, target, pageIndex);
      directory := directory.(pageTable := directory.pageTable[pageIndex := Page(address, Some(target))]);
      pageIndex := pageIndex + 1;
      mapSize := mapSize + pageSize;
      if mapSize >= target.size {
        return false, directory, mapSize, pageIndex;
      }
    }
    occupied := false;
  }

  /** What a call to map promises: it succeeds exactly when the object can be mapped, and then
      computes the mapped table; it runs off the table exactly when the object does and the part before
      can be mapped; a failure leaves every earlier object resolved. */
  ghost predicate MapPost(sh: Shape, t0: Table, t: Table, address: nat, target: Mappable, outcome: MapOutcome)
    requires sh.Valid() && WellShaped(sh, t0) && address < Pow2(sh.width)
  {
    && |t| == |t0| && Keeps(sh, t0, t)
    && (outcome.Done? <==> CanMap(sh, t0, address, target))
    && (outcome.Done? ==> t == Mapped(sh, t0, address, target) && WellShaped(sh, t))
    && (outcome.ZeroSized? <==> target.size == 0)
    && (outcome.ZeroSized? ==> t == t0)
    && (outcome.OffTheEnd? <==> RunsOff(sh, t0, address, target))
    && outcome != OutOfRange
  }

  /** A directory or page that the part of the object on the bus cannot have. */
  lemma Blocked(sh: Shape, t: Table, address: nat, target: Mappable, k: nat, a: nat)
    requires sh.Valid() && |t| == Pow2(sh.directoryBits) && k < |t|
    requires address <= a < address + target.size && a < Pow2(sh.width)
    requires sh.FirstAddress(k) <= a < sh.FirstAddress(k) + Pow2(sh.PageBits())
    requires TrailingZeros(address) < t[k].pageMask.start || Resolve(sh, t, a).target.Some?
    ensures !CanMap(sh, t, address, target) && !RunsOff(sh, t, address, target)
  {
    assert Touches(sh, k, address, address + target.size) && Touches(sh, k, address, Pow2(sh.width));
  }

  lemma MapSucceeds(sh: Shape, t0: Table, t: Table, address: nat, target: Mappable, k: nat, first: nat,
                    directory: Directory, i: nat)
    requires sh.Valid() && MappedUpTo(sh, t0, t, address, target, k, first)
    requires 0 < i <= Pow2(t0[k].pageMask.length) && t0[k].pageMask.start <= TrailingZeros(address)
    requires Filling(sh, t0[k], directory, k, address, target, PageAddress(sh, t0[k], k, i))
    requires Vacant(sh, t0, address, PageAddress(sh, t0[k], k, i))
    requires PageAddress(sh, t0[k], k, i - 1) < address + target.size <= PageAddress(sh, t0[k], k, i)
    ensures MapPost(sh, t0, t[k := directory], address, target, Done)
  {
    SlotEnd(sh, t0[k], k, i);
    DirectoryBelow(sh, k + 1);
    FillingDone(sh, t0[k], directory, k, address, target, i);
    LastDirectory(sh, t0, t[k := directory], address, target, k, i);
    MappedShape(sh, t0, address, target);
    MappedKeeps(sh, t0, address, target);
  }

  lemma MapMisaligned(sh: Shape, t0: Table, t: Table, address: nat, target: Mappable, k: nat, pos: nat)
    requires sh.Valid() && MappedUpTo(sh, t0, t, address, target, k, pos)
    requires TrailingZeros(address) < t0[k].pageMask.start
    ensures MapPost(sh, t0, t, address, target, Misaligned)
  {
    PartialKeeps(sh, t0, t, address, target, k, pos);
    Blocked(sh, t0, address, target, k, pos);
  }

  lemma MapOccupied(sh: Shape, t0: Table, t: Table, address: nat, target: Mappable, k: nat, first: nat,
                    directory: Directory, i: nat)
    requires sh.Valid() && MappedUpTo(sh, t0, t, address, target, k, first)
    requires i < Pow2(t0[k].pageMask.length) && PageIn(t0[k], i).target.Some?
    requires first <= PageAddress(sh, t0[k], k, i) < address + target.size
    requires Vacant(sh, t0, address, PageAddress(sh, t0[k], k, i))
    requires Filling(sh, t0[k], directory, k, address, target, PageAddress(sh, t0[k], k, i))
    ensures MapPost(sh, t0, t[k := directory], address, target, Occupied)
  {
    PageServes(sh, t0, k, i);
    SlotAddress(sh, t0[k], k, i);
    PartialKeeps(sh, t0, t[k := directory], address, target, k, PageAddress(sh, t0[k], k, i));
    Blocked(sh, t0, address, target, k, PageAddress(sh, t0[k], k, i));
  }

  /** The last directory is full and the object goes on. */
  lemma MapRunsOff(sh: Shape, t0: Table, t: Table, address: nat, target: Mappable, k: nat, first: nat,
                   directory: Directory)
    requires sh.Valid() && MappedUpTo(sh, t0, t, address, target, k, first) && k == |t| - 1
    requires t0[k].pageMask.start <= TrailingZeros(address) && Pow2(sh.width) < address + target.size
    requires Filling(sh, t0[k], directory, k, address, target, Pow2(sh.width))
    requires Vacant(sh, t0, address, Pow2(sh.width))
    ensures MapPost(sh, t0, t[k := directory], address, target, OffTheEnd)
  {
    DirectoryBelow(sh, k);
    PartialKeeps(sh, t0, t[k := directory], address, target, k, Pow2(sh.width));
    forall j | 0 <= j < |t| && Touches(sh, j, address, Pow2(sh.width))
      ensures t0[j].pageMask.start <= TrailingZeros(address)
    {
      assert Touches(sh, j, address, address + target.size);
    }
  }

  /** The object goes on past directory k, to the next directory or past the end of the table. */
  lemma DirectoryFull(sh: Shape, t0: Table, t: Table, address: nat, target: Mappable, k: nat, first: nat,
                      directory: Directory, pos: nat)
    requires sh.Valid() && MappedUpTo(sh, t0, t, address, target, k, first)
    requires t0[k].pageMask.start <= TrailingZeros(address)
    requires Vacant(sh, t0, address, pos) && first <= pos < address + target.size
    requires Filling(sh, t0[k], directory, k, address, target, pos)
    requires pos == PageAddress(sh, t0[k], k, Pow2(t0[k].pageMask.length)) == sh.FirstAddress(k + 1)
    requires sh.FirstAddress(k + 1) == sh.FirstAddress(k) + Pow2(sh.PageBits())
    ensures k + 1 < |t| ==> MappedUpTo(sh, t0, t[k := directory], address, target, k + 1, pos)
    ensures k + 1 == |t| ==> MapPost(sh, t0, t[k := directory], address, target, OffTheEnd)
  {
    if k + 1 < |t| {
      FillingFull(sh, t0[k], directory, k, address, target, pos);
      NextDirectory(sh, t0, t[k := directory], address, target, k, pos);
    } else {
      DirectoryBelow(sh, k + 1);
      MapRunsOff(sh, t0, t, address, target, k, first, directory);
    }
  }

  /** What the page loop of one directory has achieved. */
  lemma DirectoryFilled(sh: Shape, t0: Table, t: Table, address: nat, target: Mappable, k: nat, mapped: nat,
                        occupied: bool, directory: Directory, mapSize: nat, pageIndex: nat)
    requires sh.Valid() && MappedUpTo(sh, t0, t, address, target, k, address + mapped)
    requires t0[k].pageMask.start <= TrailingZeros(address)
    requires Vacant(sh, t0, address, address + mapSize) && mapped <= mapSize
    requires Filling(sh, t0[k], directory, k, address, target, address + mapSize)
    requires pageIndex <= Pow2(t0[k].pageMask.length) && address + mapSize == PageAddress(sh, t0[k], k, pageIndex)
    requires occupied ==>
      mapSize < target.size && pageIndex < Pow2(t0[k].pageMask.length) && PageIn(t0[k], pageIndex).target.Some?
    requires !occupied && mapSize < target.size ==> pageIndex == Pow2(t0[k].pageMask.length)
    requires !occupied && mapSize >= target.size ==>
      0 < pageIndex && PageAddress(sh, t0[k], k, pageIndex - 1) < address + target.size
    ensures !occupied && mapSize < target.size && k + 1 < |t| ==>
      MappedUpTo(sh, t0, t[k := directory], address, target, k + 1, address + mapSize)
    ensures !occupied && mapSize < target.size && k + 1 == |t| ==>
      MapPost(sh, t0, t[k := directory], address, target, OffTheEnd)
    ensures occupied || mapSize >= target.size ==>
      MapPost(sh, t0, t[k := directory], address, target, if occupied then Occupied else Done)
  {
    if occupied {
      MapOccupied(sh, t0, t, address, target, k, address + mapped, directory, pageIndex);
    } else if mapSize < target.size {
      SlotEnd(sh, t0[k], k, pageIndex);
      DirectoryFull(sh, t0, t, address, target, k, address + mapped, directory, address + mapSize);
    } else {
      MapSucceeds(sh, t0, t, address, target, k, address + mapped, directory, pageIndex);
    }
  }

  /** One pass of the directory loop of map: claims the pages of one directory from the current
      position to the end of the object or of the directory. */
  method MapDirectory(sh: Shape, ghost t0: Table, t: Table, address: nat, target: Mappable, alignment: nat,
                      directoryIndex: nat, mapped: nat)
    returns (outcome: MapOutcome, t': Table, mapSize: nat)
    requires sh.Valid() && alignment == TrailingZeros(address)
    requires MappedUpTo(sh, t0, t, address, target, directoryIndex, address + mapped)
    ensures |t'| == |t0|
    ensures outcome.Done? && mapSize < target.size && directoryIndex + 1 < |t0| ==>
      MappedUpTo(sh, t0, t', address, target, directoryIndex + 1, address + mapSize)
    ensures outcome.Done? && mapSize < target.size && directoryIndex + 1 == |t0| ==>
      MapPost(sh, t0, t', address, target, OffTheEnd)
    ensures !outcome.Done? || mapSize >= target.size ==> MapPost(sh, t0, t', address, target, outcome)
  {
    var directory := t[directoryIndex];
    if alignment < directory.pageMask.start {
      MapMisaligned(sh, t0, t, address, target, directoryIndex, address + mapped);
      return Misaligned, t, mapped;
    }
    FirstSlot(sh, t0, t, address, target, directoryIndex, address + mapped);
    var occupied, pageIndex;
    occupied, directory, mapSize, pageIndex :=
      FillDirectory(sh, t0, directory, address, target, alignment, directoryIndex, mapped);
    t' := t[directoryIndex := directory];
    outcome := if occupied then Occupied else Done;
    DirectoryFilled(sh, t0, t, address, target, directoryIndex, mapped, occupied, directory, mapSize, pageIndex);
  }

  /** The directory loop of map, which does not look for the end of the table. */
  method MapDirectories(sh: Shape, t0: Table, address: nat, target: Mappable, alignment: nat)
    returns (outcome: MapOutcome, t: Table)
    requires sh.Valid() && WellShaped(sh, t0) && alignment == TrailingZeros(address)
    requires target.size > 0 && address < Pow2(sh.width)
    ensures MapPost(sh, t0, t, address, target, outcome)
  {
    t := t0;
    var directoryIndex: nat := sh.Vdn(address);
    var mapSize: nat := 0;
    MappingStarts(sh, t0, address, target);
    while true
      invariant MappedUpTo(sh, t0, t, address, target, directoryIndex, address + mapSize)
      decreases |t0| - directoryIndex
    {
      outcome, t, mapSize := MapDirectory(sh, t0, t, address, target, alignment, directoryIndex, mapSize);
      if !outcome.Done? || mapSize >= target.size {
        return;
      }
      directoryIndex := directoryIndex + 1;
      if directoryIndex == |t| {
        return OffTheEnd, t;
      }
    }
  }

  /** Copies every page that starts on an optimal page boundary to the coarser page vector. */
  method OptimiseDirectory(sh: Shape, d: Directory) returns (o: Directory)
    requires sh.Valid() && DirectoryOk(sh, d) && d.pageMask.start != d.optimalAlignment
    ensures o == OptimisedDirectory(sh, d)
  {
    var mask := Bitfield(d.optimalAlignment, sh.PageBits() - d.optimalAlignment);
    var (n, step) := (Pow2(mask.length), Pow2(d.optimalAlignment));
    var pages := seq(n, _ => NULL_PAGE);
    var index, j := 0, 0;
    Pow2Add(mask.length, d.optimalAlignment);
    while index < |d.pageTable|
      invariant index == j * step && j <= n && |pages| == n
      invariant forall i :: 0 <= i < j ==> pages[i] == PageIn(d, i * step)
      invariant forall i :: j <= i < n ==> pages[i] == NULL_PAGE
      decreases n - j
    {
      MulMono(n, j, step);
      DivMul(j, step);
      pages := pages[index / step := d.pageTable[index]];
      Distribute(j, 1, step);
      index := index + step;
      j := j + 1;
    }
    forall i: nat | j <= i < n
      ensures PageIn(d, i * step) == NULL_PAGE
    {
      MulMono(j, i, step);
    }
    o := Directory(mask, d.optimalAlignment, pages);
  }

  class ByteBus {
    const shape: Shape
    var table: Table

    ghost predicate Valid()
      reads this
    {
      shape.Valid() && shape.width <= 32 && WellShaped(shape, table)
    }

    constructor (width: nat, directoryMaskLength: nat)
      requires 0 < directoryMaskLength < width <= 32
      ensures shape == Shape(width, directoryMaskLength) && Valid()
      ensures table == FreshTable(shape)
    {
      shape := Shape(width, directoryMaskLength);
      table := FreshTable(Shape(width, directoryMaskLength));
    }

    /** The page of an address; none where the code reads past the end of an empty page vector. */
    method GetPage(address: nat) returns (page: Option<Page>)
      requires Valid() && address < Pow2(shape.width)
      ensures shape.Vdn(address) < |table|
      ensures page.None? <==> table[shape.Vdn(address)].pageTable == []
      ensures page.Some? ==> page.value == Resolve(shape, table, address)
    {
      Locate(shape, address);
      var directory := table[shape.Vdn(address)];
      var pageIndex := directory.pageMask.ExtractFrom(address);
      SlotOf(shape, directory, address);
      page := if pageIndex < |directory.pageTable| then Some(directory.pageTable[pageIndex]) else None;
    }

    /** Maps an object at an address. */
    method Map(address: nat, target: Mappable) returns (outcome: MapOutcome)
      requires Valid() && address < Pow2(shape.width)
      modifies this
      ensures MapPost(shape, old(table), table, address, target, outcome)
      ensures outcome.Done? ==> Valid()
    {
      if target.size == 0 {
        return ZeroSized;
      }
      ghost var t0 := table;
      RangeGuardNeverFires(shape, table, address, target.size);
      var maxVdn := shape.Vdn((address + target.size) % Pow2(shape.width));
      if maxVdn >= |table| {
        return OutOfRange;
      }
      Pow2Monotone(shape.width, 32);
      var alignment := CountTrailingZeros(address);
      outcome, table := MapDirectories(shape, table, address, target, alignment);
    }

    /** Coarsens every directory to its optimal page size. */
    method OptimiseTables()
      requires Valid()
      modifies this
      ensures Valid() && table == Optimised(shape, old(table))
    {
      ghost var t0 := table;
      OptimisedShape(shape, t0);
      var k := 0;
      while k < |table|
        invariant 0 <= k <= |table| == |t0|
        invariant forall j :: 0 <= j < k ==> table[j] == OptimisedDirectory(shape, t0[j])
        invariant forall j :: k <= j < |table| ==> table[j] == t0[j]
      {
        if table[k].pageMask.start != table[k].optimalAlignment {
          var directory := OptimiseDirectory(shape, table[k]);
          table := table[k := directory];
        }
        k := k + 1;
      }
    }
  }
}
