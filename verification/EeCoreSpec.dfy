/** The EE Core's exceptions and cached address translation, as functions of its state. */
module EeCoreSpec {
  import opened Wrappers
  import opened Words
  import opened Bits
  import opened BitfieldModel
  import opened Tlb
  import opened Translation
  import opened LruCache

  const CACHE_SIZE := 6

  type Cache = Lru<uword, nat>

  const EMPTY: Cache := Lru([], 0)

  /** COP0, the TLB, the PC, the pending branch (its remaining slots and target) and the data and
      instruction translation caches. */
  datatype Core = Core(cop0: Cop0, tlb: seq<TlbEntry>, pc: uword, slots: nat, branch: uword,
                       data: Cache, inst: Cache)

  // ---------------------------------------------------------------- exceptions

  const INTERRUPT := 0
  const RESET := 100
  const NMI := 101
  const PERFORMANCE_COUNTER := 102
  const DEBUG := 104

  /** The address of the instruction at fault goes to EPC, or ErrorEPC at level 2: in a delay slot
      that is the branch, which is cancelled. */
  function SetErrorAddress(c: Core, level2: bool): Core
  {
    var (pending, address) := (c.slots > 0, if c.slots > 0 then Wrap(c.pc - 4) else c.pc);
    var cop0 := if level2 then c.cop0.(errorepc := address, bd2 := pending)
                else c.cop0.(epc := address, bd := pending);
    c.(cop0 := cop0, slots := 0)
  }

  function VectorOffset(code: nat): nat
  {
    if code == REFILL_LOAD || code == REFILL_STORE then 0x000
    else if code == INTERRUPT then 0x200
    else if code == PERFORMANCE_COUNTER then 0x080
    else if code == DEBUG then 0x100
    else 0x180
  }

  /** Where the handler of an exception is, in the state it occurs in. */
  function Handler(c: Core, code: nat): uword
  {
    if code == RESET || code == NMI then 0xBFC0_0000
    else
      (if c.cop0.dev || c.cop0.bev then 0xBFC0_0200 else 0x8000_0000)
      + if c.cop0.exl then 0x180 else VectorOffset(code)
  }

  function RecordCause(c: Core, code: nat): Core
  {
    c.(cop0 := if code >= 100 then c.cop0.(erl := true, exc2 := code - 100)
               else c.cop0.(erl := false, exccode := code))
  }

  function WithinException(c: Core): Core
  {
    c.(cop0 := c.cop0.(exl := true))
  }

  /** Enters the handler of an exception: the first one sets the return address. */
  function EnterHandler(c: Core, code: nat): Core
  {
    var handler := Handler(c, code);
    var c' := if c.cop0.exl then c else WithinException(SetErrorAddress(c, code >= 100));
    c'.(pc := if code == INTERRUPT then handler else Wrap(handler - 4), data := EMPTY, inst := EMPTY)
  }

  /** Reset and NMI return before the translation caches are flushed. Exceptions other than
      interrupts are raised within an instruction, which the PC is still to advance past. */
  function Raise(c: Core, code: nat): Core
  {
    var c' := RecordCause(c, code);
    if code == RESET || code == NMI then SetErrorAddress(c', true).(pc := Handler(c', code)) else EnterHandler(c', code)
  }

  /** The return from an exception, at which the PC is still to advance too. */
  function Eret(c: Core): Core
  {
    var c1 := if c.cop0.erl then c.(pc := Wrap(c.cop0.errorepc - 4), cop0 := c.cop0.(erl := false))
              else c.(pc := Wrap(c.cop0.epc - 4), cop0 := c.cop0.(exl := false));
    c1.(data := EMPTY, inst := EMPTY)
  }

  /** The next instruction, or the target of a branch whose slot has been executed. */
  function AdvancePc(c: Core): Core
  {
    if c.slots == 1 then c.(slots := 0, pc := c.branch)
    else c.(slots := if c.slots > 0 then c.slots - 1 else 0, pc := Wrap(c.pc + 4))
  }

  lemma BackAndForth(address: uword)
    ensures Wrap(Wrap(address - 4) + 4) == address
  {
  }

  /** Outside of other exceptions, the return resumes at the instruction that was interrupted (or
      the branch before it); and it restores the levels exactly for level 1 exceptions taken with
      the error level clear: others leave EXL set or lose ERL. */
  lemma EretResumes(c: Core, code: nat)
    requires code != RESET && code != NMI && !c.cop0.exl
    ensures
      var c' := Eret(Raise(c, code));
      && AdvancePc(c').pc == (if c.slots > 0 then Wrap(c.pc - 4) else c.pc) && c'.slots == 0
      && (c'.cop0.erl == c.cop0.erl && c'.cop0.exl == c.cop0.exl <==> code < 100 && !c.cop0.erl)
  {
    var address := if c.slots > 0 then Wrap(c.pc - 4) else c.pc;
    var d := Raise(c, code);
    assert d.slots == 0 && d.cop0.exl && d.cop0.erl == (code >= 100);
    assert (if code >= 100 then d.cop0.errorepc else d.cop0.epc) == address;
    BackAndForth(address);
  }

  /** An exception within an exception keeps the return addresses of the outer one. */
  lemma NestedKeepsReturn(c: Core, code: nat)
    requires code != RESET && code != NMI && c.cop0.exl
    ensures
      var d := Raise(c, code).cop0;
      d.epc == c.cop0.epc && d.errorepc == c.cop0.errorepc && d.bd == c.cop0.bd && d.exl
  {
  }

  /** Interrupts, Reset and NMI are taken before a fetch, and then from the handler. After any other
      exception the PC still advances, and the next instruction is the handler's; except that an
      exception within an exception does not cancel a branch whose slot it is in, so that the core
      then continues at the branch target. */
  lemma HandlerIsNext(c: Core, code: nat)
    ensures code == INTERRUPT || code == RESET || code == NMI ==> Raise(c, code).pc == Handler(c, code)
    ensures code != INTERRUPT && code != RESET && code != NMI ==>
      (AdvancePc(Raise(c, code)).pc == Handler(c, code)
       <==> !(c.cop0.exl && c.slots == 1) || c.branch == Handler(c, code))
  {
  }

  /** The address of the instruction executed after an exception. Reset and NMI (100 and 101) continue
      at 0xBFC00000; other exceptions at 0xBFC00200 with BEV or DEV set and at 0x80000000 with both
      clear, plus 0x180 with EXL set, and else plus 0 for TLB refills (2 and 3), 0x200 for interrupts
      (0), 0x80 for the performance counter (102), 0x100 for debug (104) and 0x180 for all others.
      Only a nested exception in a delay slot continues at the target of the branch. */
  lemma NextInstruction(c: Core, code: nat)
    ensures
      var raised := Raise(c, code);
      var next := if code == 0 || code == 100 || code == 101 then raised.pc else AdvancePc(raised).pc;
      var base := if c.cop0.bev || c.cop0.dev then 0xBFC0_0200 else 0x8000_0000;
      if code == 100 || code == 101 then next == 0xBFC0_0000
      else if c.cop0.exl then next == if code != 0 && c.slots == 1 then c.branch else base + 0x180
      else if code == 2 || code == 3 then next == base
      else if code == 0 then next == base + 0x200
      else if code == 102 then next == base + 0x080
      else if code == 104 then next == base + 0x100
      else next == base + 0x180
  {
  }

  /** What an exception records: its code in ExcCode and ERL clear below 100, its code less 100 in
      EXC2 and ERL set from there on; unless it is nested, the address of the instruction, or of the
      branch before it, with the branch flag, in the return registers of its level; EXL but for Reset
      and NMI. Nothing else in COP0 changes. */
  lemma RaiseRecords(c: Core, code: nat)
    ensures
      var (d, e) := (c.cop0, Raise(c, code).cop0);
      var (level2, reset, inSlot) := (code >= 100, code == 100 || code == 101, c.slots > 0);
      var address := if inSlot then (c.pc - 4) % 0x1_0000_0000 else c.pc;
      && e.erl == level2 && e.exl == (d.exl || !reset)
      && (if level2 then e.exc2 == code - 100 && e.exccode == d.exccode else e.exccode == code && e.exc2 == d.exc2)
      && (if d.exl && !reset then e.epc == d.epc && e.errorepc == d.errorepc && e.bd == d.bd && e.bd2 == d.bd2
          else if level2 then e.epc == d.epc && e.errorepc == address && e.bd == d.bd && e.bd2 == inSlot
          else e.epc == address && e.errorepc == d.errorepc && e.bd == inSlot && e.bd2 == d.bd2)
      && e == d.(erl := e.erl, exl := e.exl, exccode := e.exccode, exc2 := e.exc2, epc := e.epc,
                 errorepc := e.errorepc, bd := e.bd, bd2 := e.bd2)
  {
    assert Wrap(c.pc - 4) == (c.pc - 4) % 0x1_0000_0000;
  }

  /** ERET continues at ErrorEPC and clears ERL if that is set, and else continues at EPC and clears
      EXL; a branch that is pending with one slot left takes precedence. */
  lemma EretContinues(c: Core)
    ensures
      var d := Eret(c);
      && AdvancePc(d).pc == (if c.slots == 1 then c.branch else if c.cop0.erl then c.cop0.errorepc else c.cop0.epc)
      && d.cop0 == (if c.cop0.erl then c.cop0.(erl := false) else c.cop0.(exl := false))
      && d.tlb == c.tlb && d.data.entries == [] && d.inst.entries == []
  {
    BackAndForth(c.cop0.errorepc);
    BackAndForth(c.cop0.epc);
  }

  /** Every exception ends in kernel context with nothing cached, except Reset and NMI, which keep
      the caches. */
  lemma RaiseContext(c: Core, code: nat)
    ensures
      var c' := Raise(c, code);
      && c'.cop0.Context() == KernelMode && c'.tlb == c.tlb && c'.cop0.asid == c.cop0.asid
      && (if code == RESET || code == NMI then c'.data == c.data && c'.inst == c.inst
          else c'.data == EMPTY && c'.inst == EMPTY)
  {
  }

  // ---------------------------------------------------------------- cached translation

  function RecordAddress(c: Core, va: uword): Core
  {
    c.(cop0 := c.cop0.(badvaddr := va, badvpn2 := va / 0x2000, vpn2 := va / 0x2000, random := 47))
  }

  /** The slow path: translates, or records the address and raises the exception. */
  function Fallback(c: Core, va: uword, rw: Access): (Core, Option<nat>)
    requires Wellformed(c.tlb)
  {
    match Translate(c.cop0, c.tlb, va, rw)
    case Physical(address) => (c, Some(address))
    case Fault(code) => (Raise(RecordAddress(c, va), code), None)
  }

  function CacheOf(c: Core, isData: bool): Cache { if isData then c.data else c.inst }

  function WithCache(c: Core, isData: bool, l: Cache): Core
  {
    if isData then c.(data := l) else c.(inst := l)
  }

  /** A lookup through a translation cache, whose keys are 4 KB pages. */
  function LookupPage(c: Core, va: uword, rw: Access, isData: bool): (Core, Option<nat>)
    requires Wellformed(c.tlb)
  {
    var (l, key) := (CacheOf(c, isData), PageBase(va));
    if l.Has(key) then (WithCache(c, isData, Get(l, key)), Some(l.Value(key)))
    else
      var (c', page) := Fallback(c, key, rw);
      if page.None? then (c', None)
      else (WithCache(c', isData, Insert(l, CACHE_SIZE, key, page.value)), page)
  }

  function LookupAddress(c: Core, va: uword, rw: Access, isData: bool): (Core, Option<nat>)
    requires Wellformed(c.tlb)
  {
    var (c', page) := LookupPage(c, va, rw, isData);
    (c', if page.None? then None else Some(Or(page.value, And(va, 0xFFF))))
  }

  /** What the slow path gives for the full address. */
  function Exact(c: Core, va: uword, rw: Access): Option<nat>
    requires Wellformed(c.tlb)
  {
    var r := Translate(c.cop0, c.tlb, va, rw);
    if r.Physical? then Some(r.address) else None
  }

  /** A cache holds pages, each once. */
  predicate Paged(l: Cache)
  {
    l.Valid() && |l.entries| <= CACHE_SIZE && forall i :: 0 <= i < |l.entries| ==> l.entries[i].key % 0x1000 == 0
  }

  /** Every cached page is what a read by the slow path gives now. */
  ghost predicate Agrees(c: Core, l: Cache)
    requires Wellformed(c.tlb)
  {
    forall k: uword :: l.Has(k) ==> Translate(c.cop0, c.tlb, k, Read) == Physical(l.Value(k))
  }

  ghost predicate Coherent(c: Core)
  {
    Wellformed(c.tlb) && Paged(c.data) && Paged(c.inst) && Agrees(c, c.data) && Agrees(c, c.inst)
  }

  lemma OrOffset(page: nat, offset: nat)
    requires page % 0x1000 == 0 && offset < 0x1000
    ensures Or(page, offset) == page + offset
  {
    OrLow12(page / 0x1000, 0, offset);
    assert Or(page / 0x1000, 0) == page / 0x1000;
  }

  /** The slow path's result at an address, from its result at the page. */
  lemma JoinOffset(c: Core, va: uword, rw: Access)
    requires Wellformed(c.tlb)
    ensures
      var (page, exact) := (Translate(c.cop0, c.tlb, PageBase(va), rw), Translate(c.cop0, c.tlb, va, rw));
      match page
      case Physical(p) => exact == Physical(Or(p, And(va, 0xFFF)))
      case Fault(_) => exact == page
  {
    var key := PageBase(va);
    PageBaseIsMask(va);
    PageHomogeneous(c.cop0, c.tlb, key, va, rw);
    var page := Translate(c.cop0, c.tlb, key, rw);
    if page.Physical? {
      OrOffset(page.address, va % 0x1000);
    }
  }

  lemma HighNineteen(va: uword)
    ensures Bitfield(13, 19).ExtractFrom(va) == va / 0x2000
  {
    Powers();
    Pow2Add(12, 7);
    FieldAt(va, 13, 19, 0x2000, 0x8_0000);
    SmallMod(va / 0x2000, 0x8_0000);
  }

  /** COP0 after an exception of address translation. */
  predicate Recorded(d: Cop0, code: nat, address: uword, page: nat)
  {
    && d.exccode == code && !d.erl && d.exl && d.random == 47
    && d.badvaddr == address && d.badvpn2 == page && d.vpn2 == page
  }

  lemma FaultRecords(c: Core, key: uword, code: nat)
    requires code <= 5
    ensures Recorded(Raise(RecordAddress(c, key), code).cop0, code, key, key / 0x2000)
  {
    RaiseRecords(RecordAddress(c, key), code);
  }

  lemma FailureIs(c: Core, va: uword, rw: Access, isData: bool)
    requires Wellformed(c.tlb) && LookupAddress(c, va, rw, isData).1.None?
    ensures
      var r := Translate(c.cop0, c.tlb, PageBase(va), rw);
      r.Fault? && LookupAddress(c, va, rw, isData).0 == Raise(RecordAddress(c, PageBase(va)), r.code)
  {
  }

  lemma FailureAt(c: Core, va: uword, rw: Access, isData: bool, key: uword)
    requires Wellformed(c.tlb) && LookupAddress(c, va, rw, isData).1.None? && key == PageBase(va)
    ensures
      var r := Translate(c.cop0, c.tlb, key, rw);
      r.Fault? && Recorded(LookupAddress(c, va, rw, isData).0.cop0, r.code, key, key / 0x2000)
  {
    FailureIs(c, va, rw, isData);
    FaultRecords(c, key, Translate(c.cop0, c.tlb, key, rw).code);
  }

  lemma PageStart(va: uword)
    ensures PageBase(va) == va - va % 0x1000 && PageBase(va) / 0x2000 == va / 0x2000
  {
  }

  /** A failed lookup records its exception in ExcCode, the first address of the page in BadVAddr, bits
      13 to 31 of it in Context.BadVPN2 and EntryHi.VPN2, and 47 in Random. */
  lemma FailureRecords(c: Core, va: uword, rw: Access, isData: bool, key: uword)
    requires Wellformed(c.tlb) && LookupAddress(c, va, rw, isData).1.None? && key == va - va % 0x1000
    ensures
      var r := Translate(c.cop0, c.tlb, key, rw);
      r.Fault? && Recorded(LookupAddress(c, va, rw, isData).0.cop0, r.code, key, Bitfield(13, 19).ExtractFrom(va))
  {
    PageStart(va);
    HighNineteen(va);
    FailureAt(c, va, rw, isData, key);
  }

  /** What a lookup in a coherent state returns: for a read, exactly what the slow path gives, and
      the slow path's exception if it fails; for a write, the slow path's result unless the page is
      clean and cached, and then the address a read gives. */
  lemma LookupTransparent(c: Core, va: uword, rw: Access, isData: bool)
    requires Coherent(c)
    ensures
      var (c', found) := LookupAddress(c, va, rw, isData);
      && (rw.Read? ==> found == Exact(c, va, Read))
      && (rw.Write? ==> (found == Exact(c, va, Write) <==>
            !(CacheOf(c, isData).Has(PageBase(va)) && Translate(c.cop0, c.tlb, va, Write) == Fault(TLB_MODIFIED))))
      && (found.Some? ==> found == Exact(c, va, Read))
      && (found.None? ==>
            && Translate(c.cop0, c.tlb, va, rw).Fault?
            && c' == Raise(RecordAddress(c, PageBase(va)), Translate(c.cop0, c.tlb, va, rw).code))
  {
    JoinOffset(c, va, Read);
    JoinOffset(c, va, Write);
    WriteAgainstRead(c.cop0, c.tlb, va);
    WriteAgainstRead(c.cop0, c.tlb, PageBase(va));
  }

  /** A cached page, after a hit or an insertion. */
  lemma CacheAgrees(c: Core, l: Cache, key: uword, value: nat)
    requires Wellformed(c.tlb) && Paged(l) && Agrees(c, l) && key % 0x1000 == 0
    requires l.Has(key) || Translate(c.cop0, c.tlb, key, Read) == Physical(value)
    ensures
      var l' := if l.Has(key) then Get(l, key) else Insert(l, CACHE_SIZE, key, value);
      Paged(l') && Agrees(c, l')
  {
    if l.Has(key) {
      GetKeeps(l, key);
    } else {
      InsertKeeps(l, CACHE_SIZE, key, value);
    }
  }

  /** Agreement depends on the operating context, the error level, the ASID and the TLB only. KSU may
      change under EXL, and EXL in kernel mode. */
  predicate SameContext(c: Cop0, d: Cop0)
  {
    c.Context() == d.Context() && c.erl == d.erl && c.asid == d.asid
  }

  lemma ContextDecides(c: Cop0, d: Cop0, es: seq<TlbEntry>, va: uword, rw: Access)
    requires Wellformed(es) && SameContext(c, d)
    ensures Translate(c, es, va, rw) == Translate(d, es, va, rw)
  {
  }

  lemma HitCoherent(c: Core, key: uword, isData: bool)
    requires Coherent(c) && CacheOf(c, isData).Has(key) && key % 0x1000 == 0
    ensures Coherent(WithCache(c, isData, Get(CacheOf(c, isData), key)))
  {
    CacheAgrees(c, CacheOf(c, isData), key, 0);
  }

  lemma MissCoherent(c: Core, key: uword, isData: bool, value: nat)
    requires Coherent(c) && !CacheOf(c, isData).Has(key) && key % 0x1000 == 0
    requires Translate(c.cop0, c.tlb, key, Read) == Physical(value)
    ensures Coherent(WithCache(c, isData, Insert(CacheOf(c, isData), CACHE_SIZE, key, value)))
  {
    CacheAgrees(c, CacheOf(c, isData), key, value);
  }

  lemma FaultCoherent(c: Core, va: uword, code: nat)
    requires Coherent(c) && code != RESET && code != NMI
    ensures Coherent(Raise(RecordAddress(c, va), code))
  {
    RaiseContext(RecordAddress(c, va), code);
  }

  lemma LookupCoherent(c: Core, va: uword, rw: Access, isData: bool)
    requires Coherent(c)
    ensures Coherent(LookupAddress(c, va, rw, isData).0)
  {
    var (l, key) := (CacheOf(c, isData), PageBase(va));
    var r := Translate(c.cop0, c.tlb, key, rw);
    PageBaseIsMask(va);
    if l.Has(key) {
      HitCoherent(c, key, isData);
      assert LookupPage(c, va, rw, isData).0 == WithCache(c, isData, Get(l, key));
    } else if r.Physical? {
      WriteAgainstRead(c.cop0, c.tlb, key);
      MissCoherent(c, key, isData, r.address);
      assert LookupPage(c, va, rw, isData).0 == WithCache(c, isData, Insert(l, CACHE_SIZE, key, r.address));
    } else {
      FaultCoherent(c, key, r.code);
      assert LookupPage(c, va, rw, isData).0 == Raise(RecordAddress(c, key), r.code);
    }
  }

  /** A cache holds six pages: a page that is read and not cached joins up to five others, and replaces
      one of six. */
  lemma CacheHoldsSix(c: Core, va: uword, isData: bool)
    requires Coherent(c) && !CacheOf(c, isData).Has(PageBase(va))
    requires Translate(c.cop0, c.tlb, PageBase(va), Read).Physical?
    ensures
      var (n, l') := (|CacheOf(c, isData).entries|, CacheOf(LookupAddress(c, va, Read, isData).0, isData));
      n <= 6 && |l'.entries| == (if n < 6 then n + 1 else 6) && l'.Has(PageBase(va))
  {
    PageBaseIsMask(va);
    var key := PageBase(va);
    InsertKeeps(CacheOf(c, isData), CACHE_SIZE, key, Translate(c.cop0, c.tlb, key, Read).address);
  }

  // ---------------------------------------------------------------- runs

  /** Loads, stores and fetches look addresses up; the rest is what other instructions do. */
  datatype Step =
    | Load(va: uword) | Store(va: uword) | Fetch(va: uword)
    | Exception(code: nat)
    | Return
    | WriteTlb(entry: TlbEntry, index: nat)
    | WriteCop0(cop0: Cop0)
    | Execute(pc: uword, slots: nat, branch: uword)

  /** Reset and NMI are not part of a run, nor are writes of Status and EntryHi that change the
      context or the ASID: no cache is flushed then. */
  predicate Enabled(c: Core, s: Step)
  {
    match s
    case Exception(code) => code != RESET && code != NMI
    case WriteTlb(entry, index) => entry.Valid() && index < ENTRIES
    case WriteCop0(cop0) => SameContext(c.cop0, cop0)
    case _ => true
  }

  function Next(c: Core, s: Step): Core
    requires Wellformed(c.tlb) && Enabled(c, s)
  {
    match s
    case Load(va) => LookupAddress(c, va, Read, true).0
    case Store(va) => LookupAddress(c, va, Write, true).0
    case Fetch(va) => LookupAddress(c, va, Read, false).0
    case Exception(code) => Raise(c, code)
    case Return => Eret(c)
    case WriteTlb(entry, index) => c.(tlb := c.tlb[index := entry], data := EMPTY, inst := EMPTY)
    case WriteCop0(cop0) => c.(cop0 := cop0)
    case Execute(pc, slots, branch) => c.(pc := pc, slots := slots, branch := branch)
  }

  lemma NextCoherent(c: Core, s: Step)
    requires Coherent(c) && Enabled(c, s)
    ensures Coherent(Next(c, s))
  {
    match s
    case Load(va) => LookupCoherent(c, va, Read, true);
    case Store(va) => LookupCoherent(c, va, Write, true);
    case Fetch(va) => LookupCoherent(c, va, Read, false);
    case Exception(code) => RaiseContext(c, code);
    case WriteCop0(cop0) =>
      forall k: uword
        ensures Translate(cop0, c.tlb, k, Read) == Translate(c.cop0, c.tlb, k, Read)
      {
        ContextDecides(cop0, c.cop0, c.tlb, k, Read);
      }
    case _ =>
  }

  ghost predicate IsRun(run: seq<Core>, steps: seq<Step>)
  {
    && |run| == |steps| + 1 && Wellformed(run[0].tlb) && run[0].data == EMPTY && run[0].inst == EMPTY
    && forall i :: 0 <= i < |steps| ==>
         Wellformed(run[i].tlb) && Enabled(run[i], steps[i]) && run[i + 1] == Next(run[i], steps[i])
  }

  lemma {:induction false} RunCoherent(run: seq<Core>, steps: seq<Step>)
    requires IsRun(run, steps)
    ensures Coherent(run[|steps|])
    decreases |steps|
  {
    if steps == [] {
    } else {
      var n := |steps| - 1;
      RunCoherent(run[..n + 1], steps[..n]);
      NextCoherent(run[n], steps[n]);
    }
  }

  /** Transparency over whole runs: whatever was looked up, evicted, flushed and rewritten before,
      a load or a fetch gives exactly what the slow path gives now, a store does unless its page is
      clean and cached, and every address given is that of a read. */
  lemma CachedTranslationIsExact(run: seq<Core>, steps: seq<Step>, va: uword)
    requires IsRun(run, steps)
    ensures
      var c := run[|steps|];
      && Coherent(c)
      && LookupAddress(c, va, Read, true).1 == LookupAddress(c, va, Read, false).1 == Exact(c, va, Read)
      && (LookupAddress(c, va, Write, true).1 == Exact(c, va, Write) <==>
            !(c.data.Has(PageBase(va)) && Translate(c.cop0, c.tlb, va, Write) == Fault(TLB_MODIFIED)))
      && (LookupAddress(c, va, Write, true).1.Some? ==> LookupAddress(c, va, Write, true).1 == Exact(c, va, Read))
  {
    var c := run[|steps|];
    RunCoherent(run, steps);
    LookupTransparent(c, va, Read, true);
    LookupTransparent(c, va, Read, false);
    LookupTransparent(c, va, Write, true);
  }

  // ---------------------------------------------------------------- where transparency ends

  lemma AgreedRead(c: Core, va: uword, isData: bool)
    requires Wellformed(c.tlb)
    ensures Agrees(c, CacheOf(c, isData)) ==> LookupAddress(c, va, Read, isData).1 == Exact(c, va, Read)
  {
    JoinOffset(c, va, Read);
  }

  /** A hit at the start of a page gives the cached address. */
  lemma HitGives(c: Core, k: uword, isData: bool)
    requires Wellformed(c.tlb) && Paged(CacheOf(c, isData)) && CacheOf(c, isData).Has(k)
    ensures LookupAddress(c, k, Read, isData).1 == Some(CacheOf(c, isData).Value(k))
  {
    var l := CacheOf(c, isData);
    IndexOfKey(l.entries, k);
    assert PageBase(k) == k && k % 0x1000 == 0;
    Low12(k);
    assert Or(l.Value(k), 0) == l.Value(k);
  }

  /** In any state, reads through a cache are exact if and only if every page in it agrees with the
      slow path: the condition for not flushing it when Status, EntryHi or the TLB changes. */
  lemma ReadsExactIffAgrees(c: Core, isData: bool)
    requires Wellformed(c.tlb) && Paged(CacheOf(c, isData))
    ensures (forall va: uword :: LookupAddress(c, va, Read, isData).1 == Exact(c, va, Read))
              <==> Agrees(c, CacheOf(c, isData))
  {
    var l := CacheOf(c, isData);
    forall va: uword
      ensures Agrees(c, l) ==> LookupAddress(c, va, Read, isData).1 == Exact(c, va, Read)
    {
      AgreedRead(c, va, isData);
    }
    forall k: uword | l.Has(k) && LookupAddress(c, k, Read, isData).1 == Exact(c, k, Read)
      ensures Translate(c.cop0, c.tlb, k, Read) == Physical(l.Value(k))
    {
      HitGives(c, k, isData);
    }
  }

  /** A page that only the process with the current ASID may use. */
  predicate ByNonGlobalEntry(c: Core, va: uword)
    requires Wellformed(c.tlb)
  {
    FindFirst(c.tlb, va);
    Segment(c.cop0, va, Read).None? && Find(c.tlb, va) != -1 && !c.tlb[Find(c.tlb, va)].g
  }

  function WithAsid(c: Core, asid: nat): Core { c.(cop0 := c.cop0.(asid := asid)) }

  /** With another ASID an address translates as before unless a non-global entry translates it. */
  lemma AsidDecides(c: Core, asid: nat, va: uword)
    requires Wellformed(c.tlb) && asid != c.cop0.asid && Translate(c.cop0, c.tlb, va, Read).Physical?
    ensures
      Translate(c.cop0.(asid := asid), c.tlb, va, Read)
        == if ByNonGlobalEntry(c, va) then Fault(REFILL_LOAD) else Translate(c.cop0, c.tlb, va, Read)
  {
    FindFirst(c.tlb, va);
  }

  /** A new ASID needs no flush exactly if no cached page is translated by a non-global entry. */
  lemma AsidWriteExactly(c: Core, asid: nat, isData: bool)
    requires Coherent(c) && asid != c.cop0.asid
    ensures
      (forall va: uword :: LookupAddress(WithAsid(c, asid), va, Read, isData).1 == Exact(WithAsid(c, asid), va, Read))
        <==> forall k: uword :: CacheOf(c, isData).Has(k) ==> !ByNonGlobalEntry(c, k)
  {
    var (d, l) := (WithAsid(c, asid), CacheOf(c, isData));
    ReadsExactIffAgrees(d, isData);
    forall k: uword | l.Has(k)
      ensures Translate(d.cop0, d.tlb, k, Read) == Physical(l.Value(k)) <==> !ByNonGlobalEntry(c, k)
    {
      AsidDecides(c, asid, k);
    }
  }

  /** The physical address of an unmapped segment when the error level is set. */
  function Unmapped(va: uword): Option<nat>
  {
    if va <= 0x7FFF_FFFF then Some(va)
    else if va <= 0x9FFF_FFFF then Some(va - 0x8000_0000)
    else if va <= 0xBFFF_FFFF then Some(va - 0xA000_0000)
    else None
  }

  /** With the error level set, an address translates as its unmapped segment has it, or as before. */
  lemma AfterReset(c: Core, d: Cop0, va: uword)
    requires Wellformed(c.tlb) && d.erl && d.asid == c.cop0.asid && Translate(c.cop0, c.tlb, va, Read).Physical?
    ensures
      Translate(d, c.tlb, va, Read)
        == if Unmapped(va).Some? then Physical(Unmapped(va).value) else Translate(c.cop0, c.tlb, va, Read)
  {
  }

  /** Reset and NMI, which do not flush, leave reads exact exactly if every cached page of a segment
      that is unmapped at the error level maps to that segment's address: pages up to 0x7FFFFFFF to
      themselves. */
  lemma ResetExactly(c: Core, code: nat, isData: bool)
    requires Coherent(c) && (code == RESET || code == NMI)
    ensures
      (forall va: uword :: LookupAddress(Raise(c, code), va, Read, isData).1 == Exact(Raise(c, code), va, Read))
        <==> forall k: uword ::
               CacheOf(c, isData).Has(k) && Unmapped(k).Some? ==> CacheOf(c, isData).Value(k) == Unmapped(k).value
  {
    var (d, l) := (Raise(c, code), CacheOf(c, isData));
    RaiseContext(c, code);
    ReadsExactIffAgrees(d, isData);
    forall k: uword | l.Has(k)
      ensures Translate(d.cop0, d.tlb, k, Read) == Physical(l.Value(k))
              <==> (Unmapped(k).Some? ==> l.Value(k) == Unmapped(k).value)
    {
      AfterReset(c, d.cop0, k);
    }
  }

  // ---------------------------------------------------------------- writes of COP0 registers

  function WithCop0(c: Core, d: Cop0): Core { c.(cop0 := d) }

  /** The TLB alone gives this address for a read. */
  predicate TlbGives(d: Cop0, es: seq<TlbEntry>, va: uword, address: nat)
    requires Wellformed(es)
  {
    FindFirst(es, va);
    Find(es, va) != -1 && ByEntry(d, es[Find(es, va)], va, Read) == Physical(address)
  }

  /** A cached page survives a write of Status or EntryHi: it lies in an unmapped segment that gives
      the same address; or it is mapped now, and then either it was mapped before and its entry is
      global or the ASID the same, or it was not and the TLB gives the same address. */
  predicate Survives(c: Core, d: Cop0, k: uword, address: nat)
    requires Wellformed(c.tlb)
  {
    var segment := Segment(d, k, Read);
    if segment.Some? then segment.value == Physical(address)
    else if Segment(c.cop0, k, Read).None? then d.asid == c.cop0.asid || !ByNonGlobalEntry(c, k)
    else TlbGives(d, c.tlb, k, address)
  }

  lemma SurvivesExactly(c: Core, d: Cop0, k: uword, address: nat)
    requires Wellformed(c.tlb) && Translate(c.cop0, c.tlb, k, Read) == Physical(address)
    ensures Translate(d, c.tlb, k, Read) == Physical(address) <==> Survives(c, d, k, address)
  {
    FindFirst(c.tlb, k);
  }

  /** Whatever is written to Status and EntryHi, no flush is needed exactly if every cached page
      survives. */
  lemma Cop0WriteExactly(c: Core, d: Cop0, isData: bool)
    requires Coherent(c)
    ensures
      (forall va: uword :: LookupAddress(WithCop0(c, d), va, Read, isData).1 == Exact(WithCop0(c, d), va, Read))
        <==> forall k: uword :: CacheOf(c, isData).Has(k) ==> Survives(c, d, k, CacheOf(c, isData).Value(k))
  {
    var l := CacheOf(c, isData);
    ReadsExactIffAgrees(WithCop0(c, d), isData);
    forall k: uword | l.Has(k)
      ensures Translate(d, c.tlb, k, Read) == Physical(l.Value(k)) <==> Survives(c, d, k, l.Value(k))
    {
      SurvivesExactly(c, d, k, l.Value(k));
    }
  }

  /** Going from kernel to user context with the error level clear throughout needs no flush exactly
      if no page above 0x7FFFFFFF is cached. */
  lemma EnterUserExactly(c: Core, d: Cop0, isData: bool)
    requires Coherent(c) && c.cop0.Context().KernelMode? && !c.cop0.erl
    requires d.Context().UserMode? && d.asid == c.cop0.asid
    ensures
      (forall va: uword :: LookupAddress(WithCop0(c, d), va, Read, isData).1 == Exact(WithCop0(c, d), va, Read))
        <==> forall k: uword :: CacheOf(c, isData).Has(k) ==> k <= 0x7FFF_FFFF
  {
    Cop0WriteExactly(c, d, isData);
  }

  /** Clearing the error level, as after a Reset, needs no flush exactly if the TLB maps every cached
      page up to 0x7FFFFFFF to itself. */
  lemma ClearErlExactly(c: Core, d: Cop0, isData: bool)
    requires Coherent(c) && c.cop0.erl && d.Context().KernelMode? && !d.erl && d.asid == c.cop0.asid
    ensures
      (forall va: uword :: LookupAddress(WithCop0(c, d), va, Read, isData).1 == Exact(WithCop0(c, d), va, Read))
        <==> forall k: uword :: CacheOf(c, isData).Has(k) && k <= 0x7FFF_FFFF ==> TlbGives(d, c.tlb, k, k)
  {
    var l := CacheOf(c, isData);
    Cop0WriteExactly(c, d, isData);
    forall k: uword | l.Has(k)
      ensures Survives(c, d, k, l.Value(k)) <==> (k <= 0x7FFF_FFFF ==> TlbGives(d, c.tlb, k, k))
    {
      assert Translate(c.cop0, c.tlb, k, Read) == Physical(l.Value(k));
    }
  }

  /** A store to a clean page raises no exception once the page has been read. */
  lemma ReadHidesCleanPage(c: Core, va: uword)
    requires Coherent(c) && Translate(c.cop0, c.tlb, va, Write) == Fault(TLB_MODIFIED)
    ensures
      var c' := LookupAddress(c, va, Read, true).0;
      && Translate(c'.cop0, c'.tlb, va, Write) == Fault(TLB_MODIFIED)
      && LookupAddress(c', va, Write, true).1 == Exact(c, va, Read) && Exact(c, va, Read).Some?
  {
    LookupTransparent(c, va, Read, true);
    WriteAgainstRead(c.cop0, c.tlb, va);
    JoinOffset(c, va, Read);
    var (l, key) := (c.data, PageBase(va));
    var r := Translate(c.cop0, c.tlb, key, Read);
    PageBaseIsMask(va);
    if l.Has(key) {
      GetKeeps(l, key);
    } else {
      InsertKeeps(l, CACHE_SIZE, key, r.address);
    }
  }

  /** A TLB that maps the first two pages as clean pages of one process. */
  function CleanTlb(): (es: seq<TlbEntry>)
    ensures |es| == ENTRIES
  {
    var page := Page(1, false, true);
    seq(ENTRIES, i => TlbEntry(Mask(0, 0x1000, 0xFFFF_E000), 0, false, 1, false, page, page))
  }

  const USER_COP0 := Cop0(UserMode, false, false, false, false, 1, 0, 0, 0, 47, 0, 0, false, false, 0, 0)

  /** An entry that is probed first translates whatever it matches. */
  lemma FirstEntry(c: Cop0, es: seq<TlbEntry>, va: uword, rw: Access)
    requires Wellformed(es) && Segment(c, va, rw).None? && IsMatch(es[0], va)
    ensures Translate(c, es, va, rw) == ByEntry(c, es[0], va, rw)
  {
    ProbeStep(Matches(es, va), 0, 0);
  }

  lemma CleanEntryValid()
    ensures CleanTlb()[0].Valid()
  {
    MaskValues(0);
  }

  lemma OrZero(x: nat)
    ensures Or(x, 0) == x
  {
  }

  lemma CleanEntryMaps(e: TlbEntry, c: Cop0, rw: Access)
    requires e.vpn2 == 0 && !e.s && !e.g && e.even == Page(1, false, true) && e.asid == 1
    ensures IsMatch(e, 0)
    ensures ByEntry(c, e, 0, rw)
         == if c.asid != 1 then Fault(if rw.Read? then REFILL_LOAD else REFILL_STORE)
            else if rw.Read? then Physical(0x1000) else Fault(TLB_MODIFIED)
  {
    assert And(0, e.mask.tlb) == 0 && And(0, e.mask.evenodd) == 0 && And(0, e.mask.Offset()) == 0;
    OrZero(0x1000);
  }

  lemma CleanTlbMaps()
    ensures Wellformed(CleanTlb())
    ensures Translate(USER_COP0, CleanTlb(), 0, Read) == Physical(0x1000)
    ensures Translate(USER_COP0, CleanTlb(), 0, Write) == Fault(TLB_MODIFIED)
  {
    var es := CleanTlb();
    CleanEntryValid();
    assert forall i :: 0 <= i < |es| ==> es[i] == es[0];
    CleanEntryMaps(es[0], USER_COP0, Read);
    CleanEntryMaps(es[0], USER_COP0, Write);
    FirstEntry(USER_COP0, es, 0, Read);
    FirstEntry(USER_COP0, es, 0, Write);
  }

  lemma FirstRead(c: Core, page: nat)
    requires Coherent(c) && c.data == EMPTY && Translate(c.cop0, c.tlb, 0, Read) == Physical(page)
    ensures
      var c' := LookupAddress(c, 0, Read, true).0;
      c' == c.(data := c'.data) && c'.data.Has(0) && c'.data.Value(0) == page
  {
    assert PageBase(0) == 0;
    InsertKeeps(EMPTY, CACHE_SIZE, 0, page);
  }

  lemma StaleHit(c: Core, page: nat)
    requires Wellformed(c.tlb) && c.data.Has(0) && c.data.Value(0) == page
    ensures LookupAddress(c, 0, Read, true).1 == Some(page)
  {
    assert PageBase(0) == 0 && And(0, 0xFFF) == 0;
    OrZero(page);
  }

  lemma OtherAsid()
    requires Wellformed(CleanTlb())
    ensures Translate(USER_COP0.(asid := 2), CleanTlb(), 0, Read) == Fault(REFILL_LOAD)
  {
    CleanEntryMaps(CleanTlb()[0], USER_COP0.(asid := 2), Read);
    FirstEntry(USER_COP0.(asid := 2), CleanTlb(), 0, Read);
  }

  lemma StaleAfterAsid(c: Core)
    requires c.cop0 == USER_COP0 && c.tlb == CleanTlb() && Wellformed(c.tlb)
    requires c.data.Has(0) && c.data.Value(0) == 0x1000
    ensures LookupAddress(WithAsid(c, 2), 0, Read, true).1 != Exact(WithAsid(c, 2), 0, Read)
  {
    StaleHit(WithAsid(c, 2), 0x1000);
    OtherAsid();
  }

  lemma StaleAfterReset(c: Core)
    requires c.tlb == CleanTlb() && Wellformed(c.tlb) && c.data.Has(0) && c.data.Value(0) == 0x1000
    ensures LookupAddress(Raise(c, RESET), 0, Read, true).1 != Exact(Raise(c, RESET), 0, Read)
  {
    StaleHit(Raise(c, RESET), 0x1000);
    assert Segment(Raise(c, RESET).cop0, 0, Read) == Some(Physical(0));
  }

  /** Such states exist; and there a change of the ASID, or a Reset, leaves a page in the cache that
      the slow path no longer gives. */
  lemma StaleWithoutFlush() returns (c: Core, va: uword)
    ensures Coherent(c) && Translate(c.cop0, c.tlb, va, Write) == Fault(TLB_MODIFIED)
    ensures
      var read := LookupAddress(c, va, Read, true).0;
      && LookupAddress(WithAsid(read, 2), va, Read, true).1 != Exact(WithAsid(read, 2), va, Read)
      && LookupAddress(Raise(read, RESET), va, Read, true).1 != Exact(Raise(read, RESET), va, Read)
  {
    c, va := Core(USER_COP0, CleanTlb(), 0, 0, 0, EMPTY, EMPTY), 0;
    CleanTlbMaps();
    FirstRead(c, 0x1000);
    StaleAfterAsid(LookupAddress(c, va, Read, true).0);
    StaleAfterReset(LookupAddress(c, va, Read, true).0);
  }

  /** Pages cached with the error level set, as after a Reset, are stale once a write of Status has
      cleared it: the cache still gives address 0, and the TLB maps it to 0x1000. */
  lemma StaleAfterStatusWrite() returns (c: Core, va: uword)
    ensures Coherent(c) && c.cop0.erl && c.data == EMPTY && c.inst == EMPTY
    ensures
      var read := LookupAddress(c, va, Read, true).0;
      var written := WithCop0(read, c.cop0.(erl := false));
      && LookupAddress(written, va, Read, true).1 == Some(0) && Exact(written, va, Read) == Some(0x1000)
  {
    c, va := Core(USER_COP0.(erl := true), CleanTlb(), 0, 0, 0, EMPTY, EMPTY), 0;
    CleanTlbMaps();
    FirstRead(c, 0);
    StaleHit(WithCop0(LookupAddress(c, va, Read, true).0, USER_COP0), 0);
  }
}
