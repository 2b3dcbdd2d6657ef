/** The EE Core's address translation and exception handling, updated in place. */
module EeCore {
  import opened Wrappers
  import opened Words
  import opened Bits
  import opened Tlb
  import opened Translation
  import opened LruCache
  import opened EeCoreSpec

  /** A translation cache; flushing replaces the LRU cache by a new one. */
  class TranslationCache {
    var cache: TimestampLruCache<uword, nat>

    ghost predicate Valid()
      reads this, cache
    {
      cache.Valid() && cache.cache.Length == CACHE_SIZE
    }

    ghost function View(): Cache
      reads this, cache, cache.cache
      requires Valid()
    {
      cache.View()
    }

    constructor ()
      ensures Valid() && fresh(cache) && fresh(cache.cache) && View() == EMPTY
    {
      cache := new TimestampLruCache<uword, nat>(CACHE_SIZE, Entry(0, 0, 0));
    }

    method Flush()
      modifies this
      ensures Valid() && fresh(cache) && fresh(cache.cache) && View() == EMPTY
    {
      cache := new TimestampLruCache<uword, nat>(CACHE_SIZE, Entry(0, 0, 0));
    }
  }

  class EeCore {
    var cop0: Cop0
    var pc: uword
    var slots: nat
    var branch: uword
    const tlb: EeCoreTlb
    const data: TranslationCache
    const inst: TranslationCache

    constructor (entry: TlbEntry, cop0: Cop0, pc: uword)
      requires entry.Valid()
      ensures Valid() && View() == Core(cop0, seq(ENTRIES, i => entry), pc, 0, 0, EMPTY, EMPTY)
    {
      this.cop0, this.pc, slots, branch := cop0, pc, 0, 0;
      tlb := new EeCoreTlb(entry);
      data := new TranslationCache();
      inst := new TranslationCache();
    }

    ghost predicate Valid()
      reads this, tlb, tlb.tlbEntries, data, data.cache, data.cache.cache, inst, inst.cache, inst.cache.cache
    {
      && data.Valid() && inst.Valid() && tlb.Valid() && Wellformed(tlb.tlbEntries[..])
      && data != inst && data.cache != inst.cache && data.cache.cache != inst.cache.cache
    }

    ghost function View(): Core
      reads this, tlb, tlb.tlbEntries, data, data.cache, data.cache.cache, inst, inst.cache, inst.cache.cache
      requires Valid()
    {
      Core(cop0, tlb.tlbEntries[..], pc, slots, branch, data.View(), inst.View())
    }

    /** Sets the (Error)EPC and BD fields, and cancels a pending branch. */
    method SetErrorAddress(level2: bool)
      requires Valid()
      modifies this
      ensures Valid() && View() == EeCoreSpec.SetErrorAddress(old(View()), level2)
    {
      var pending := slots > 0;
      var address := pc;
      if pending {
        address := Wrap(pc - 4);
        slots := 0;
      }
      if level2 {
        cop0 := cop0.(errorepc := address, bd2 := pending);
      } else {
        cop0 := cop0.(epc := address, bd := pending);
      }
    }

    method FlushCaches()
      requires Valid()
      modifies data, inst
      ensures Valid() && View() == old(View()).(data := EMPTY, inst := EMPTY)
      ensures fresh(data.cache) && fresh(data.cache.cache) && fresh(inst.cache) && fresh(inst.cache.cache)
    {
      data.Flush();
      inst.Flush();
    }

    /** Sets the error level and the exception code. */
    method RecordCause(level2: bool, code: nat)
      requires Valid() && level2 == (code >= 100)
      modifies `cop0
      ensures Valid() && View() == EeCoreSpec.RecordCause(old(View()), code)
    {
      if level2 {
        cop0 := cop0.(erl := true, exc2 := code - 100);
      } else {
        cop0 := cop0.(erl := false, exccode := code);
      }
    }

    /** Enters the handler of an exception other than Reset and NMI. */
    method EnterHandler(code: nat)
      requires Valid() && code != RESET && code != NMI
      modifies this, data, inst
      ensures Valid() && View() == EeCoreSpec.EnterHandler(old(View()), code)
    {
      var vectorBase := if cop0.dev || cop0.bev then 0xBFC0_0200 else 0x8000_0000;
      var vectorOffset := 0x180;
      if !cop0.exl {
        SetErrorAddress(code >= 100);
        cop0 := cop0.(exl := true);
        vectorOffset := VectorOffset(code);
      }
      pc := vectorBase + vectorOffset;
      if code != INTERRUPT {
        pc := Wrap(pc - 4);
      }
      FlushCaches();
    }

    method HandleException(code: nat)
      requires Valid()
      modifies this, data, inst
      ensures Valid() && View() == Raise(old(View()), code)
    {
      var level2 := code >= 100;
      RecordCause(level2, code);
      if code == RESET || code == NMI {
        SetErrorAddress(level2);
        pc := 0xBFC0_0000;
        return;
      }
      EnterHandler(code);
    }

    method ReturnFromException()
      requires Valid()
      modifies this, data, inst
      ensures Valid() && View() == Eret(old(View()))
    {
      if cop0.erl {
        pc := Wrap(cop0.errorepc - 4);
        cop0 := cop0.(erl := false);
      } else {
        pc := Wrap(cop0.epc - 4);
        cop0 := cop0.(exl := false);
      }
      FlushCaches();
    }

    /** TLBWI and TLBWR: writes an entry with the given page mask and flushes both translation caches.
        Fails, before anything is written, if the page mask is not valid. */
    method WriteTlbEntry(pagemask: nat, fields: TlbEntry, index: nat) returns (ok: bool)
      requires Valid() && pagemask <= 0xFFF && index < ENTRIES
      requires fields.vpn2 < 0x8_0000 && fields.even.pfn < 0x10_0000 && fields.odd.pfn < 0x10_0000
      modifies tlb.tlbEntries, data, inst
      ensures Valid() && ok == MakeMask(pagemask).Some?
      ensures View() == if ok then Next(old(View()), WriteTlb(fields.(mask := MakeMask(pagemask).value), index))
                        else old(View())
    {
      var mask := MakeMask(pagemask);
      if mask.None? {
        return false;
      }
      tlb.SetTlbEntryAt(fields.(mask := mask.value), index);
      FlushCaches();
      ok := true;
    }

    /** Records a failing address and raises its exception. */
    method HandleMmuError(va: uword, code: nat)
      requires Valid()
      modifies this, data, inst
      ensures Valid() && View() == Raise(RecordAddress(old(View()), va), code)
    {
      cop0 := cop0.(badvaddr := va, badvpn2 := va / 0x2000, vpn2 := va / 0x2000, random := 47);
      HandleException(code);
    }

    method TranslateAddressFallback(va: uword, rw: Access) returns (address: Option<nat>)
      requires Valid()
      modifies this, data, inst
      ensures Valid() && (View(), address) == Fallback(old(View()), va, rw)
      ensures address.Some? ==> View() == old(View()) && data.cache == old(data.cache) && inst.cache == old(inst.cache)
    {
      var result := Walk(va, rw);
      if result.Fault? {
        HandleMmuError(va, result.code);
        return None;
      }
      address := Some(result.address);
    }

    /** The checks of the slow path, in order. */
    method Walk(va: uword, rw: Access) returns (result: Result)
      requires Valid()
      ensures result == Translate(cop0, tlb.tlbEntries[..], va, rw)
    {
      var segment := Segment(cop0, va, rw);
      if segment.Some? {
        return segment.value;
      }
      var index := tlb.FindTlbEntryIndex(va);
      FindFirst(tlb.tlbEntries[..], va);
      if index == -1 {
        return Fault(if rw.Read? then REFILL_LOAD else REFILL_STORE);
      }
      var entry := tlb.tlbEntries[index];
      assert entry == tlb.tlbEntries[..][index];
      result := CheckEntry(entry, va, rw);
    }

    method CheckEntry(entry: TlbEntry, va: uword, rw: Access) returns (result: Result)
      ensures result == ByEntry(cop0, entry, va, rw)
    {
      var refill := Fault(if rw.Read? then REFILL_LOAD else REFILL_STORE);
      if !entry.g {
        if cop0.asid != entry.asid {
          return refill;
        }
      }
      var page := if And(va, entry.mask.evenodd) != 0 then entry.odd else entry.even;
      if !page.v {
        return refill;
      }
      if !page.d && rw.Write? {
        return Fault(TLB_MODIFIED);
      }
      if entry.s {
        return Physical(0x7000_0000 + And(va, 0x3FFF));
      }
      var offsetMask := Or(entry.mask.pagemask * 0x1000, 0xFFF);
      result := Physical(Or(page.pfn * 0x1000, And(va, offsetMask)));
    }

    /** A lookup through one of the translation caches. */
    method Lookup(tc: TranslationCache, va: uword, rw: Access) returns (result: Option<nat>)
      requires Valid() && (tc == data || tc == inst)
      modifies this, data, inst, tc.cache, tc.cache.cache
      ensures Valid() && (View(), result) == LookupAddress(old(View()), va, rw, tc == data)
    {
      var key := PageBase(va);
      result := tc.cache.GetEntry(key);
      if result.None? {
        assert View() == old(View());
        result := HandleFallback(tc, key, rw);
      }
      if result.Some? {
        result := Some(Or(result.value, And(va, 0xFFF)));
      }
    }

    /** Translates a page by the slow path, and caches it if that succeeds. */
    method HandleFallback(tc: TranslationCache, key: uword, rw: Access) returns (result: Option<nat>)
      requires Valid() && (tc == data || tc == inst) && !CacheOf(View(), tc == data).Has(key)
      requires PageBase(key) == key
      modifies this, data, inst, tc.cache, tc.cache.cache
      ensures Valid() && (View(), result) == LookupPage(old(View()), key, rw, tc == data)
    {
      result := TranslateAddressFallback(key, rw);
      if result.Some? {
        tc.cache.InsertEntry(key, result.value);
      }
    }

    method TranslateAddressData(va: uword, rw: Access) returns (result: Option<nat>)
      requires Valid()
      modifies this, data, inst, data.cache, data.cache.cache
      ensures Valid() && (View(), result) == LookupAddress(old(View()), va, rw, true)
    {
      result := Lookup(data, va, rw);
    }

    method TranslateAddressInst(va: uword) returns (result: Option<nat>)
      requires Valid()
      modifies this, data, inst, inst.cache, inst.cache.cache
      ensures Valid() && (View(), result) == LookupAddress(old(View()), va, Read, false)
    {
      result := Lookup(inst, va, Read);
    }
  }
}
