/** An EE timer unit as a value: one tick, and what whole runs of ticks amount to. */
module TimersSpec {
  import opened Wrappers
  import opened Words
  import opened Bits

  /** The event a timer can follow: bus clock ticks or horizontal blanks. */
  datatype Source = Clock | HBlank

  /** The fields of the MODE register that a tick uses. */
  datatype Mode = Mode(clks: nat, gate: bool, gats: bool, zret: bool, cue: bool, cmpe: bool, ovfe: bool) {
    predicate Valid() { clks < 4 }

    function Prescale(): nat { match clks case 1 => 16 case 2 => 256 case _ => 1 }

    function Follows(): Source { if clks == 3 then HBlank else Clock }

    /** Clock source and gate are both the horizontal blank: the unit counts as if not gated. */
    predicate GateHblankSpecial() { clks == 3 && !gats }
  }

  datatype Unit = Unit(count: uword, overflowed: bool, target: nat, prescaled: nat, mode: Mode, latch: bool,
                       compare: uword)
  {
    predicate Valid() { mode.Valid() && target > 0 }
  }

  const LIMIT := 0xFFFF

  /** COUNT after value more prescaler steps. A count above the limit wraps modulo the limit, so
      that 65536 becomes 1. */
  function Incremented(u: Unit, value: nat): Unit
    requires u.Valid()
  {
    var total := u.prescaled + value;
    if total < u.target then u.(prescaled := total)
    else
      var count := Wrap(u.count + total / u.target);
      u.(count := if count > LIMIT then count % LIMIT else count, overflowed := u.overflowed || count > LIMIT,
         prescaled := total % u.target)
  }

  function ResetPrescale(u: Unit, target: nat): Unit
  {
    u.(count := 0, target := target, prescaled := 0)
  }

  function Unlatched(u: Unit): Unit
  {
    if u.latch then ResetPrescale(u, u.mode.Prescale()).(latch := false) else u
  }

  /** The unit after the interrupt check, and whether it raises the interrupt. */
  function CheckInterrupt(u: Unit): (Unit, bool)
  {
    (if u.mode.ovfe then u.(overflowed := false) else u,
     (u.mode.cmpe && u.count == u.compare) || (u.mode.ovfe && u.overflowed))
  }

  function ZeroReturn(u: Unit): Unit
  {
    if u.mode.zret && u.count == u.compare then u.(count := 0) else u
  }

  predicate Counts(u: Unit, source: Source) { u.mode.cue && u.mode.Follows() == source }

  /** An active gate, which the code does not implement and throws on. */
  predicate Gated(u: Unit) { u.mode.gate && !u.mode.GateHblankSpecial() }

  /** One event at one unit: the unit after it and whether it raises the interrupt, or none if the
      code throws. */
  function Tick(u: Unit, source: Source): Option<(Unit, bool)>
    requires u.Valid()
  {
    var u1 := Unlatched(u);
    if !Counts(u, source) then Some((u1, false))
    else if Gated(u) then None
    else
      var (u2, irq) := CheckInterrupt(Incremented(u1, 1));
      Some((ZeroReturn(u2), irq))
  }

  lemma TickValid(u: Unit, source: Source)
    requires u.Valid()
    ensures Tick(u, source).Some? ==> Tick(u, source).value.0.Valid() && Tick(u, source).value.0.mode == u.mode
    ensures Tick(u, source).None? <==> Counts(u, source) && Gated(u)
  {
  }

  predicate AllValid(us: seq<Unit>) { forall i :: 0 <= i < |us| ==> us[i].Valid() }

  /** The first unit on which an event throws, or their number. */
  function FirstGated(us: seq<Unit>, source: Source): (k: nat)
    requires AllValid(us)
    ensures k <= |us| && (k < |us| ==> Tick(us[k], source).None?)
    ensures forall i :: 0 <= i < k ==> Tick(us[i], source).Some?
  {
    if us == [] then 0
    else if Tick(us[0], source).None? then 0
    else
      assert AllValid(us[1..]);
      1 + FirstGated(us[1..], source)
  }

  /** Unit i, and whether it raised its interrupt, after an event at all units in order: those before
      the first that throws are ticked, that one has only been reset, and the rest are not reached. */
  function AfterEvent(us: seq<Unit>, source: Source, i: nat): (Unit, bool)
    requires AllValid(us) && i < |us|
  {
    if i < FirstGated(us, source) then Tick(us[i], source).value
    else if i == FirstGated(us, source) then (Unlatched(us[i]), false)
    else (us[i], false)
  }

  // ---------------------------------------------------------------- runs

  function Matching(events: seq<Source>, source: Source): (n: nat)
    ensures n <= |events|
  {
    if events == [] then 0
    else Matching(events[..|events| - 1], source) + if events[|events| - 1] == source then 1 else 0
  }

  /** The unit after a sequence of events, and whether the last of them raised the interrupt. */
  function Run(u: Unit, events: seq<Source>): (r: (Unit, bool))
    requires u.Valid() && !Gated(u)
    ensures r.0.Valid() && r.0.mode == u.mode
  {
    if events == [] then (u, false)
    else
      var before := Run(u, events[..|events| - 1]).0;
      TickValid(before, events[|events| - 1]);
      Tick(before, events[|events| - 1]).value
  }

  /** A unit that has just been reset and is enabled. A reset keeps the overflow flag. */
  predicate Fresh(u: Unit)
  {
    && u.Valid() && u.count == 0 && u.prescaled == 0 && u.target == u.mode.Prescale()
    && !u.latch && u.mode.cue && !Gated(u)
  }

  /** A write of MODE resets the unit at its next tick of either source, whatever it held, except for
      the overflow flag. */
  lemma LatchResets(u: Unit, source: Source)
    requires u.Valid() && u.latch
    ensures Tick(u, source) == Tick(Unlatched(u), source)
    ensures u.mode.cue && !Gated(u) ==> Fresh(Unlatched(u))
    ensures Unlatched(u).overflowed == u.overflowed
  {
  }

  // ---------------------------------------------------------------- writes of MODE

  function ModeOf(reg: bv32): (m: Mode)
    ensures m.Valid()
  {
    Mode((reg & 3) as nat, reg & 4 != 0, reg & 8 != 0, reg & 0x40 != 0, reg & 0x80 != 0, reg & 0x100 != 0,
         reg & 0x200 != 0)
  }

  /** The fields of MODE are where the register has them, by shifts. */
  lemma ModeFields(reg: bv32)
    ensures
      var m := ModeOf(reg);
      && m.clks == (reg & 3) as nat && (m.gate <==> (reg >> 2) & 1 == 1) && (m.gats <==> (reg >> 3) & 1 == 1)
      && (m.zret <==> (reg >> 6) & 1 == 1) && (m.cue <==> (reg >> 7) & 1 == 1)
      && (m.cmpe <==> (reg >> 8) & 1 == 1) && (m.ovfe <==> (reg >> 9) & 1 == 1)
  {
  }

  /** What CLKS selects: 0 every tick of the bus clock, 1 every 16th, 2 every 256th, and 3 every
      horizontal blank. A unit just reset counts its first step at exactly that tick, unless GATE is
      set and not, with CLKS = 3, GATS clear; then a tick of its source throws. */
  lemma ClockSelects(u: Unit, source: Source)
    requires u.Valid() && u.latch && u.mode.cue
    ensures
      var m := u.mode;
      var (gated, counts) := (m.gate && !(m.clks == 3 && !m.gats), source.HBlank? <==> m.clks == 3);
      && (Tick(u, source).None? <==> counts && gated)
      && (Tick(u, source).Some? ==>
            var v := Tick(u, source).value.0;
            && v.target == (if m.clks == 1 then 16 else if m.clks == 2 then 256 else 1) && !v.latch
            && v.prescaled == (if counts && v.target > 1 then 1 else 0)
            && (v.count == 1 <==> counts && v.target == 1 && !(m.zret && u.compare == 1)))
  {
  }

  /** A write of the whole register over the EE bus. */
  function WordWritten(reg: bv32, value: bv32): bv32
  {
    (reg & 0xFFFF_F3FF) | ((reg & 0xC00) & !(value & 0xC00))
  }

  /** It clears the two flags that are written as 1 and changes nothing else: the fields that a tick
      uses cannot be written this way. */
  lemma WordWriteKeepsMode(reg: bv32, value: bv32)
    ensures ModeOf(WordWritten(reg, value)) == ModeOf(reg)
    ensures WordWritten(reg, value) & 0xFFFF_F3FF == reg & 0xFFFF_F3FF
    ensures WordWritten(reg, value) & 0xC00 == reg & !value & 0xC00
  {
  }

  /** What may happen to a unit: a tick, a word write, which latches, or a write of single bytes or
      halfwords, which leaves the register at any value but does not latch. */
  datatype Event = Ticks(source: Source) | WordWrite | NarrowWrite(reg: bv32)

  /** The unit after an event; where the code throws, it has been reset at most. */
  function After(u: Unit, event: Event): (r: Unit)
    requires u.Valid()
    ensures r.Valid()
  {
    match event
    case Ticks(source) => if Tick(u, source).Some? then Tick(u, source).value.0 else Unlatched(u)
    case WordWrite => u.(latch := true)
    case NarrowWrite(reg) => u.(mode := ModeOf(reg))
  }

  /** The unit after a sequence of events. */
  function AfterAll(u: Unit, events: seq<Event>): (r: Unit)
    requires u.Valid()
    ensures r.Valid()
  {
    if events == [] then u
    else After(AfterAll(u, events[..|events| - 1]), events[|events| - 1])
  }

  /** The next tick that counts would find an old overflow and raise the interrupt. */
  predicate OldOverflow(u: Unit) { u.overflowed && u.mode.ovfe }

  /** No event turns the overflow interrupt on while the flag is set. */
  predicate EnablesSafely(u: Unit, events: seq<Event>)
    requires u.Valid()
  {
    events == [] ||
    (var (before, event) := (events[..|events| - 1], events[|events| - 1]);
     EnablesSafely(u, before)
     && !(event.NarrowWrite? && ModeOf(event.reg).ovfe && AfterAll(u, before).overflowed))
  }

  /** An event leaves an old overflow only if it was there or a narrow write enables it. */
  lemma LeavesOldOverflow(u: Unit, event: Event)
    requires u.Valid() && !OldOverflow(u)
    ensures OldOverflow(After(u, event)) <==> event.NarrowWrite? && ModeOf(event.reg).ovfe && u.overflowed
  {
  }

  /** An old overflow at some point, now or before. */
  predicate HadOldOverflow(u: Unit, events: seq<Event>)
    requires u.Valid()
  {
    OldOverflow(AfterAll(u, events)) || (events != [] && HadOldOverflow(u, events[..|events| - 1]))
  }

  /** An old overflow is there to be found at some point exactly if a narrow write turns the interrupt
      on while the flag is set; ticks and word writes alone never leave one. */
  lemma {:induction false} OldOverflowExactly(u: Unit, events: seq<Event>)
    requires u.Valid() && !OldOverflow(u)
    ensures HadOldOverflow(u, events) <==> !EnablesSafely(u, events)
    decreases |events|
  {
    if events == [] {
    } else {
      var before := events[..|events| - 1];
      OldOverflowExactly(u, before);
      if !OldOverflow(AfterAll(u, before)) {
        LeavesOldOverflow(AfterAll(u, before), events[|before|]);
      }
    }
  }

  /** Such a write: a unit counts past its limit without the overflow interrupt and keeps the flag;
      a narrow write enables the interrupt and a word write resets the unit; then the interrupt is
      raised on the first tick, with the count at 1. */
  lemma StaleOverflowInterrupts() returns (u: Unit)
    ensures u.Valid() && !u.overflowed && u.count == 65535 && !u.mode.ovfe
    ensures
      var wrapped := After(u, Ticks(Clock));
      var written := After(After(wrapped, NarrowWrite(0x280)), WordWrite);
      && wrapped.overflowed && Tick(written, Clock).Some?
      && Tick(written, Clock).value.0.count == 1 && Tick(written, Clock).value.1
  {
    u := Unit(LIMIT, false, 1, 0, Mode(0, false, false, false, true, false, false), false, 0);
  }

  /** n ticks as a complete periods, b steps of the count and r of the prescaler. */
  predicate Digits(n: nat, a: nat, b: nat, r: nat, c: nat, p: nat)
  {
    b < c && r < p && n == (a * c + b) * p + r
  }

  lemma DigitsAre(n: nat, a: nat, b: nat, r: nat, c: nat, p: nat)
    requires Digits(n, a, b, r, c, p)
    ensures p > 0 && c > 0 && p * c > 0 && n / p % c == b && (n % (p * c) == 0 <==> b == 0 && r == 0)
  {
    DivDigits(n, p, c, a, b, r);
    DivModUnique(a * c + b, c, a, b);
    MulPositive(b, p);
  }

  /** Counting one further. */
  lemma NextDigits(n: nat, a: nat, b: nat, r: nat, c: nat, p: nat)
    returns (a': nat, b': nat, r': nat)
    requires Digits(n, a, b, r, c, p)
    ensures Digits(n + 1, a', b', r', c, p)
    ensures (r', b') == if r + 1 < p then (r + 1, b) else (0, if b + 1 < c then b + 1 else 0)
  {
    if r + 1 < p {
      a', b', r' := a, b, r + 1;
    } else {
      assert (a * c + b) * p + p == (a * c + b + 1) * p;
      r' := 0;
      if b + 1 < c {
        a', b' := a, b + 1;
      } else {
        a', b' := a + 1, 0;
        assert a * c + c == (a + 1) * c;
      }
    }
  }

  /** The state of a periodic timer: b of the count and r of the prescaler. */
  predicate Periodic(u: Unit, b: nat, r: nat, c: nat, p: nat)
  {
    && u.Valid() && !u.latch && u.mode.cue && !Gated(u)
    && u.mode.zret && u.mode.cmpe && u.compare == c && 0 < c <= LIMIT && u.target == p
    && u.count == b < c && u.prescaled == r < p
  }

  lemma PeriodicTick(u: Unit, b: nat, r: nat, c: nat, p: nat)
    requires Periodic(u, b, r, c, p)
    ensures
      var (u', irq) := Tick(u, u.mode.Follows()).value;
      && u'.overflowed == (u.overflowed && !u.mode.ovfe)
      && (irq <==> (r + 1 >= p && b + 1 >= c) || (u.mode.ovfe && u.overflowed))
      && if r + 1 < p then Periodic(u', b, r + 1, c, p)
         else Periodic(u', if b + 1 < c then b + 1 else 0, 0, c, p)
  {
    if r + 1 >= p {
      DivModUnique(r + 1, p, 1, 0);
    }
  }

  lemma {:induction false} PeriodicRun(u0: Unit, events: seq<Source>) returns (a: nat, b: nat, r: nat)
    requires Fresh(u0) && u0.mode.zret && u0.mode.cmpe && 0 < u0.compare <= LIMIT
    ensures
      var (p, c, n) := (u0.target, u0.compare, Matching(events, u0.mode.Follows()));
      var (u, irq) := Run(u0, events);
      && Periodic(u, b, r, c, p) && Digits(n, a, b, r, c, p)
      && u.overflowed == (u0.overflowed && !(u0.mode.ovfe && n > 0))
      && (irq <==> events != [] && events[|events| - 1] == u0.mode.Follows()
                   && ((b == 0 && r == 0) || (n == 1 && u0.mode.ovfe && u0.overflowed)))
    decreases |events|
  {
    var (p, c, source) := (u0.target, u0.compare, u0.mode.Follows());
    if events == [] {
      a, b, r := 0, 0, 0;
    } else {
      var (before, event) := (events[..|events| - 1], events[|events| - 1]);
      a, b, r := PeriodicRun(u0, before);
      if event == source {
        PeriodicTick(Run(u0, before).0, b, r, c, p);
        a, b, r := NextDigits(Matching(before, source), a, b, r, c, p);
      }
    }
  }

  /** A reset periodic timer with prescale p and compare value c has, after n ticks of its source
      (among any events of the other), the count (n div p) mod c; and a tick raises the interrupt if
      and only if n is then a multiple of p*c, or it is the first and finds an old overflow flag with
      the overflow interrupt enabled. */
  lemma PeriodicTimer(u0: Unit, events: seq<Source>)
    requires Fresh(u0) && u0.mode.zret && u0.mode.cmpe && 0 < u0.compare <= 65535
    ensures
      var (p, c, n) := (u0.target, u0.compare, Matching(events, u0.mode.Follows()));
      var (u, irq) := Run(u0, events);
      && p * c > 0 && u.count == n / p % c
      && u.overflowed == (u0.overflowed && !(u0.mode.ovfe && n > 0))
      && (irq <==> events != [] && events[|events| - 1] == u0.mode.Follows()
                   && (n % (p * c) == 0 || (n == 1 && u0.mode.ovfe && u0.overflowed)))
  {
    var a, b, r := PeriodicRun(u0, events);
    DigitsAre(Matching(events, u0.mode.Follows()), a, b, r, u0.compare, u0.target);
  }

  /** The count of a free-running timer after m steps: it never returns to 0. */
  function FreeCount(m: nat): nat { if m == 0 then 0 else (m - 1) % LIMIT + 1 }

  lemma FreeCounts(m: nat)
    ensures FreeCount(m) == if m == 0 then 0 else (m - 1) % 65535 + 1
  {
  }

  predicate Free(u: Unit, m: nat, r: nat, p: nat)
  {
    && u.Valid() && !u.latch && u.mode.cue && !Gated(u) && !u.mode.zret && u.target == p
    && u.count == FreeCount(m) && u.prescaled == r < p
  }

  /** The m-th step wraps from 65535 to 1. */
  predicate Wraps(m: nat) { m > 1 && (m - 1) % LIMIT == 0 }

  lemma FreeTick(u: Unit, m: nat, r: nat, p: nat)
    requires Free(u, m, r, p)
    ensures
      var (u', irq) := Tick(u, u.mode.Follows()).value;
      var wrapped := r + 1 >= p && Wraps(m + 1);
      && (if r + 1 >= p then Free(u', m + 1, 0, p) else Free(u', m, r + 1, p)) && u'.compare == u.compare
      && u'.overflowed == ((u.overflowed || wrapped) && !u.mode.ovfe)
      && (irq <==> (u.mode.cmpe && u'.count == u.compare) || (u.mode.ovfe && (u.overflowed || wrapped)))
  {
    if r + 1 >= p {
      DivModUnique(r + 1, p, 1, 0);
    }
  }

  /** The state of a free-running timer n ticks after the reset of u0, with q steps of the count and
      r of the prescaler. Without the overflow interrupt the flag stays set from the first wrap on. */
  predicate FreeAfter(u0: Unit, u: Unit, n: nat, q: nat, r: nat)
  {
    && Free(u, q, r, u0.target) && u.compare == u0.compare && u.mode == u0.mode
    && u.overflowed == if u0.mode.ovfe then u0.overflowed && n == 0 else u0.overflowed || q > LIMIT
  }

  /** The n-th tick raises the interrupt: the count then is the compare value, or it wraps from 65535
      to 1, or the tick is the first and finds an old overflow flag, each with its interrupt enabled. */
  predicate FreeInterrupt(u0: Unit, n: nat, q: nat, r: nat)
  {
    || (u0.mode.cmpe && FreeCount(q) == u0.compare)
    || (u0.mode.ovfe && ((r == 0 && Wraps(q)) || (n == 1 && u0.overflowed)))
  }

  lemma FlagSticks(q: nat)
    ensures q > LIMIT || Wraps(q + 1) <==> q + 1 > LIMIT
  {
  }

  lemma FreeNext(u0: Unit, u: Unit, n: nat, q: nat, r: nat) returns (q': nat, r': nat)
    requires FreeAfter(u0, u, n, q, r)
    ensures (q', r') == if r + 1 < u0.target then (q, r + 1) else (q + 1, 0)
    ensures
      var (u', irq) := Tick(u, u0.mode.Follows()).value;
      FreeAfter(u0, u', n + 1, q', r') && irq == FreeInterrupt(u0, n + 1, q', r')
  {
    FreeTick(u, q, r, u0.target);
    FlagSticks(q);
    q', r' := if r + 1 < u0.target then q else q + 1, if r + 1 < u0.target then r + 1 else 0;
  }

  lemma OneMore(q: nat, p: nat)
    ensures (q + 1) * p == q * p + p
  {
  }

  lemma {:induction false} FreeRun(u0: Unit, events: seq<Source>) returns (q: nat, r: nat)
    requires Fresh(u0) && !u0.mode.zret
    ensures
      var (n, (u, irq)) := (Matching(events, u0.mode.Follows()), Run(u0, events));
      && n == q * u0.target + r && FreeAfter(u0, u, n, q, r)
      && (irq <==> events != [] && events[|events| - 1] == u0.mode.Follows() && FreeInterrupt(u0, n, q, r))
    decreases |events|
  {
    var (p, source) := (u0.target, u0.mode.Follows());
    if events == [] {
      q, r := 0, 0;
    } else {
      var (before, event) := (events[..|events| - 1], events[|events| - 1]);
      q, r := FreeRun(u0, before);
      var (n, u) := (Matching(before, source), Run(u0, before).0);
      if event == source {
        OneMore(q, p);
        q, r := FreeNext(u0, u, n, q, r);
      }
    }
  }

  /** A reset timer that does not return to zero has, after n ticks, counted n div p steps through 1
      to 65535 over and over, with 0 only at the start, and raises the interrupt exactly when stated. */
  lemma FreeRunningTimer(u0: Unit, events: seq<Source>)
    requires Fresh(u0) && !u0.mode.zret
    ensures
      var (p, n, (u, irq)) := (u0.target, Matching(events, u0.mode.Follows()), Run(u0, events));
      && p > 0 && FreeAfter(u0, u, n, n / p, n % p)
      && u.count == (if n / p == 0 then 0 else (n / p - 1) % 65535 + 1)
      && (irq <==> events != [] && events[|events| - 1] == u0.mode.Follows() && FreeInterrupt(u0, n, n / p, n % p))
  {
    var q, r := FreeRun(u0, events);
    FreeCounts(q);
    DivModUnique(Matching(events, u0.mode.Follows()), u0.target, q, r);
  }
}
