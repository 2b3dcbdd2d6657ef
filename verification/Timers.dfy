/** The EE timers, ticked in place. */
module Timers {
  import opened Words
  import opened Bits
  import opened TimersSpec

  lemma WrapNext(x: nat)
    ensures Wrap(Wrap(x) + 1) == Wrap(x + 1)
  {
  }

  class EeTimersUnit {
    const id: nat

    // COUNT, with its overflow flag and prescaler.
    var count: uword
    var isOverflowed: bool
    var prescaleTarget: nat
    var prescaleCount: nat

    var mode: Mode
    var writeLatch: bool
    var compare: uword

    constructor (id: nat)
      ensures this.id == id && View().Valid() && !writeLatch && !mode.cue && count == 0
    {
      this.id := id;
      count, isOverflowed, prescaleTarget, prescaleCount := 0, false, 1, 0;
      mode := Mode(0, false, false, false, false, false, false);
      writeLatch, compare := false, 0;
    }

    function View(): Unit
      reads this
    {
      Unit(count, isOverflowed, prescaleTarget, prescaleCount, mode, writeLatch, compare)
    }

    /** The steps of the count that the prescaler has reached. */
    method TakeSteps() returns (newCount: uword)
      requires prescaleTarget > 0
      modifies `prescaleCount
      ensures newCount == Wrap(count + old(prescaleCount) / prescaleTarget)
      ensures prescaleCount == old(prescaleCount) % prescaleTarget
    {
      newCount := count;
      ghost var k := 0;
      while prescaleCount >= prescaleTarget
        invariant newCount == Wrap(count + k) && old(prescaleCount) == k * prescaleTarget + prescaleCount
        decreases prescaleCount
      {
        WrapNext(count + k);
        OneMore(k, prescaleTarget);
        newCount := Wrap(newCount + 1);
        prescaleCount := prescaleCount - prescaleTarget;
        k := k + 1;
      }
      DivModUnique(old(prescaleCount), prescaleTarget, k, prescaleCount);
    }

    method Increment(value: nat)
      requires View().Valid()
      modifies this
      ensures View() == Incremented(old(View()), value)
    {
      prescaleCount := prescaleCount + value;
      if prescaleCount >= prescaleTarget {
        var newCount := TakeSteps();
        if newCount > LIMIT {
          newCount := newCount % LIMIT;
          isOverflowed := true;
        }
        count := newCount;
      }
    }

    method ResetPrescale(target: nat)
      modifies this
      ensures View() == TimersSpec.ResetPrescale(old(View()), target)
    {
      count := 0;
      prescaleTarget := target;
      prescaleCount := 0;
    }

    method IsOverflowedAndReset() returns (was: bool)
      modifies `isOverflowed
      ensures was == old(isOverflowed) && !isOverflowed
    {
      was := isOverflowed;
      isOverflowed := false;
    }
  }

  class EeTimers {
    const units: seq<EeTimersUnit>

    // The timer bits of INTC STAT, by unit.
    var stat: set<nat>

    ghost predicate Valid()
      reads this, units
    {
      && (forall i, j :: 0 <= i < j < |units| ==> units[i] != units[j])
      && (forall i :: 0 <= i < |units| ==> units[i].View().Valid() && units[i].id == i)
    }

    ghost function Views(): seq<Unit>
      reads this, units
    {
      seq(|units|, i requires 0 <= i < |units| reads this, units => units[i].View())
    }

    constructor ()
      ensures Valid() && fresh(units) && |units| == 4 && stat == {}
    {
      var u0 := new EeTimersUnit(0);
      var u1 := new EeTimersUnit(1);
      var u2 := new EeTimersUnit(2);
      var u3 := new EeTimersUnit(3);
      units := [u0, u1, u2, u3];
      stat := {};
      new;
      assert units[0] == u0 && units[1] == u1 && units[2] == u2 && units[3] == u3;
      assert forall i :: 0 <= i < 4 ==> units[i].View().Valid() && units[i].id == i;
    }

    method HandleTimerInterrupt(unit: EeTimersUnit)
      modifies this, unit
      ensures
        var (u, irq) := CheckInterrupt(old(unit.View()));
        unit.View() == u && stat == old(stat) + if irq then {unit.id} else {}
    {
      var interrupt := false;
      if unit.mode.cmpe {
        if unit.count == unit.compare {
          interrupt := true;
        }
      }
      if unit.mode.ovfe {
        var overflowed := unit.IsOverflowedAndReset();
        if overflowed {
          interrupt := true;
        }
      }
      if interrupt {
        stat := stat + {unit.id};
      }
    }

    method HandleTimerZret(unit: EeTimersUnit)
      modifies unit
      ensures unit.View() == ZeroReturn(old(unit.View()))
    {
      if unit.mode.zret {
        if unit.count == unit.compare {
          unit.count := 0;
        }
      }
    }

    /** One event at one unit. */
    method TickUnit(unit: EeTimersUnit, source: Source) returns (ok: bool)
      requires unit.View().Valid()
      modifies this, unit
      ensures
        var t := Tick(old(unit.View()), source);
        && ok == t.Some?
        && (if ok then unit.View() == t.value.0 && stat == old(stat) + (if t.value.1 then {unit.id} else {})
            else unit.View() == Unlatched(old(unit.View())) && stat == old(stat))
    {
      if unit.writeLatch {
        unit.ResetPrescale(unit.mode.Prescale());
        unit.writeLatch := false;
      }
      if !unit.mode.cue || unit.mode.Follows() != source {
        return true;
      }
      if unit.mode.gate && !unit.mode.GateHblankSpecial() {
        return false;
      }
      unit.Increment(1);
      HandleTimerInterrupt(unit);
      HandleTimerZret(unit);
      ok := true;
    }

    /** Unit j is as the event leaves it, given what the units and the interrupt bits were before. */
    ghost predicate Done(before: seq<Unit>, source: Source, stat0: set<nat>, j: nat)
      requires AllValid(before) && j < |before| == |units|
      reads this, units[j]
    {
      && units[j].View() == AfterEvent(before, source, j).0
      && (j in stat <==> j in stat0 || AfterEvent(before, source, j).1)
    }

    /** The event has been handled by the units before the k-th, and by no other. */
    ghost predicate Progress(before: seq<Unit>, source: Source, stat0: set<nat>, k: nat)
      reads this, units
    {
      && Valid() && AllValid(before) && |before| == |units| && k <= FirstGated(before, source)
      && (forall j :: 0 <= j < k ==> Done(before, source, stat0, j))
      && (forall j :: k <= j < |units| ==> units[j].View() == before[j] && (j in stat <==> j in stat0))
    }

    method TickNext(ghost before: seq<Unit>, source: Source, ghost stat0: set<nat>, k: nat) returns (ok: bool)
      requires Progress(before, source, stat0, k) && k < |units|
      modifies this, units[k]
      ensures Valid() && AllValid(before) && ok == (k < FirstGated(before, source))
      ensures ok ==> Progress(before, source, stat0, k + 1)
      ensures !ok ==> forall j :: 0 <= j < |units| ==> Done(before, source, stat0, j)
    {
      TickValid(before[k], source);
      ok := TickUnit(units[k], source);
      assert stat - {k} == old(stat) - {k};
      forall j | 0 <= j < |units| && j != k
        ensures units[j].View() == old(units[j].View()) && (j in stat <==> j in old(stat))
      {
        assert j in stat - {k} <==> j in old(stat) - {k};
      }
      forall j | 0 <= j < k
        ensures Done(before, source, stat0, j)
      {
        assert old(Done(before, source, stat0, j));
        assert units[j].View() == old(units[j].View());
      }
      assert Done(before, source, stat0, k);
    }

    /** One event at every unit, in order; the first gated unit that would count stops it. */
    method TickTimer(source: Source) returns (ok: bool)
      requires Valid()
      modifies this, units
      ensures Valid() && AllValid(old(Views())) && ok == (FirstGated(old(Views()), source) == |units|)
      ensures forall i :: 0 <= i < |units| ==> Done(old(Views()), source, old(stat), i)
    {
      ghost var before := Views();
      for i := 0 to |units|
        invariant Progress(before, source, old(stat), i)
      {
        ok := TickNext(before, source, old(stat), i);
        if !ok {
          return;
        }
      }
      ok := true;
    }
  }
}
