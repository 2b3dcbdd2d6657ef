/** The Bitfield type: a run of `length` bits at position `start` of an unsigned word, with the
    shift-and-mask extraction and insertion used by every register of the emulator. */
module BitfieldModel {
  import opened Bits

  datatype Bitfield = Bitfield(start: nat, length: nat) {

    /** The field lies inside a word of the given width. */
    predicate Fits(width: nat) { start + length <= width }

    function UnshiftedMask(): nat { Pow2(length) - 1 }

    function ShiftedMask(): nat { Shl(UnshiftedMask(), start) }

    function ExtractFrom(value: nat): nat
    {
      Shr(And(value, ShiftedMask()), start)
    }

    /** The value with the field replaced by the low bits of the field value. */
    function InsertInto(value: nat, field: nat, width: nat): nat
      requires Fits(width) && value < Pow2(width)
    {
      MaskFits(this, width);
      Or(And(value, Pow2(width) - 1 - ShiftedMask()), Shl(And(field, UnshiftedMask()), start))
    }

    /** Two fields share no bit. */
    predicate Disjoint(other: Bitfield)
    {
      start + length <= other.start || other.start + other.length <= start
    }
  }

  lemma MulLess(a: nat, b: nat, d: nat)
    requires a < b && d > 0
    ensures a * d < b * d
  {
  }

  lemma MaskFits(f: Bitfield, width: nat)
    requires f.Fits(width)
    ensures f.ShiftedMask() < Pow2(width)
  {
    var (p, l) := (Pow2(f.start), Pow2(f.length));
    Pow2Add(f.length, f.start);
    Pow2Monotone(f.length + f.start, width);
    ShlIsMul(l - 1, f.start);
    MulLess(l - 1, l, p);
  }

  /** Extraction reads the digit of weight 2^start in base 2^length. */
  lemma ExtractIsDigit(f: Bitfield, value: nat)
    ensures f.ExtractFrom(value) == value / Pow2(f.start) % Pow2(f.length)
  {
    AndShiftedMask(value, f.start, f.length);
    DivMul(value / Pow2(f.start) % Pow2(f.length), Pow2(f.start));
    ShlIsMul(f.UnshiftedMask(), f.start);
    ShrIsDiv(And(value, f.ShiftedMask()), f.start);
  }

  /** Extraction for given powers. */
  lemma FieldAt(v: nat, start: nat, len: nat, p: nat, l: nat)
    requires Pow2(start) == p && Pow2(len) == l
    ensures Bitfield(start, len).ExtractFrom(v) == v / p % l
  {
    ExtractIsDigit(Bitfield(start, len), v);
  }

  lemma AndHalves(a: nat, b: nat)
    ensures And(a, b) / 2 == And(a / 2, b / 2)
    ensures And(a, b) % 2 == if a % 2 == 1 && b % 2 == 1 then 1 else 0
  {
    AndUnfold(a, b);
  }

  lemma DisjointStep(v: nat, x: nat, m: nat, p: nat)
    requires m < 2 * p && m / 2 < p && And(And(v / 2, p - 1 - m / 2), And(x / 2, m / 2)) == 0
    ensures And(And(v, 2 * p - 1 - m), And(x, m)) == 0
  {
    ComplementHalves(m, p);
    var (a, b) := (And(v, 2 * p - 1 - m), And(x, m));
    AndHalves(v, 2 * p - 1 - m);
    AndHalves(x, m);
    AndUnfold(a, b);
  }

  /** Bits outside a mask meet no bit inside it. */
  lemma {:induction false} AndDisjoint(v: nat, x: nat, m: nat, width: nat)
    requires v < Pow2(width) && m < Pow2(width)
    ensures And(And(v, Pow2(width) - 1 - m), And(x, m)) == 0
  {
    if width == 0 {
    } else {
      AndDisjoint(v / 2, x / 2, m / 2, width - 1);
      DisjointStep(v, x, m, Pow2(width - 1));
    }
  }

  lemma FieldInMask(n: nat, start: nat, len: nat, p: nat, l: nat, mask: nat)
    requires Pow2(start) == p && Pow2(len) == l && mask == (l - 1) * p && n < l
    ensures And(n * p, mask) == n * p
  {
    AndShiftedMask(n * p, start, len);
    DivMul(n, p);
    SmallMod(n, l);
  }

  lemma DisjointAt(v: nat, x: nat, m: nat, width: nat, w: nat, place: nat)
    requires Pow2(width) == w && v < w && m < w && And(x, m) == place
    ensures Or(And(v, w - 1 - m), place) == And(v, w - 1 - m) + place
  {
    AndDisjoint(v, x, m, width);
    OrIsSum(And(v, w - 1 - m), place);
  }

  /** Insertion joins the rest of the value and the new field in place. */
  lemma InsertUnfolds(f: Bitfield, value: nat, field: nat, width: nat)
    requires f.Fits(width) && value < Pow2(width)
    ensures f.ShiftedMask() < Pow2(width)
    ensures f.InsertInto(value, field, width)
         == Or(And(value, Pow2(width) - 1 - f.ShiftedMask()), field % Pow2(f.length) * Pow2(f.start))
  {
    MaskFits(f, width);
    AndLowMask(field, f.length);
    ShlIsMul(field % Pow2(f.length), f.start);
  }

  /** The new field, in place, is inside the mask, and the rest of the value outside it. */
  lemma InsertIsSum(f: Bitfield, value: nat, field: nat, width: nat)
    requires f.Fits(width) && value < Pow2(width)
    ensures f.ShiftedMask() < Pow2(width)
    ensures f.InsertInto(value, field, width)
         == And(value, Pow2(width) - 1 - f.ShiftedMask()) + field % Pow2(f.length) * Pow2(f.start)
  {
    var (p, l) := (Pow2(f.start), Pow2(f.length));
    InsertUnfolds(f, value, field, width);
    ShlIsMul(l - 1, f.start);
    FieldInMask(field % l, f.start, f.length, p, l, f.ShiftedMask());
    DisjointAt(value, field % l * p, f.ShiftedMask(), width, Pow2(width), field % l * p);
  }

  lemma Distribute(a: nat, b: nat, p: nat)
    ensures (a + b) * p == a * p + b * p
  {
  }

  lemma Recombine(v: nat, n: nat, p: nat, l: nat)
    requires p > 0 && l > 0
    ensures v - v / p % l * p + n * p == (v / p / l * l + n) * p + v % p
  {
    var y := v / p;
    var (h, o) := (y / l * l, y % l);
    DivMod(v, p);
    DivMod(y, l);
    Distribute(h, o, p);
    Distribute(h, n, p);
  }

  /** Outside the mask a value has everything but the field's digit. */
  lemma OutsideMask(v: nat, start: nat, len: nat, p: nat, l: nat, mask: nat, width: nat, w: nat)
    requires Pow2(start) == p && Pow2(len) == l && mask == (l - 1) * p && Pow2(width) == w && v < w && mask < w
    ensures And(v, w - 1 - mask) == v - v / p % l * p
  {
    AndComplement(v, mask, width);
    AndShiftedMask(v, start, len);
  }

  /** Insertion takes the field's old digit away and adds the new one. */
  lemma InsertIsExchange(f: Bitfield, value: nat, field: nat, width: nat)
    requires f.Fits(width) && value < Pow2(width)
    ensures
      var (p, l) := (Pow2(f.start), Pow2(f.length));
      f.InsertInto(value, field, width) == value - value / p % l * p + field % l * p
  {
    var (p, l) := (Pow2(f.start), Pow2(f.length));
    InsertIsSum(f, value, field, width);
    ShlIsMul(l - 1, f.start);
    OutsideMask(value, f.start, f.length, p, l, f.ShiftedMask(), width, Pow2(width));
  }

  /** Insertion keeps the digits above and below the field and replaces the field's digit. */
  lemma InsertIsDigits(f: Bitfield, value: nat, field: nat, width: nat)
    requires f.Fits(width) && value < Pow2(width)
    ensures
      var (p, l) := (Pow2(f.start), Pow2(f.length));
      f.InsertInto(value, field, width) == (value / p / l * l + field % l) * p + value % p
  {
    var (p, l) := (Pow2(f.start), Pow2(f.length));
    InsertIsExchange(f, value, field, width);
    Recombine(value, field % l, p, l);
  }

  /** Reading a field back after writing it yields the low bits written. */
  lemma ExtractAfterInsert(f: Bitfield, value: nat, field: nat, width: nat)
    requires f.Fits(width) && value < Pow2(width)
    ensures f.ExtractFrom(f.InsertInto(value, field, width)) == field % Pow2(f.length)
  {
    var (p, l) := (Pow2(f.start), Pow2(f.length));
    DivMod(value, p);
    DivMod(value / p, l);
    var x, q, n := f.InsertInto(value, field, width), value / p / l, field % l;
    InsertIsDigits(f, value, field, width);
    ExtractIsDigit(f, x);
    DivDigits(x, p, l, q, n, value % p);
    DivModUnique(q * l + n, l, q, n);
  }

  lemma LowDigit(x: nat, p: nat, l: nat, k: nat)
    requires p > 0 && l > 0 && k > 0
    ensures p * (l * k) > 0
    ensures x / p % l == x % (p * (l * k)) / p % l
  {
    MulPositive(l, k);
    DivDiv(x, p, l * k);
    DivDiv(x / p, l, k);
  }

  /** A digit lying below weight 2^n is determined by the remainder at that weight. */
  lemma LowDigitSame(x: nat, y: nat, g: Bitfield, n: nat)
    requires g.start + g.length <= n && x % Pow2(n) == y % Pow2(n)
    ensures x / Pow2(g.start) % Pow2(g.length) == y / Pow2(g.start) % Pow2(g.length)
  {
    var k := n - g.start - g.length;
    Pow2Add(g.start, g.length + k);
    Pow2Add(g.length, k);
    LowDigit(x, Pow2(g.start), Pow2(g.length), Pow2(k));
    LowDigit(y, Pow2(g.start), Pow2(g.length), Pow2(k));
  }

  /** A digit of weight 2^(s+n) or more is determined by the quotient at that weight. */
  lemma HighDigitSame(x: nat, y: nat, g: Bitfield, s: nat, n: nat)
    requires s + n <= g.start
    requires Pow2(s) * Pow2(n) > 0 && x / (Pow2(s) * Pow2(n)) == y / (Pow2(s) * Pow2(n))
    ensures x / Pow2(g.start) == y / Pow2(g.start)
  {
    var k := g.start - s - n;
    Pow2Add(s, n);
    Pow2Add(s + n, k);
    DivDiv(x, Pow2(s + n), Pow2(k));
    DivDiv(y, Pow2(s + n), Pow2(k));
  }

  /** Writing a field leaves every disjoint field as it was. */
  lemma InsertKeepsOthers(f: Bitfield, g: Bitfield, value: nat, field: nat, width: nat)
    requires f.Fits(width) && f.Disjoint(g) && value < Pow2(width)
    ensures g.ExtractFrom(f.InsertInto(value, field, width)) == g.ExtractFrom(value)
  {
    var (p, l) := (Pow2(f.start), Pow2(f.length));
    var x := f.InsertInto(value, field, width);
    DivMod(value, p);
    DivMod(value / p, l);
    InsertIsDigits(f, value, field, width);
    ExtractIsDigit(g, x);
    ExtractIsDigit(g, value);
    DivDigits(x, p, l, value / p / l, field % l, value % p);
    if g.start + g.length <= f.start {
      LowDigitSame(x, value, g, f.start);
    } else {
      DivDiv(value, p, l);
      HighDigitSame(x, value, g, f.start, f.length);
    }
  }
}
