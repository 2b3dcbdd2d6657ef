/** Shift and mask arithmetic on unsigned words, as used by the Bitfield type.
    Words are natural numbers; And and Or are defined bit by bit, so that masking and shifting
    can be related to division and remainder by a power of two. */
module Bits {
  function Pow2(n: nat): (r: nat)
    ensures r >= 1
  {
    if n == 0 then 1 else 2 * Pow2(n - 1)
  }

  /** Bitwise conjunction. */
  function And(a: nat, b: nat): (r: nat)
    ensures r <= a && r <= b
  {
    if a == 0 || b == 0 then 0
    else 2 * And(a / 2, b / 2) + (if a % 2 == 1 && b % 2 == 1 then 1 else 0)
  }

  /** Bitwise disjunction. */
  function Or(a: nat, b: nat): (r: nat)
    decreases a + b
  {
    if a == 0 then b else if b == 0 then a
    else 2 * Or(a / 2, b / 2) + (if a % 2 == 1 || b % 2 == 1 then 1 else 0)
  }

  /** Left shift. */
  function Shl(a: nat, n: nat): nat
    decreases n
  {
    if n == 0 then a else Shl(2 * a, n - 1)
  }

  /** Right shift. */
  function Shr(a: nat, n: nat): nat
  {
    if n == 0 then a else Shr(a / 2, n - 1)
  }

  lemma {:induction false} ShlIsMul(a: nat, n: nat)
    ensures Shl(a, n) == a * Pow2(n)
    decreases n
  {
    if n == 0 {
    } else {
      ShlIsMul(2 * a, n - 1);
      assert (2 * a) * Pow2(n - 1) == a * (2 * Pow2(n - 1));
    }
  }

  /** Multiplication by a natural number is monotone. */
  lemma MulMono(a: nat, b: nat, d: nat)
    ensures a <= b ==> a * d <= b * d
  {
  }

  /** Quotient and remainder are determined by their defining equation. */
  lemma DivModUnique(x: nat, d: nat, q: nat, r: nat)
    requires 0 < d && r < d && x == q * d + r
    ensures x / d == q && x % d == r
  {
    MulMono(q + 1, x / d, d);
    MulMono(x / d + 1, q, d);
    assert (q + 1) * d == q * d + d && (x / d + 1) * d == x / d * d + d;
  }

  lemma MulPositive(a: nat, b: nat)
    ensures a > 0 && b > 0 ==> a * b > 0
  {
  }

  /** Regrouping a number written with digits q (of weight a*b), s (of weight a) and r. */
  lemma TwoDigits(q: nat, s: nat, r: nat, a: nat, b: nat)
    requires s < b && r < a
    ensures (q * b + s) * a + r == q * (a * b) + (s * a + r)
    ensures s * a + r < a * b
  {
    assert (q * b + s) * a == (q * b) * a + s * a;
    assert (q * b) * a == q * (a * b);
    MulMono(s + 1, b, a);
    assert (s + 1) * a == s * a + a;
  }

  /** Two-digit numerals have the expected quotients and remainders. */
  lemma DivDigits(x: nat, a: nat, b: nat, q: nat, s: nat, r: nat)
    requires s < b && r < a && x == (q * b + s) * a + r
    ensures a * b > 0
    ensures x / (a * b) == q && x / a == q * b + s && x % a == r
    ensures x % (a * b) == s * a + r
  {
    MulPositive(a, b);
    DivModUnique(x, a, q * b + s, r);
    TwoDigits(q, s, r, a, b);
    DivModUnique(x, a * b, q, s * a + r);
  }

  lemma DivMod(x: nat, d: nat)
    requires d > 0
    ensures x == x / d * d + x % d && x % d < d && x / d >= 0
  {
  }

  /** Dividing by a product is dividing twice. */
  lemma DivDiv(x: nat, a: nat, b: nat)
    requires a > 0 && b > 0
    ensures a * b > 0
    ensures x / (a * b) == x / a / b
    ensures x % (a * b) / a == x / a % b
    ensures x % (a * b) % a == x % a
  {
    var y := x / a;
    var q, s, r := y / b, y % b, x % a;
    DivMod(x, a);
    DivMod(y, b);
    DivDigits(x, a, b, q, s, r);
    DivModUnique(s * a + r, a, s, r);
  }

  lemma {:induction false} ShrIsDiv(a: nat, n: nat)
    ensures Shr(a, n) == a / Pow2(n)
  {
    if n == 0 {
    } else {
      ShrIsDiv(a / 2, n - 1);
      DivDiv(a, 2, Pow2(n - 1));
    }
  }

  lemma {:induction false} Pow2Add(a: nat, b: nat)
    ensures Pow2(a + b) == Pow2(a) * Pow2(b)
  {
    if a == 0 {
    } else {
      Pow2Add(a - 1, b);
      assert Pow2(a + b) == 2 * Pow2(a - 1 + b);
      assert 2 * (Pow2(a - 1) * Pow2(b)) == (2 * Pow2(a - 1)) * Pow2(b);
    }
  }

  /** The powers that the masks and fields of the emulator are made of. */
  lemma Powers()
    ensures Pow2(0) == 1 && Pow2(1) == 2 && Pow2(2) == 4 && Pow2(3) == 8 && Pow2(4) == 0x10 && Pow2(6) == 0x40
    ensures Pow2(7) == 0x80 && Pow2(8) == 0x100 && Pow2(10) == 0x400 && Pow2(12) == 0x1000 && Pow2(13) == 0x2000
    ensures Pow2(16) == 0x1_0000 && Pow2(25) == 0x200_0000 && Pow2(28) == 0x1000_0000
    ensures Pow2(31) == 0x8000_0000 && Pow2(32) == 0x1_0000_0000
  {
    Pow2Add(8, 4);
    Pow2Add(8, 8);
    Pow2Add(12, 13);
    Pow2Add(25, 3);
    Pow2Add(28, 3);
    Pow2Add(28, 4);
  }

  lemma {:induction false} Pow2Monotone(a: nat, b: nat)
    requires a <= b
    ensures Pow2(a) <= Pow2(b)
  {
    if a == b {
    } else {
      Pow2Monotone(a, b - 1);
    }
  }

  lemma DivMul(x: nat, d: nat)
    requires d > 0
    ensures x * d / d == x && x * d % d == 0
  {
    DivModUnique(x * d, d, x, 0);
  }

  /** A quotient is below n if the dividend is below n times the divisor. */
  lemma QuotientBelow(a: nat, d: nat, n: nat)
    requires d > 0 && a < d * n
    ensures a / d < n
  {
    DivMod(a, d);
    MulMono(n, a / d, d);
  }

  lemma SmallMod(n: nat, l: nat)
    requires n < l
    ensures n % l == n
  {
  }

  lemma LowHalves(p: nat)
    requires p > 0
    ensures (2 * p - 1) / 2 == p - 1 && (2 * p - 1) % 2 == 1
  {
  }

  lemma AndUnfold(a: nat, b: nat)
    ensures And(a, b) == 2 * And(a / 2, b / 2) + (if a % 2 == 1 && b % 2 == 1 then 1 else 0)
  {
  }

  lemma TwiceRemainder(v: nat, p: nat)
    requires p > 0
    ensures v % (2 * p) == 2 * (v / 2 % p) + v % 2
  {
    DivDiv(v, 2, p);
    DivMod(v % (2 * p), 2);
  }

  lemma LowMaskStep(v: nat, p: nat, m: nat)
    requires p > 0 && m / 2 == p - 1 && m % 2 == 1 && And(v / 2, p - 1) == v / 2 % p
    ensures And(v, m) == 2 * (v / 2 % p) + v % 2
  {
    AndUnfold(v, m);
  }

  /** Masking with a run of low ones is a remainder. */
  lemma {:induction false} AndLowMask(v: nat, len: nat)
    ensures And(v, Pow2(len) - 1) == v % Pow2(len)
  {
    if len == 0 {
      assert v % 1 == 0;
    } else {
      var p := Pow2(len - 1);
      AndLowMask(v / 2, len - 1);
      LowHalves(p);
      LowMaskStep(v, p, 2 * p - 1);
      TwiceRemainder(v, p);
    }
  }

  lemma Doubled(m: nat, p: nat)
    ensures m * (2 * p) == 2 * (m * p)
    ensures 2 * (m * p) / 2 == m * p && 2 * (m * p) % 2 == 0
  {
  }

  /** Masking with a shifted run of ones keeps exactly that field, in place. */
  lemma {:induction false} AndShiftedMask(v: nat, start: nat, len: nat)
    ensures And(v, (Pow2(len) - 1) * Pow2(start)) == v / Pow2(start) % Pow2(len) * Pow2(start)
  {
    var m := Pow2(len) - 1;
    if start == 0 {
      AndLowMask(v, len);
    } else {
      var p := Pow2(start - 1);
      AndShiftedMask(v / 2, start - 1, len);
      DivDiv(v, 2, p);
      Doubled(m, p);
      AndUnfold(v, 2 * (m * p));
      Doubled(v / 2 / p % Pow2(len), p);
    }
  }

  lemma ComplementHalves(m: nat, p: nat)
    requires m < 2 * p
    ensures (2 * p - 1 - m) / 2 == p - 1 - m / 2 && (2 * p - 1 - m) % 2 == 1 - m % 2
    ensures m / 2 < p
  {
  }

  lemma ComplementStep(v: nat, m: nat, p: nat)
    requires m < 2 * p && m / 2 < p && And(v / 2, m / 2) + And(v / 2, p - 1 - m / 2) == v / 2
    ensures And(v, m) + And(v, 2 * p - 1 - m) == v
  {
    ComplementHalves(m, p);
    AndUnfold(v, m);
    AndUnfold(v, 2 * p - 1 - m);
  }

  /** A value splits into the part under a mask and the part under its complement. */
  lemma {:induction false} AndComplement(v: nat, m: nat, width: nat)
    requires v < Pow2(width) && m < Pow2(width)
    ensures And(v, m) + And(v, Pow2(width) - 1 - m) == v
  {
    if width == 0 {
    } else {
      var p := Pow2(width - 1);
      AndComplement(v / 2, m / 2, width - 1);
      ComplementHalves(m, p);
      ComplementStep(v, m, p);
    }
  }

  lemma {:induction false} OrIsSum(a: nat, b: nat)
    requires And(a, b) == 0
    ensures Or(a, b) == a + b
    decreases a + b
  {
    if a == 0 || b == 0 {
    } else {
      AndUnfold(a, b);
      OrIsSum(a / 2, b / 2);
    }
  }

  lemma OrUnfold(a: nat, b: nat)
    ensures Or(a, b) == 2 * Or(a / 2, b / 2) + (if a % 2 == 1 || b % 2 == 1 then 1 else 0)
  {
  }

  /** What two words have in common is what their sum has beyond their disjunction. */
  lemma {:induction false} AndOrSum(a: nat, b: nat)
    ensures And(a, b) + Or(a, b) == a + b
    decreases a + b
  {
    if a == 0 || b == 0 {
    } else {
      AndUnfold(a, b);
      OrUnfold(a, b);
      AndOrSum(a / 2, b / 2);
    }
  }

  lemma {:induction false} AndComm(a: nat, b: nat)
    ensures And(a, b) == And(b, a)
  {
    if a == 0 || b == 0 {
    } else {
      AndComm(a / 2, b / 2);
    }
  }

  /** The largest multiple of 2^n that is not above a. */
  function Down(a: nat, n: nat): (r: nat)
  {
    DivMod(a, Pow2(n));
    a - a % Pow2(n)
  }

  lemma DownBounds(a: nat, n: nat)
    ensures Down(a, n) <= a < Down(a, n) + Pow2(n)
    ensures Down(a, n) == a / Pow2(n) * Pow2(n)
    ensures Down(a, n) % Pow2(n) == 0 && Down(Down(a, n), n) == Down(a, n)
  {
    DivMod(a, Pow2(n));
    DivMul(a / Pow2(n), Pow2(n));
  }

  /** i*d is the last multiple of d not above a. */
  lemma LastMultiple(a: nat, i: nat, j: nat, d: nat)
    requires j * d <= a < i * d + d
    ensures j * d <= i * d
  {
    MulMono(i + 1, j, d);
    MulMono(j, i, d);
    assert (i + 1) * d == i * d + d;
  }

  /** A multiple of 2^n not above a is not above a rounded down. */
  lemma DownGreatest(a: nat, n: nat, b: nat)
    requires b <= a && b % Pow2(n) == 0
    ensures b <= Down(a, n)
  {
    var p := Pow2(n);
    DownBounds(a, n);
    DivMod(a, p);
    DivMod(b, p);
    LastMultiple(a, a / p, b / p, p);
  }

  lemma SmallRemainder(d: nat)
    requires d > 0
    ensures 0 % d == 0
  {
    DivModUnique(0, d, 0, 0);
  }

  /** Divisibility by a power of two passes to smaller powers. */
  lemma DividesLess(a: nat, m: nat, n: nat)
    requires m <= n && a % Pow2(n) == 0
    ensures a % Pow2(m) == 0
  {
    Pow2Add(m, n - m);
    DivDiv(a, Pow2(m), Pow2(n - m));
    SmallRemainder(Pow2(m));
  }

  /** Rounding to a coarser power first makes finer rounding redundant. */
  lemma DownDown(a: nat, m: nat, n: nat)
    requires m <= n
    ensures Down(Down(a, n), m) == Down(a, n) <= Down(a, m)
  {
    DownBounds(a, n);
    DividesLess(Down(a, n), m, n);
    DownGreatest(a, m, Down(a, n));
  }
}
