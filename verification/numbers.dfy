/**
 Finite numbers, as the engine compares and prints them.

 A finite floating-point number is stood for by its shortest round-trip decimal, m * 10^e with m not a multiple of
 ten (or 0 * 10^0). Distinct floating-point numbers have distinct shortest decimals and rounding is monotone, so
 equality and order of the decimals are those of the numbers.
 */
module Numbers {

  datatype Decimal = Decimal(m: int, e: int)

  predicate Normal(d: Decimal) {
    if d.m == 0 then d.e == 0 else d.m % 10 != 0
  }

  type Number = d: Decimal | Normal(d) witness Decimal(0, 0)

  function Pow10(n: nat): (p: int)
    ensures p >= 1
  {
    if n == 0 then 1 else 10 * Pow10(n - 1)
  }

  /** d in units of 10^base. */
  function Scaled(d: Decimal, base: int): int
    requires base <= d.e
  {
    d.m * Pow10(d.e - base)
  }

  function Sign(x: int): (s: int)
    ensures -1 <= s <= 1
  {
    if x < 0 then -1 else if x > 0 then 1 else 0
  }

  function Min(a: int, b: int): (m: int)
    ensures m <= a && m <= b
  {
    if a < b then a else b
  }

  function CompareNumbers(a: Number, b: Number): (c: int)
    ensures -1 <= c <= 1
  {
    var base := Min(a.e, b.e);
    Sign(Scaled(a, base) - Scaled(b, base))
  }

  lemma {:induction false} Pow10Plus(a: nat, b: nat)
    ensures Pow10(a + b) == Pow10(a) * Pow10(b)
    decreases a
  {
    if a > 0 {
      Pow10Plus(a - 1, b);
      assert a + b - 1 == (a - 1) + b;
      assert 10 * (Pow10(a - 1) * Pow10(b)) == (10 * Pow10(a - 1)) * Pow10(b);
    }
  }

  lemma ProductIsPositive(x: int, p: int)
    requires x >= 1 && p >= 1
    ensures x * p >= 1
  {
  }

  lemma SignOfProduct(x: int, p: int)
    requires p >= 1
    ensures Sign(x * p) == Sign(x)
  {
    if x > 0 {
      ProductIsPositive(x, p);
    } else if x < 0 {
      ProductIsPositive(-x, p);
      assert (-x) * p == -(x * p);
    }
  }

  /** The unit both numbers are scaled to does not matter. */
  lemma CompareAtBase(a: Number, b: Number, base: int)
    requires base <= a.e && base <= b.e
    ensures CompareNumbers(a, b) == Sign(Scaled(a, base) - Scaled(b, base))
  {
    var top := Min(a.e, b.e);
    var k := top - base;
    Pow10Plus(a.e - top, k);
    Pow10Plus(b.e - top, k);
    assert a.e - base == (a.e - top) + k && b.e - base == (b.e - top) + k;
    Factor(a.m, Pow10(a.e - top), b.m, Pow10(b.e - top), Pow10(k));
    SignOfProduct(Scaled(a, top) - Scaled(b, top), Pow10(k));
  }

  lemma Factor(m: int, x: int, n: int, y: int, p: int)
    ensures m * (x * p) - n * (y * p) == (m * x - n * y) * p
  {
    assert m * (x * p) == (m * x) * p;
    assert n * (y * p) == (n * y) * p;
  }

  lemma CompareNumbersAntisymmetric(a: Number, b: Number)
    ensures CompareNumbers(b, a) == -CompareNumbers(a, b)
  {
  }

  lemma CompareNumbersTransitive(a: Number, b: Number, c: Number)
    requires CompareNumbers(a, b) <= 0 && CompareNumbers(b, c) <= 0
    ensures CompareNumbers(a, c) <= 0
    ensures CompareNumbers(a, b) < 0 || CompareNumbers(b, c) < 0 ==> CompareNumbers(a, c) < 0
  {
    var base := Min(a.e, Min(b.e, c.e));
    CompareAtBase(a, b, base);
    CompareAtBase(b, c, base);
    CompareAtBase(a, c, base);
  }

  /** Two normal decimals that are numerically equal are the same decimal. */
  lemma CompareNumbersTies(a: Number, b: Number)
    ensures CompareNumbers(a, b) == 0 <==> a == b
  {
    assert Pow10(0) == 1;
    if CompareNumbers(a, b) == 0 && a.e > b.e {
      ShiftedIsMultipleOfTen(a, b);
    } else if CompareNumbers(a, b) == 0 && b.e > a.e {
      ShiftedIsMultipleOfTen(b, a);
    }
  }

  lemma ShiftedIsMultipleOfTen(a: Number, b: Number)
    requires a.e > b.e && Scaled(a, b.e) == b.m
    ensures b.m % 10 == 0
    ensures b.m == 0 ==> a.m == 0
  {
    var p := Pow10(a.e - b.e - 1);
    assert b.m == a.m * (10 * p) == 10 * (a.m * p);
    SignOfProduct(a.m, 10 * p);
  }
}
