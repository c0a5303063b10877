/** Exact real arithmetic used by the simulation engine: natural and integer
    powers (Python's `float ** int`) and truncation toward zero (Python's
    `int(float)`). Reals stand for the program's floats. */
module RealPow {

  /** x raised to a natural power; Pow(x, 0) == 1.0 even for x == 0.0, as in Python. */
  function Pow(x: real, n: nat): real
  {
    if n == 0 then 1.0 else x * Pow(x, n - 1)
  }

  lemma {:induction false} PowAdd(x: real, a: nat, b: nat)
    ensures Pow(x, a + b) == Pow(x, a) * Pow(x, b)
  {
    if a > 0 {
      PowAdd(x, a - 1, b);
      assert Pow(x, a + b) == x * Pow(x, (a - 1) + b);
    }
  }

  /** Compounding monthly for `years` years is compounding the twelve-month
      factor once a year. */
  lemma {:induction false} PowTwelveMonths(x: real, years: nat)
    ensures Pow(x, 12 * years) == Pow(Pow(x, 12), years)
    decreases years
  {
    if years > 0 {
      PowTwelveMonths(x, years - 1);
      PowAdd(x, 12, 12 * (years - 1));
      assert 12 * years == 12 + 12 * (years - 1);
    }
  }

  lemma {:induction false} PowPositive(x: real, n: nat)
    requires x > 0.0
    ensures Pow(x, n) > 0.0
  {
    if n > 0 {
      PowPositive(x, n - 1);
    }
  }

  lemma {:induction false} PowNonZero(x: real, n: nat)
    requires x != 0.0
    ensures Pow(x, n) != 0.0
  {
    if n > 0 {
      PowNonZero(x, n - 1);
    }
  }

  /** A growth factor above one, applied at least once, grows. */
  lemma {:induction false} PowAboveOne(x: real, n: nat)
    requires x > 1.0 && n > 0
    ensures Pow(x, n) > 1.0
  {
    if n > 1 {
      PowAboveOne(x, n - 1);
      assert x * Pow(x, n - 1) > 1.0 * Pow(x, n - 1);
    }
  }

  /** Python's `x ** k` for an integer k: a negative exponent is the reciprocal
      of the positive power, and is only defined for a non-zero base (Python
      raises ZeroDivisionError for 0.0 ** -k). */
  function IntPow(x: real, k: int): (r: real)
    requires k >= 0 || x != 0.0
    ensures k >= 0 ==> r == Pow(x, k)
    ensures k < 0 ==> r * Pow(x, -k) == 1.0
  {
    if k >= 0 then Pow(x, k)
    else
      PowNonZero(x, -k);
      1.0 / Pow(x, -k)
  }

  /** Python's int() on a float: truncation toward zero. */
  function Trunc(x: real): (r: int)
    ensures x >= 0.0 ==> 0 <= r && r as real <= x < r as real + 1.0
    ensures x < 0.0 ==> r <= 0 && r as real - 1.0 < x <= r as real
  {
    if x >= 0.0 then x.Floor else -((-x).Floor)
  }
}
