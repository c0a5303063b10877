/** The portfolio accumulator: a balance that compounds once a month and then
    takes in that month's signed cash-flow difference (when the difference is
    invested), and the cash accumulator that takes the difference instead
    (when it is not). `diff(m)` is the difference of month m, months
    numbered from 1. */
module PortfolioAccumulator {
  import opened RealPow

  /** The portfolio after k months: grow by the monthly rate, then add the
      month's difference if it is invested. */
  function PortfolioAfter(start: real, rate: real, invest: bool, diff: nat -> real, k: nat): real
    decreases k
  {
    if k == 0 then start
    else PortfolioAfter(start, rate, invest, diff, k - 1) * (1.0 + rate) + (if invest then diff(k) else 0.0)
  }

  /** The uninvested cash after k months. */
  function CashAfter(invest: bool, diff: nat -> real, k: nat): real
    decreases k
  {
    if k == 0 then 0.0 else CashAfter(invest, diff, k - 1) + (if invest then 0.0 else diff(k))
  }

  /** The plain sum of the differences of months 1..k. */
  function SumOf(diff: nat -> real, k: nat): real
    decreases k
  {
    if k == 0 then 0.0 else SumOf(diff, k - 1) + diff(k)
  }

  /** Value after month k of the differences of months 1..j, each compounded
      over the k - m months that follow month m. */
  function Contributions(rate: real, diff: nat -> real, k: nat, j: nat): real
    requires j <= k
    decreases j
  {
    if j == 0 then 0.0 else Contributions(rate, diff, k, j - 1) + diff(j) * Pow(1.0 + rate, k - j)
  }

  /** One month of both accumulators: growth first, then the month's
      difference d goes to the portfolio or to the cash. */
  lemma AccumulatorsStep(start: real, rate: real, invest: bool, diff: nat -> real, k: nat,
                         portfolio: real, cash: real, d: real, portfolio': real, cash': real)
    requires k >= 1 && diff(k) == d
    requires portfolio == PortfolioAfter(start, rate, invest, diff, k - 1)
    requires cash == CashAfter(invest, diff, k - 1)
    requires portfolio' == portfolio * (1.0 + rate) + (if invest then d else 0.0)
    requires cash' == cash + (if invest then 0.0 else d)
    ensures portfolio' == PortfolioAfter(start, rate, invest, diff, k)
    ensures cash' == CashAfter(invest, diff, k)
  {
  }

  /** Investing the difference: no cash is ever held. */
  lemma {:induction false} CashWhenInvesting(diff: nat -> real, k: nat)
    ensures CashAfter(true, diff, k) == 0.0
    decreases k
  {
    if k > 0 {
      CashWhenInvesting(diff, k - 1);
    }
  }

  /** Saving the difference: the cash is the sum of all differences so far. */
  lemma {:induction false} CashWhenSaving(diff: nat -> real, k: nat)
    ensures CashAfter(false, diff, k) == SumOf(diff, k)
    decreases k
  {
    if k > 0 {
      CashWhenSaving(diff, k - 1);
    }
  }

  /** Saving the difference: the portfolio only compounds from its start value. */
  lemma {:induction false} PortfolioWhenSaving(start: real, rate: real, diff: nat -> real, k: nat)
    ensures PortfolioAfter(start, rate, false, diff, k) == start * Pow(1.0 + rate, k)
    decreases k
  {
    if k > 0 {
      PortfolioWhenSaving(start, rate, diff, k - 1);
      assert PortfolioAfter(start, rate, false, diff, k) ==
             (start * Pow(1.0 + rate, k - 1)) * (1.0 + rate);
    }
  }

  /** One more month compounds every earlier contribution once more. */
  lemma {:induction false} ContributionsGrow(rate: real, diff: nat -> real, k: nat, j: nat)
    requires j <= k
    ensures Contributions(rate, diff, k + 1, j) == Contributions(rate, diff, k, j) * (1.0 + rate)
    decreases j
  {
    if j > 0 {
      var x := 1.0 + rate;
      var prev := Contributions(rate, diff, k, j - 1);
      var e := Pow(x, k - j);
      var e' := Pow(x, k + 1 - j);
      ContributionsGrow(rate, diff, k, j - 1);
      assert e' == x * e;
      assert Contributions(rate, diff, k + 1, j) == prev * x + diff(j) * e';
      FactorOut(prev, diff(j), e, e', x);
    }
  }

  lemma FactorOut(a: real, d: real, e: real, e': real, x: real)
    requires e' == x * e
    ensures a * x + d * e' == (a + d * e) * x
  {
  }

  /** Investing the difference: the portfolio is the start value compounded
      over all k months plus each month's difference compounded only over the
      months after it. Growth comes before contribution, so the difference of
      month m does not grow in month m itself. */
  lemma {:induction false} PortfolioFutureValue(start: real, rate: real, diff: nat -> real, k: nat)
    ensures PortfolioAfter(start, rate, true, diff, k) ==
            start * Pow(1.0 + rate, k) + Contributions(rate, diff, k, k)
    decreases k
  {
    if k > 0 {
      var x := 1.0 + rate;
      var base := start * Pow(x, k - 1);
      var earlier := Contributions(rate, diff, k - 1, k - 1);
      PortfolioFutureValue(start, rate, diff, k - 1);
      ContributionsGrow(rate, diff, k - 1, k - 1);
      assert PortfolioAfter(start, rate, true, diff, k) == (base + earlier) * x + diff(k);
      assert Contributions(rate, diff, k, k) == earlier * x + diff(k) * Pow(x, 0);
      Distribute(start, Pow(x, k - 1), earlier, x);
    }
  }

  lemma Distribute(s: real, e: real, b: real, x: real)
    ensures (s * e + b) * x == s * (x * e) + b * x
  {
  }
}
