/** The amortization calculator: the fixed payment owed after the grace period,
    and the outstanding-principal recurrence that gives that payment its meaning. */
module Amortization {
  import opened RealPow

  /** The post-grace monthly payment for `loan` at monthly rate `i` over
      `remaining` months: the annuity payment when the rate is positive,
      straight-line repayment otherwise, and nothing when no month remains. */
  function PostGracePayment(loan: real, i: real, remaining: int): (p: real)
    ensures remaining > 0 && i > 0.0 ==>
              p * (Pow(1.0 + i, remaining) - 1.0) == loan * i * Pow(1.0 + i, remaining)
    ensures remaining > 0 && i <= 0.0 ==> p * remaining as real == loan
    ensures remaining <= 0 ==> p == 0.0
  {
    if remaining > 0 then
      if i > 0.0 then
        var growth := Pow(1.0 + i, remaining);
        PowAboveOne(1.0 + i, remaining);
        loan * (i * growth) / (growth - 1.0)
      else
        loan / remaining as real
    else
      0.0
  }

  /** Principal still owed after k months of paying `pay` on a balance that
      accrues interest at monthly rate i. */
  function Balance(loan: real, i: real, pay: real, k: nat): real
  {
    if k == 0 then loan else Balance(loan, i, pay, k - 1) * (1.0 + i) - pay
  }

  /** Closed form of the balance, scaled by the rate so that it also holds at i == 0. */
  lemma {:induction false} BalanceClosedForm(loan: real, i: real, pay: real, k: nat)
    ensures i * Balance(loan, i, pay, k) ==
            loan * i * Pow(1.0 + i, k) - pay * (Pow(1.0 + i, k) - 1.0)
  {
    if k > 0 {
      var b := Balance(loan, i, pay, k - 1);
      var x := Pow(1.0 + i, k - 1);
      BalanceClosedForm(loan, i, pay, k - 1);
      assert Pow(1.0 + i, k) == (1.0 + i) * x;
      assert Balance(loan, i, pay, k) == b * (1.0 + i) - pay;
      ClosedFormStep(loan, i, pay, b, x, Balance(loan, i, pay, k), Pow(1.0 + i, k));
    }
  }

  /** One month of the closed form: the algebra behind BalanceClosedForm. */
  lemma ClosedFormStep(loan: real, i: real, pay: real, b: real, x: real, b': real, x': real)
    requires i * b == loan * i * x - pay * (x - 1.0)
    requires b' == b * (1.0 + i) - pay && x' == (1.0 + i) * x
    ensures i * b' == loan * i * x' - pay * (x' - 1.0)
  {
    calc {
      i * (b * (1.0 + i) - pay);
      (i * b) * (1.0 + i) - i * pay;
      (loan * i * x - pay * (x - 1.0)) * (1.0 + i) - i * pay;
      loan * i * x * (1.0 + i) - pay * x * (1.0 + i) + pay * (1.0 + i) - i * pay;
      loan * i * ((1.0 + i) * x) - pay * ((1.0 + i) * x - 1.0);
    }
  }

  /** Without interest every payment reduces the principal by its full amount. */
  lemma {:induction false} BalanceWithoutInterest(loan: real, pay: real, k: nat)
    ensures Balance(loan, 0.0, pay, k) == loan - k as real * pay
  {
    if k > 0 {
      BalanceWithoutInterest(loan, pay, k - 1);
    }
  }

  /** Paying exactly the interest leaves the principal untouched. */
  lemma {:induction false} InterestOnlyKeepsPrincipal(loan: real, i: real, k: nat)
    ensures Balance(loan, i, loan * i, k) == loan
  {
    if k > 0 {
      InterestOnlyKeepsPrincipal(loan, i, k - 1);
    }
  }

  /** The post-grace payment repays the loan in exactly the remaining months,
      for every non-negative rate. */
  lemma PaymentAmortizesLoan(loan: real, i: real, n: nat)
    requires n > 0 && i >= 0.0
    ensures Balance(loan, i, PostGracePayment(loan, i, n), n) == 0.0
  {
    var p := PostGracePayment(loan, i, n);
    if i > 0.0 {
      BalanceClosedForm(loan, i, p, n);
      assert i * Balance(loan, i, p, n) == 0.0;
    } else {
      BalanceWithoutInterest(loan, p, n);
    }
  }

  /** A positive loan at a positive rate costs more per month once principal
      is repaid than during the interest-only grace period. */
  lemma AmortizedExceedsInterestOnly(loan: real, i: real, n: nat)
    requires loan > 0.0 && i > 0.0 && n > 0
    ensures PostGracePayment(loan, i, n) > loan * i > 0.0
  {
    var g := Pow(1.0 + i, n);
    PowAboveOne(1.0 + i, n);
    var p := PostGracePayment(loan, i, n);
    assert p * (g - 1.0) == loan * i * g;
    assert (p - loan * i) * (g - 1.0) == loan * i;
    PositiveFactor(p - loan * i, g - 1.0);
  }

  lemma PositiveFactor(a: real, b: real)
    requires b > 0.0 && a * b > 0.0
    ensures a > 0.0
  {
  }

  // ----- The payment schedule: interest only for `grace` months, then the post-grace payment -----

  /** The payment of month m (months numbered from 1). */
  function PaymentAt(grace: int, interestOnly: real, postGrace: real, m: int): real
  {
    if m <= grace then interestOnly else postGrace
  }

  /** Total paid over months 1..k. */
  function TotalPaid(grace: int, interestOnly: real, postGrace: real, k: nat): real
    decreases k
  {
    if k == 0 then 0.0
    else TotalPaid(grace, interestOnly, postGrace, k - 1) + PaymentAt(grace, interestOnly, postGrace, k)
  }

  /** How many of months 1..k fall inside the grace period. */
  function GraceMonthsWithin(grace: int, k: nat): (c: nat)
    ensures c <= k
  {
    if grace < 0 then 0 else if grace > k then k else grace
  }

  /** Total paid over months 1..k: the grace months at the interest-only
      amount, every other month at the post-grace payment. */
  lemma {:induction false} TotalPaidClosedForm(grace: int, interestOnly: real, postGrace: real, k: nat)
    ensures TotalPaid(grace, interestOnly, postGrace, k) ==
            GraceMonthsWithin(grace, k) as real * interestOnly
            + (k - GraceMonthsWithin(grace, k)) as real * postGrace
    decreases k
  {
    if k > 0 {
      TotalPaidClosedForm(grace, interestOnly, postGrace, k - 1);
      var c := GraceMonthsWithin(grace, k - 1) as real;
      var n := (k - 1 - GraceMonthsWithin(grace, k - 1)) as real;
      assert TotalPaid(grace, interestOnly, postGrace, k) ==
             TotalPaid(grace, interestOnly, postGrace, k - 1) + PaymentAt(grace, interestOnly, postGrace, k);
      if k <= grace {
        assert GraceMonthsWithin(grace, k) as real == c + 1.0;
        assert (k - GraceMonthsWithin(grace, k)) as real == n;
        MulSucc(c, interestOnly);
      } else {
        assert GraceMonthsWithin(grace, k) as real == c;
        assert (k - GraceMonthsWithin(grace, k)) as real == n + 1.0;
        MulSucc(n, postGrace);
      }
    }
  }

  lemma MulSucc(n: real, a: real)
    ensures (n + 1.0) * a == n * a + a
  {
  }

  /** Principal owed after k months of the schedule, on a loan accruing
      interest at monthly rate i, whose grace payment is the interest loan * i. */
  function ScheduleBalance(loan: real, i: real, grace: int, postGrace: real, k: nat): real
    decreases k
  {
    if k == 0 then loan
    else ScheduleBalance(loan, i, grace, postGrace, k - 1) * (1.0 + i) - PaymentAt(grace, loan * i, postGrace, k)
  }

  /** During the grace period only interest is paid: the principal is untouched. */
  lemma {:induction false} GraceKeepsPrincipal(loan: real, i: real, grace: int, postGrace: real, k: nat)
    requires k <= grace
    ensures ScheduleBalance(loan, i, grace, postGrace, k) == loan
    decreases k
  {
    if k > 0 {
      GraceKeepsPrincipal(loan, i, grace, postGrace, k - 1);
    }
  }

  /** After the grace period the schedule is an ordinary annuity on the
      untouched principal. */
  lemma {:induction false} ScheduleAfterGrace(loan: real, i: real, grace: nat, postGrace: real, j: nat)
    ensures ScheduleBalance(loan, i, grace, postGrace, grace + j) == Balance(loan, i, postGrace, j)
    decreases j
  {
    if j == 0 {
      GraceKeepsPrincipal(loan, i, grace, postGrace, grace);
    } else {
      ScheduleAfterGrace(loan, i, grace, postGrace, j - 1);
      assert PaymentAt(grace, loan * i, postGrace, grace + j) == postGrace;
      assert ScheduleBalance(loan, i, grace, postGrace, grace + j) ==
             ScheduleBalance(loan, i, grace, postGrace, grace + (j - 1)) * (1.0 + i) - postGrace;
    }
  }

  /** A grace period shorter than the term, at a non-negative rate: the last
      payment of the term leaves nothing owed. */
  lemma LoanRepaidAtTerm(loan: real, i: real, grace: int, total: int)
    requires 0 <= grace < total && i >= 0.0
    ensures ScheduleBalance(loan, i, grace, PostGracePayment(loan, i, total - grace), total) == 0.0
  {
    var post := PostGracePayment(loan, i, total - grace);
    ScheduleAfterGrace(loan, i, grace, post, total - grace);
    PaymentAmortizesLoan(loan, i, total - grace);
  }

  /** A grace period covering the whole term: the post-grace payment is zero
      and the whole principal is still owed when the term ends. */
  lemma FullTermGraceNeverRepays(loan: real, i: real, grace: int, total: nat)
    requires total <= grace
    ensures PostGracePayment(loan, i, total - grace) == 0.0
    ensures ScheduleBalance(loan, i, grace, PostGracePayment(loan, i, total - grace), total) == loan
  {
    GraceKeepsPrincipal(loan, i, grace, 0.0, total);
  }
}
