/** The simulation engine `calculate_investment`: buying a home with a
    mortgage against renting and investing, month by month. */
module Calculator {
  import opened RealPow
  import opened Amortization
  import opened RentProjector
  import opened PortfolioAccumulator

  /** The arguments of calculate_investment. The monthly stock return, which
      the engine derives as a twelfth root, is passed to the engine separately. */
  datatype Params = Params(
    loanAmount: real,
    downPayment: real,
    mortgageRate: real,
    rentInitial: real,
    rentGrowthRate: real,
    houseGrowthRate: real,
    stockReturnRate: real,
    gracePeriodYears: real,
    investDifference: bool,
    mortgageYears: int)

  /** The returned dictionary, one field per key. */
  datatype Summary = Summary(
    housePriceInitial: real,
    loanAmount: real,
    downPayment: real,
    mortgageYears: int,
    gracePeriodYears: real,
    mortgageRate: real,
    houseGrowthRate: real,
    rentInitial: real,
    rentGrowthRate: real,
    stockReturnRate: real,
    buyNetWorth: real,
    buyTotalSpent: real,
    totalMortgagePaid: real,
    rentNetWorth: real,
    totalRentPaid: real,
    finalStockPortfolio: real,
    cashSavings: real,
    graceMonthlyPay: real,
    postGraceMonthlyPay: real)

  /** Python raises ZeroDivisionError for 0.0 ** -k (a zero house growth factor
      over a negative term); that is the engine's only failure. */
  datatype Error = ZeroDivision

  datatype Result = Success(value: Summary) | Failure(error: Error)

  /** A monthly return that compounds to the annual return over twelve months
      (the real twelfth root, so the base is non-negative). */
  ghost predicate IsMonthlyRate(monthly: real, annual: real)
  {
    1.0 + monthly >= 0.0 && Pow(1.0 + monthly, 12) == 1.0 + annual
  }

  function MonthlyMortgageRate(p: Params): real
  {
    p.mortgageRate / 12.0
  }

  /** Months in the mortgage term, int(mortgage_years * 12). */
  function TotalMonths(p: Params): int
  {
    12 * p.mortgageYears
  }

  /** Months of the grace period, int(grace_period_years * 12). */
  function GraceMonths(p: Params): int
  {
    Trunc(p.gracePeriodYears * 12.0)
  }

  /** Months the loop actually runs: range(1, total_months + 1) is empty
      when total_months is not positive. */
  function SimulatedMonths(p: Params): nat
  {
    if TotalMonths(p) > 0 then TotalMonths(p) else 0
  }

  /** The grace-period payment: interest on the untouched principal. */
  function InterestOnly(p: Params): real
  {
    p.loanAmount * MonthlyMortgageRate(p)
  }

  /** The fixed payment after the grace period, over the remaining months. */
  function PostGrace(p: Params): real
  {
    PostGracePayment(p.loanAmount, MonthlyMortgageRate(p), TotalMonths(p) - GraceMonths(p))
  }

  /** The mortgage payment of month m. */
  function MortgagePayAt(p: Params, m: int): real
  {
    PaymentAt(GraceMonths(p), InterestOnly(p), PostGrace(p), m)
  }

  /** Total mortgage paid over months 1..k. */
  function TotalMortgagePaid(p: Params, k: nat): real
  {
    TotalPaid(GraceMonths(p), InterestOnly(p), PostGrace(p), k)
  }

  /** The rent of month m. */
  function Rent(p: Params, m: int): real
    requires m >= 1
  {
    SteppedRent(p.rentInitial, p.rentGrowthRate, m)
  }

  /** Total rent paid over months 1..k. */
  function TotalRentPaid(p: Params, k: nat): real
  {
    TotalRent(p.rentInitial, p.rentGrowthRate, k)
  }

  /** The signed cash-flow difference of month m: mortgage payment minus rent. */
  function Diff(p: Params, m: int): real
    requires m >= 1
  {
    MortgagePayAt(p, m) - Rent(p, m)
  }

  /** The differences month by month, as the accumulators take them. */
  function MonthlyDiff(p: Params): nat -> real
  {
    (m: nat) => if m == 0 then 0.0 else Diff(p, m)
  }

  /** The renter's portfolio after k months, starting from the down payment. */
  function Portfolio(p: Params, monthlyStockReturn: real, k: nat): real
  {
    PortfolioAfter(p.downPayment, monthlyStockReturn, p.investDifference, MonthlyDiff(p), k)
  }

  /** The renter's uninvested cash after k months. */
  function CashSavings(p: Params, k: nat): real
  {
    CashAfter(p.investDifference, MonthlyDiff(p), k)
  }

  /** The house price appreciated once over the whole term at the annual
      growth rate (a negative term divides by the growth factor). */
  function FinalHouseValue(p: Params): real
    requires p.mortgageYears >= 0 || 1.0 + p.houseGrowthRate != 0.0
  {
    (p.loanAmount + p.downPayment) * IntPow(1.0 + p.houseGrowthRate, p.mortgageYears)
  }

  /** One month of rent: the loop's conditional step reaches the rent of month m. */
  lemma RentNext(p: Params, m: int, before: real, after: real)
    requires m >= 1
    requires before == Rent(p, if m == 1 then 1 else m - 1)
    requires after == if m > 1 && (m - 1) % 12 == 0 then before * (1.0 + p.rentGrowthRate) else before
    ensures after == Rent(p, m)
  {
  }

  /** One month of the renter's accumulators: growth first, then the difference
      goes to the portfolio or to cash. */
  lemma AccumulatorsNext(p: Params, rm: real, m: int, portfolio: real, cash: real,
                         pay: real, rent: real, portfolio': real, cash': real)
    requires m >= 1
    requires portfolio == Portfolio(p, rm, m - 1) && cash == CashSavings(p, m - 1)
    requires pay == MortgagePayAt(p, m) && rent == Rent(p, m)
    requires portfolio' == portfolio * (1.0 + rm) + (if p.investDifference then pay - rent else 0.0)
    requires cash' == cash + (if p.investDifference then 0.0 else pay - rent)
    ensures portfolio' == Portfolio(p, rm, m) && cash' == CashSavings(p, m)
  {
    assert MonthlyDiff(p)(m) == pay - rent;
    AccumulatorsStep(p.downPayment, rm, p.investDifference, MonthlyDiff(p), m,
                     portfolio, cash, pay - rent, portfolio', cash');
  }

  /** calculate_investment. The monthly loop keeps the five running figures
      equal to their specification functions over the months done so far. */
  method CalculateInvestment(p: Params, monthlyStockReturn: real) returns (res: Result)
    ensures res.Failure? <==> p.mortgageYears < 0 && 1.0 + p.houseGrowthRate == 0.0
    ensures res.Success? ==>
      var s := res.value;
      && s.housePriceInitial == p.loanAmount + p.downPayment
      && s.loanAmount == p.loanAmount && s.downPayment == p.downPayment
      && s.mortgageYears == p.mortgageYears && s.gracePeriodYears == p.gracePeriodYears
      && s.mortgageRate == p.mortgageRate && s.houseGrowthRate == p.houseGrowthRate
      && s.rentInitial == p.rentInitial && s.rentGrowthRate == p.rentGrowthRate
      && s.stockReturnRate == p.stockReturnRate
      && s.totalMortgagePaid == TotalMortgagePaid(p, SimulatedMonths(p))
      && s.totalRentPaid == TotalRentPaid(p, SimulatedMonths(p))
      && s.finalStockPortfolio == Portfolio(p, monthlyStockReturn, SimulatedMonths(p))
      && s.cashSavings == CashSavings(p, SimulatedMonths(p))
      && s.buyNetWorth == FinalHouseValue(p)
      && s.buyTotalSpent == p.downPayment + s.totalMortgagePaid
      && s.rentNetWorth == s.finalStockPortfolio + s.cashSavings
      && s.graceMonthlyPay == (if GraceMonths(p) > 0 then InterestOnly(p) else 0.0)
      && s.postGraceMonthlyPay == PostGrace(p)
  {
    var housePriceInitial := p.loanAmount + p.downPayment;
    var monthlyMortgageRate := p.mortgageRate / 12.0;
    var totalMonths := 12 * p.mortgageYears;
    var graceMonths := Trunc(p.gracePeriodYears * 12.0);
    var remainingMonths := totalMonths - graceMonths;
    var postGracePayment := PostGracePayment(p.loanAmount, monthlyMortgageRate, remainingMonths);
    assert graceMonths == GraceMonths(p) && postGracePayment == PostGrace(p);
    assert p.loanAmount * monthlyMortgageRate == InterestOnly(p);

    var stockPortfolio := p.downPayment;
    var totalMortgagePaid := 0.0;
    var totalRentPaid := 0.0;
    var currentRent := p.rentInitial;
    var cashSavings := 0.0;

    var month := 1;
    while month <= totalMonths
      invariant 1 <= month <= SimulatedMonths(p) + 1
      invariant totalMortgagePaid == TotalMortgagePaid(p, month - 1)
      invariant totalRentPaid == TotalRentPaid(p, month - 1)
      invariant currentRent == Rent(p, if month == 1 then 1 else month - 1)
      invariant stockPortfolio == Portfolio(p, monthlyStockReturn, month - 1)
      invariant cashSavings == CashSavings(p, month - 1)
    {
      var mortgagePay;
      if month <= graceMonths {
        mortgagePay := p.loanAmount * monthlyMortgageRate;
      } else {
        mortgagePay := postGracePayment;
      }
      assert mortgagePay == MortgagePayAt(p, month);
      totalMortgagePaid := totalMortgagePaid + mortgagePay;

      ghost var rentBefore := currentRent;
      if month > 1 && (month - 1) % 12 == 0 {
        currentRent := currentRent * (1.0 + p.rentGrowthRate);
      }
      RentNext(p, month, rentBefore, currentRent);
      totalRentPaid := totalRentPaid + currentRent;

      ghost var portfolioBefore := stockPortfolio;
      ghost var cashBefore := cashSavings;
      stockPortfolio := stockPortfolio * (1.0 + monthlyStockReturn);

      var diff := mortgagePay - currentRent;
      if p.investDifference {
        stockPortfolio := stockPortfolio + diff;
      } else {
        cashSavings := cashSavings + diff;
      }
      AccumulatorsNext(p, monthlyStockReturn, month, portfolioBefore, cashBefore, mortgagePay, currentRent, stockPortfolio, cashSavings);
      month := month + 1;
    }

    if p.mortgageYears < 0 && 1.0 + p.houseGrowthRate == 0.0 {
      return Failure(ZeroDivision);
    }
    var finalHouseValue := FinalHouseValue(p);

    var buyNetWorth := finalHouseValue;
    var buyTotalSpent := p.downPayment + totalMortgagePaid;
    var rentNetWorth := stockPortfolio + cashSavings;

    res := Success(Summary(
      housePriceInitial := housePriceInitial,
      loanAmount := p.loanAmount,
      downPayment := p.downPayment,
      mortgageYears := p.mortgageYears,
      gracePeriodYears := p.gracePeriodYears,
      mortgageRate := p.mortgageRate,
      houseGrowthRate := p.houseGrowthRate,
      rentInitial := p.rentInitial,
      rentGrowthRate := p.rentGrowthRate,
      stockReturnRate := p.stockReturnRate,
      buyNetWorth := buyNetWorth,
      buyTotalSpent := buyTotalSpent,
      totalMortgagePaid := totalMortgagePaid,
      rentNetWorth := rentNetWorth,
      totalRentPaid := totalRentPaid,
      finalStockPortfolio := stockPortfolio,
      cashSavings := cashSavings,
      graceMonthlyPay := if graceMonths > 0 then p.loanAmount * monthlyMortgageRate else 0.0,
      postGraceMonthlyPay := postGracePayment));
  }

  /** With a grace period inside the term, the mortgage paid over the term is
      grace_months interest-only payments plus the remaining months at the
      post-grace payment. */
  lemma TotalMortgageOverTerm(p: Params)
    requires 0 <= GraceMonths(p) <= TotalMonths(p)
    ensures TotalMortgagePaid(p, SimulatedMonths(p)) ==
            GraceMonths(p) as real * InterestOnly(p)
            + (TotalMonths(p) - GraceMonths(p)) as real * PostGrace(p)
  {
    TotalPaidClosedForm(GraceMonths(p), InterestOnly(p), PostGrace(p), SimulatedMonths(p));
  }

  /** A grace period shorter than the term at a non-negative rate: the schedule
      the engine charges repays the loan exactly by the end of the term. */
  lemma LoanRepaidOverTerm(p: Params)
    requires 0 <= GraceMonths(p) < TotalMonths(p) && p.mortgageRate >= 0.0
    ensures ScheduleBalance(p.loanAmount, MonthlyMortgageRate(p), GraceMonths(p), PostGrace(p),
                            SimulatedMonths(p)) == 0.0
  {
    LoanRepaidAtTerm(p.loanAmount, MonthlyMortgageRate(p), GraceMonths(p), TotalMonths(p));
  }

  /** A grace period covering the whole term: no post-grace payment, and the
      whole loan is still owed at the end of the term. */
  lemma FullTermGraceLeavesLoan(p: Params)
    requires 0 <= TotalMonths(p) <= GraceMonths(p)
    ensures PostGrace(p) == 0.0
    ensures ScheduleBalance(p.loanAmount, MonthlyMortgageRate(p), GraceMonths(p), PostGrace(p),
                            SimulatedMonths(p)) == p.loanAmount
  {
    FullTermGraceNeverRepays(p.loanAmount, MonthlyMortgageRate(p), GraceMonths(p), TotalMonths(p));
  }

  /** The differences of months 1..k add up to the mortgage paid minus the rent paid. */
  lemma {:induction false} SumOfDiffs(p: Params, k: nat)
    ensures SumOf(MonthlyDiff(p), k) == TotalMortgagePaid(p, k) - TotalRentPaid(p, k)
    decreases k
  {
    if k > 0 {
      SumOfDiffs(p, k - 1);
      assert MonthlyDiff(p)(k) == MortgagePayAt(p, k) - Rent(p, k);
      assert TotalPaid(GraceMonths(p), InterestOnly(p), PostGrace(p), k) ==
             TotalPaid(GraceMonths(p), InterestOnly(p), PostGrace(p), k - 1) + MortgagePayAt(p, k);
    }
  }

  /** Investing the difference: the renter never holds uninvested cash. */
  lemma InvestedLeavesNoCash(p: Params, k: nat)
    requires p.investDifference
    ensures CashSavings(p, k) == 0.0
  {
    CashWhenInvesting(MonthlyDiff(p), k);
  }

  /** Saving the difference: the cash held is what the buyer paid in mortgage
      minus what the renter paid in rent. */
  lemma SavedCashIsNetOutflow(p: Params, k: nat)
    requires !p.investDifference
    ensures CashSavings(p, k) == TotalMortgagePaid(p, k) - TotalRentPaid(p, k)
  {
    CashWhenSaving(MonthlyDiff(p), k);
    SumOfDiffs(p, k);
  }

  /** Saving the difference: the portfolio only compounds, from the down
      payment, at the monthly return, over every simulated month. */
  lemma SavedPortfolioOnlyCompounds(p: Params, monthlyStockReturn: real, k: nat)
    requires !p.investDifference
    ensures Portfolio(p, monthlyStockReturn, k) == p.downPayment * Pow(1.0 + monthlyStockReturn, k)
  {
    PortfolioWhenSaving(p.downPayment, monthlyStockReturn, MonthlyDiff(p), k);
  }

  /** Investing the difference: the portfolio after k months is the down
      payment compounded k times plus each month's difference compounded over
      the months after it only, since growth is applied before the month's
      difference is added. */
  lemma InvestedPortfolioFutureValue(p: Params, monthlyStockReturn: real, k: nat)
    requires p.investDifference
    ensures Portfolio(p, monthlyStockReturn, k) ==
            p.downPayment * Pow(1.0 + monthlyStockReturn, k)
            + Contributions(monthlyStockReturn, MonthlyDiff(p), k, k)
  {
    PortfolioFutureValue(p.downPayment, monthlyStockReturn, MonthlyDiff(p), k);
  }

  /** Rent over the whole term: twelve charges of each year's rent, the
      initial rent compounded annually; with a non-zero growth rate the sum of
      the yearly factors is the geometric series ((1+g)^years - 1) / g. */
  lemma TotalRentOverTerm(p: Params)
    requires p.mortgageYears >= 0
    ensures TotalRentPaid(p, SimulatedMonths(p)) ==
            12.0 * p.rentInitial * GrowthSum(p.rentGrowthRate, p.mortgageYears)
    ensures p.rentGrowthRate * GrowthSum(p.rentGrowthRate, p.mortgageYears) ==
            Pow(1.0 + p.rentGrowthRate, p.mortgageYears) - 1.0
  {
    TotalRentWholeYears(p.rentInitial, p.rentGrowthRate, p.mortgageYears);
    GrowthSumGeometric(p.rentGrowthRate, p.mortgageYears);
  }

  /** The rent is flat within each 12-month block: every month of year y is
      charged the initial rent grown y times. */
  lemma RentFlatWithinYear(p: Params, y: nat, j: nat)
    requires j < 12
    ensures Rent(p, 12 * y + j + 1) == p.rentInitial * Pow(1.0 + p.rentGrowthRate, y)
  {
    SteppedRentClosedForm(p.rentInitial, p.rentGrowthRate, 12 * y + j + 1);
    RentInYear(p.rentInitial, p.rentGrowthRate, y, j);
  }

  /** Saving the difference with a monthly return equivalent to the annual one:
      after the whole term the portfolio is the down payment compounded
      annually over mortgage_years. */
  lemma PortfolioAnnualCompounding(p: Params, monthlyStockReturn: real)
    requires !p.investDifference && p.mortgageYears >= 0
    requires IsMonthlyRate(monthlyStockReturn, p.stockReturnRate)
    ensures Portfolio(p, monthlyStockReturn, SimulatedMonths(p)) ==
            p.downPayment * Pow(1.0 + p.stockReturnRate, p.mortgageYears)
  {
    PortfolioWhenSaving(p.downPayment, monthlyStockReturn, MonthlyDiff(p), SimulatedMonths(p));
    PowTwelveMonths(1.0 + monthlyStockReturn, p.mortgageYears);
  }

  /** The rent the engine charges in month m is the initial rent grown once
      per completed year. */
  lemma RentClosedForm(p: Params, m: int)
    requires m >= 1
    ensures Rent(p, m) == p.rentInitial * Pow(1.0 + p.rentGrowthRate, (m - 1) / 12)
  {
    SteppedRentClosedForm(p.rentInitial, p.rentGrowthRate, m);
  }

  /** The command line's default case: a 12,000,000 loan with 3,000,000 down at
      2.5% over 30 years, no grace period, 5% house growth, rent 27,000 growing
      2% a year, 10% stock return, the difference invested. */
  function DefaultParams(): Params
  {
    Params(
      loanAmount := 12000000.0, downPayment := 3000000.0, mortgageRate := 0.025,
      rentInitial := 27000.0, rentGrowthRate := 0.02, houseGrowthRate := 0.05,
      stockReturnRate := 0.10, gracePeriodYears := 0.0, investDifference := true,
      mortgageYears := 30)
  }

  lemma DefaultScenario()
    ensures TotalMonths(DefaultParams()) == 360 && GraceMonths(DefaultParams()) == 0
    ensures PostGrace(DefaultParams()) > InterestOnly(DefaultParams()) > 0.0
    ensures FinalHouseValue(DefaultParams()) == 15000000.0 * Pow(1.05, 30)
    ensures TotalMortgagePaid(DefaultParams(), SimulatedMonths(DefaultParams())) ==
            360.0 * PostGrace(DefaultParams())
  {
    var p := DefaultParams();
    AmortizedExceedsInterestOnly(p.loanAmount, MonthlyMortgageRate(p), 360);
    TotalMortgageOverTerm(p);
  }
}
