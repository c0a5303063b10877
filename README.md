# House investment calculator — verified model of the simulation engine

The house-investment-calculator compares two ways of spending the same money
over a mortgage term:

- **Buy.** Pay a down payment and a Taiwan-bank style mortgage. The mortgage is
  interest-only during a grace period, then a level annuity payment over the
  remaining months. The house then appreciates at an annual growth rate.
- **Rent.** Invest the down payment in stocks and pay a rent that steps up once
  a year. Each month, the signed difference between the mortgage payment and
  the rent is either invested in the portfolio or kept as uninvested cash.

This project models the engine `calculate_investment` and the command-line
flag parser `str2bool`. It proves what they compute over exact real
arithmetic. Reals stand for the program's floats.

Modules:

- `RealPow` (realpow.dfy) covers the arithmetic the engine borrows from Python:
  - natural powers `Pow`;
  - `float ** int` with negative exponents (`IntPow`);
  - `int(float)` as truncation toward zero (`Trunc`).
- `Amortization` (amortization.dfy) holds:
  - the post-grace payment;
  - the principal-balance recurrence that gives that payment its meaning;
  - the grace-then-amortize payment schedule and its total.
- `RentProjector` (rent.dfy) covers the rent stepped up every 12 months, its
  closed form, and the rent totals.
- `PortfolioAccumulator` (portfolio.dfy) covers the renter's portfolio (growth
  first, then the month's difference) and the uninvested cash.
- `Calculator` (calculator.dfy) holds the engine itself. `CalculateInvestment`
  is a method whose `while` loop updates the five running figures the way the
  source's `for` loop does. Loop invariants tie each figure to its
  specification function over the months done so far. The lemmas after the
  method state what those functions mean.
- `CliFlags` (str2bool.dfy) holds `str2bool`.

What the engine does not check, and how it fails:

- Callers catch `AssertionError` (calculator_gui.py:642, app.py:80) as though
  the engine validated its parameters. It performs no validation, so the
  model accepts every input.
  - A non-positive term simply runs no months.
  - A grace period at least as long as the term gives a zero post-grace
    payment (`FullTermGraceLeavesLoan`).
- Over exact reals, the engine's only failure is Python's `ZeroDivisionError`
  for `0.0 ** -k`. It happens when the house growth factor is zero and
  `mortgage_years` is negative. The model returns `Failure(ZeroDivision)` in
  exactly that case.

## Model

| member | source | states |
|---|---|---|
| RealPow.IntPow | calculator.py:90 | `x ** k` for an integer exponent is the k-th power for k >= 0 and the reciprocal of the (-k)-th power for k < 0, defined only for a non-zero base when k < 0 |
| RealPow.PowTwelveMonths | calculator.py:54 | Compounding a monthly factor over 12·years months equals compounding its twelve-month power once a year |
| RealPow.Trunc | calculator.py:33 | `int()` of a float truncates toward zero: 0 <= r <= x < r+1 for x >= 0, and r-1 < x <= r <= 0 for x < 0 |
| Amortization.PostGracePayment | calculator.py:38-49 | For remaining > 0 and i > 0 the payment satisfies the annuity identity p·((1+i)^n − 1) = loan·i·(1+i)^n. For remaining > 0 and i <= 0 it is the straight-line loan/remaining. For remaining <= 0 it is 0 |
| Amortization.BalanceClosedForm | calculator.py:45 | After k level payments the owed principal b satisfies i·b = loan·i·(1+i)^k − pay·((1+i)^k − 1), the identity behind the annuity formula |
| Amortization.PaymentAmortizesLoan | calculator.py:38-47 | At any non-negative rate the post-grace payment brings the principal to exactly 0 after the remaining months |
| Amortization.BalanceWithoutInterest | calculator.py:47 | At rate 0 each payment reduces the principal by its full amount |
| Amortization.InterestOnlyKeepsPrincipal | calculator.py:67 | Paying loan·i each month leaves the principal unchanged |
| Amortization.AmortizedExceedsInterestOnly | calculator.py:45 | For a positive loan and rate, the post-grace payment is strictly larger than the interest-only payment, which is positive |
| Amortization.TotalPaidClosedForm | calculator.py:64-70 | Total paid over k months = (grace months within k)·interest-only + (the other months)·post-grace payment |
| Amortization.GraceKeepsPrincipal | calculator.py:66-67 | During the grace months the schedule's principal stays at the loan amount |
| Amortization.ScheduleAfterGrace | calculator.py:64-70 | After the grace months the schedule is an ordinary annuity on the untouched principal |
| Amortization.LoanRepaidAtTerm | calculator.py:38-70 | With 0 <= grace < term and rate >= 0, the schedule leaves nothing owed at the end of the term |
| Amortization.FullTermGraceNeverRepays | calculator.py:48-49 | When the grace period covers the term, the post-grace payment is 0 and the whole principal is still owed at the end |
| RentProjector.SteppedRentClosedForm | calculator.py:73-74 | The rent the loop charges in month m equals rent_initial·(1+g)^((m−1) div 12) |
| RentProjector.RentInYear | calculator.py:73-74 | All twelve months of year y are charged rent_initial·(1+g)^y |
| RentProjector.RentAnnualStep | calculator.py:73-74 | The rent twelve months later is the current rent times (1+g) |
| RentProjector.TotalRentOfYear | calculator.py:75 | A whole year adds twelve charges of that year's rent to the total |
| RentProjector.TotalRentWholeYears | calculator.py:73-75 | Rent over `years` whole years = 12·rent_initial·Σ_{y<years}(1+g)^y |
| RentProjector.GrowthSumGeometric | calculator.py:73-75 | g·Σ_{y<years}(1+g)^y = (1+g)^years − 1 (the geometric series) |
| PortfolioAccumulator.CashWhenInvesting | calculator.py:84-85 | When the difference is invested, the cash stays 0 in every month |
| PortfolioAccumulator.CashWhenSaving | calculator.py:86-87 | When the difference is saved, the cash is the plain sum of the differences so far |
| PortfolioAccumulator.PortfolioWhenSaving | calculator.py:78 | When the difference is saved, the portfolio is start·(1+r)^k |
| PortfolioAccumulator.ContributionsGrow | calculator.py:78 | One more month of growth multiplies every earlier contribution's value by (1+r) |
| PortfolioAccumulator.PortfolioFutureValue | calculator.py:78-85 | When the difference is invested, the portfolio is start·(1+r)^k + Σ_m diff(m)·(1+r)^(k−m): a month's difference does not grow in its own month |
| Calculator.RentNext | calculator.py:73-74 | The loop's conditional rent step turns the rent of month m−1 into the rent of month m |
| Calculator.AccumulatorsNext | calculator.py:78-87 | One loop iteration (growth, then routing of the difference) turns the portfolio and cash after m−1 months into those after m months |
| Calculator.CalculateInvestment | calculator.py:14-118 | Fails exactly when 0.0 ** negative would be evaluated. Otherwise every returned field is one of: the input echoed; the mortgage, rent, portfolio and cash totals over max(0, 12·years) months; (loan+down)·(1+h)^years; down + total mortgage; portfolio + cash; the grace pay (loan·i if grace months > 0, else 0); the post-grace payment. The loop keeps each running figure equal to its specification function over the months done |
| Calculator.TotalMortgageOverTerm | calculator.py:64-70 | With 0 <= grace months <= term months, total mortgage = grace·loan·i + (term − grace)·post-grace payment |
| Calculator.LoanRepaidOverTerm | calculator.py:38-70 | With a grace period shorter than the term and a non-negative rate, the payments the engine charges repay the loan exactly at the end of the term |
| Calculator.FullTermGraceLeavesLoan | calculator.py:48-49 | When the grace period covers the whole term, the post-grace payment is 0 and the loan is never repaid |
| Calculator.SumOfDiffs | calculator.py:83 | The monthly differences over months 1..k add up to total mortgage − total rent |
| Calculator.InvestedLeavesNoCash | calculator.py:84-85 | Investing the difference: the engine's cash figure is 0 after any number of months |
| Calculator.SavedCashIsNetOutflow | calculator.py:86-87 | Saving the difference: cash after k months = mortgage paid − rent paid over those months |
| Calculator.SavedPortfolioOnlyCompounds | calculator.py:78-87 | Saving the difference: the portfolio after k months is down_payment·(1+r_m)^k |
| Calculator.InvestedPortfolioFutureValue | calculator.py:78-85 | Investing the difference: the portfolio is the down payment compounded plus each month's difference compounded only over the later months |
| Calculator.PortfolioAnnualCompounding | calculator.py:54 | If (1+r_m)^12 = 1+r (the monthly rate the engine derives), saving the difference ends the term with down_payment·(1+r)^years |
| Calculator.TotalRentOverTerm | calculator.py:73-75 | Rent over the term = 12·rent_initial·Σ_{y<years}(1+g)^y, and g times that sum is (1+g)^years − 1 |
| Calculator.RentFlatWithinYear | calculator.py:73-74 | Rent is constant within each 12-month block: month 12y+j+1 (j < 12) is charged rent_initial·(1+g)^y |
| Calculator.RentClosedForm | calculator.py:73-74 | The rent of month m is rent_initial·(1+g)^((m−1) div 12) |
| Calculator.DefaultScenario | calculator.py:184-193 | With the command line's defaults: 360 months, no grace months, the post-grace payment is above the (positive) interest-only payment, the house ends at 15,000,000·1.05^30, and the mortgage total is 360 post-grace payments |
| CliFlags.Lower | calculator.py:180 | Lower-casing keeps the length and lowers each character |
| CliFlags.Str2Bool | calculator.py:177-180 | A flag is on only for a true bool or a text of 1 to 4 characters |
| CliFlags.Str2BoolText | calculator.py:180 | A text flag is on if and only if it spells one of yes, true, t, y, 1 in any mix of case |
| CliFlags.Str2BoolOnNonText | calculator.py:178-179 | None gives false; a bool is returned unchanged |
| CliFlags.LowerIdempotent | calculator.py:180 | Lower-casing twice is lower-casing once |
| CliFlags.Str2BoolIgnoresCase | calculator.py:180 | Lower-casing the text first does not change the verdict |
| CliFlags.Str2BoolSamples | calculator.py:193 | "True", "YES", "1" switch --invest_diff on; "False", "no", "0" and "" switch it off |

## Left out

- The UTF-8 reconfiguration of standard output (calculator.py:5-12): environment I/O.
- `print_dashboard` and `fmt` (calculator.py:120-175): console formatting only.
- The argparse entry point (calculator.py:182-210) is command-line plumbing.
  Only its defaults appear, in `DefaultScenario`.
- The graphical front end (calculator_gui.py) and the web page (app.py) are not part of this model.
- Calculator.CalculateInvestment takes the monthly stock return as an input.
  It does not compute the fractional power (1+r)^(1/12) of calculator.py:54, which exact reals cannot evaluate.
  Lemmas that need its meaning assume `IsMonthlyRate`: (1+r_m)^12 = 1+r with 1+r_m >= 0.
  For r < −1 Python returns a complex number here; that case is not modelled.
- Calculator.CalculateInvestment ties the returned cash and portfolio to `CashSavings` and `Portfolio`. It does not restate the invest/save consequences in its own `ensures`. Those consequences are the lemmas `InvestedLeavesNoCash`, `SavedCashIsNetOutflow`, `SavedPortfolioOnlyCompounds` and `InvestedPortfolioFutureValue`.
- Floating point: IEEE rounding, overflow to infinity and NaN are not modelled. Every property holds exactly over reals, not within a tolerance.
- Calculator.CalculateInvestment returns `Success` in two cases where Python's floats make the engine raise.
  In both the Python engine raises and the model does not.
  - A tiny positive monthly rate, such as mortgage_rate = 1e-16, rounds `1 + i` to 1.0. Then `(1+i)**n - 1` is 0.0 and calculator.py:45 raises `ZeroDivisionError`.
  - Float `**` raises `OverflowError` when the result is out of range, at calculator.py:45 or calculator.py:90. An example is house_growth_rate = 1.0 with mortgage_years = 1100.
- `mortgage_years` is modelled as an integer, so `int(mortgage_years * 12)` is 12·years.
  Every caller passes an integer (calculator_gui.py:617, the `int` argument at calculator.py:187, and app.py).
  A fractional `mortgage_years` is not modelled.
- The returned dictionary lacks several keys that callers read: `total_months`, `grace_months` and the per-month sequences `monthly_mortgage_payments`, `monthly_stock_investments`, `monthly_buy_net_worths` and `monthly_rent_net_worths` (calculator_gui.py:718-764, 806 and 845-846, app.py:72-74).
  The engine does not produce them (calculator.py:98-118), so the model's `Summary` does not have them either.
- Parameter validation: callers catch `AssertionError`, but the engine asserts nothing, so there is no validation to model.
- A grace period covering the whole term silently yields a zero post-grace payment and a loan that is never repaid.
  Whether that is intended is open. The model keeps the code's behaviour and states its consequence in `FullTermGraceLeavesLoan`.
- CliFlags.Lower lowers ASCII letters only. Python's `str.lower()` also lowers other Unicode letters, and can change a string's length.
  `Lower` therefore differs from Python on every non-ASCII capital, such as "Ä".
  In the Unicode case tables only U+0130 (which lowers to "i" plus a combining dot) and U+212A (which lowers to "k") lower to text containing ASCII.
  Neither can produce yes, true, t, y or 1, so `Str2Bool`'s verdict equals Python's for every text.
  Values other than None and bool reach `str2bool` only through their text `str(v)`, which is taken as given.
