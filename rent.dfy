/** The rent projector: rent is flat within each 12-month block and escalates
    by the annual growth rate at the start of months 13, 25, 37, ... */
module RentProjector {
  import opened RealPow

  /** The rent charged in month m (months are numbered from 1) as the loop
      produces it: the previous month's rent, multiplied by the growth factor
      when m - 1 is a positive multiple of 12. */
  function SteppedRent(rentInitial: real, growth: real, m: int): real
    requires m >= 1
    decreases m
  {
    if m == 1 then rentInitial
    else if (m - 1) % 12 == 0 then SteppedRent(rentInitial, growth, m - 1) * (1.0 + growth)
    else SteppedRent(rentInitial, growth, m - 1)
  }

  /** The closed form of the rent of month m: the initial rent grown once per
      completed year. */
  function RentAt(rentInitial: real, growth: real, m: int): real
    requires m >= 1
  {
    rentInitial * Pow(1.0 + growth, (m - 1) / 12)
  }

  /** The rent the loop charges is the closed form in every month. */
  lemma {:induction false} SteppedRentClosedForm(rentInitial: real, growth: real, m: int)
    requires m >= 1
    ensures SteppedRent(rentInitial, growth, m) == RentAt(rentInitial, growth, m)
    decreases m
  {
    if m > 1 {
      SteppedRentClosedForm(rentInitial, growth, m - 1);
      var y := (m - 2) / 12;
      if (m - 1) % 12 == 0 {
        assert (m - 1) / 12 == y + 1;
        assert Pow(1.0 + growth, y + 1) == (1.0 + growth) * Pow(1.0 + growth, y);
      } else {
        assert (m - 1) / 12 == y;
      }
    }
  }

  /** Every month of year y (months 12y+1 .. 12y+12) is charged the same rent,
      the initial rent grown y times. */
  lemma RentInYear(rentInitial: real, growth: real, y: nat, j: nat)
    requires j < 12
    ensures RentAt(rentInitial, growth, 12 * y + j + 1) == rentInitial * Pow(1.0 + growth, y)
  {
    assert (12 * y + j) / 12 == y;
  }

  /** Twelve months later the rent has grown by exactly one annual step. */
  lemma RentAnnualStep(rentInitial: real, growth: real, m: int)
    requires m >= 1
    ensures RentAt(rentInitial, growth, m + 12) == RentAt(rentInitial, growth, m) * (1.0 + growth)
  {
    var y := (m - 1) / 12;
    assert (m + 11) / 12 == y + 1;
    assert Pow(1.0 + growth, y + 1) == (1.0 + growth) * Pow(1.0 + growth, y);
  }

  /** Total rent paid over months 1..k. */
  function TotalRent(rentInitial: real, growth: real, k: nat): real
  {
    if k == 0 then 0.0 else TotalRent(rentInitial, growth, k - 1) + SteppedRent(rentInitial, growth, k)
  }

  /** j monthly charges of c. */
  function Charges(j: nat, c: real): real
  {
    j as real * c
  }

  lemma OneMoreCharge(j: nat, c: real)
    requires j > 0
    ensures Charges(j - 1, c) + c == Charges(j, c)
  {
  }

  /** Months start+1 .. start+j all charged the same rent c add j * c to the total. */
  lemma {:induction false} TotalRentOfFlatMonths(rentInitial: real, growth: real, start: nat, j: nat, c: real)
    requires forall m :: start < m <= start + j ==> SteppedRent(rentInitial, growth, m) == c
    ensures TotalRent(rentInitial, growth, start + j) == TotalRent(rentInitial, growth, start) + Charges(j, c)
    decreases j
  {
    if j > 0 {
      TotalRentOfFlatMonths(rentInitial, growth, start, j - 1, c);
      assert TotalRent(rentInitial, growth, start + j) ==
             TotalRent(rentInitial, growth, start + (j - 1)) + c;
      OneMoreCharge(j, c);
    }
  }

  /** A whole year y adds twelve charges of that year's rent. */
  lemma TotalRentOfYear(rentInitial: real, growth: real, y: nat)
    ensures TotalRent(rentInitial, growth, 12 * y + 12) ==
            TotalRent(rentInitial, growth, 12 * y) + 12.0 * (rentInitial * Pow(1.0 + growth, y))
  {
    var yearly := rentInitial * Pow(1.0 + growth, y);
    forall m | 12 * y < m <= 12 * y + 12
      ensures SteppedRent(rentInitial, growth, m) == yearly
    {
      RentInYear(rentInitial, growth, y, m - 12 * y - 1);
      SteppedRentClosedForm(rentInitial, growth, m);
    }
    TotalRentOfFlatMonths(rentInitial, growth, 12 * y, 12, yearly);
    assert Charges(12, yearly) == 12.0 * yearly;
  }

  /** Sum of the first `years` annual growth factors. */
  function GrowthSum(growth: real, years: nat): real
  {
    if years == 0 then 0.0 else GrowthSum(growth, years - 1) + Pow(1.0 + growth, years - 1)
  }

  /** Rent over whole years: twelve times the yearly rents, each the initial
      rent compounded annually. */
  lemma {:induction false} TotalRentWholeYears(rentInitial: real, growth: real, years: nat)
    ensures TotalRent(rentInitial, growth, 12 * years) ==
            12.0 * rentInitial * GrowthSum(growth, years)
  {
    if years > 0 {
      TotalRentWholeYears(rentInitial, growth, years - 1);
      TotalRentOfYear(rentInitial, growth, years - 1);
      assert 12 * (years - 1) + 12 == 12 * years;
    }
  }

  /** The geometric-series form of GrowthSum for a non-zero growth rate. */
  lemma {:induction false} GrowthSumGeometric(growth: real, years: nat)
    ensures growth * GrowthSum(growth, years) == Pow(1.0 + growth, years) - 1.0
  {
    if years > 0 {
      GrowthSumGeometric(growth, years - 1);
      var x := Pow(1.0 + growth, years - 1);
      assert Pow(1.0 + growth, years) == (1.0 + growth) * x;
      assert growth * GrowthSum(growth, years) == growth * GrowthSum(growth, years - 1) + growth * x;
    }
  }
}
