/**
 * The loan engine: the level-payment (annuity) EMI with its totals, and the
 * EMI-to-income eligibility check.
 */
module Mortgage {
  import opened JsNumber

  /** What `calculateEMI` returns; each field may be NaN or infinite. */
  datatype EmiResult = EmiResult(emi: Num, totalInterest: Num, totalPayment: Num)

  /** What `checkEligibility` returns. */
  datatype EligibilityResult = EligibilityResult(isEligible: bool, emiToIncomeRatio: Num, message: string)

  /** The largest EMI-to-income percentage that is still eligible. */
  const MaxRatioPercent: real := 40.0

  const EligibleMessage: string := "\U{2705} You are eligible for this loan"
  const IneligibleMessage: string := "\U{274C} EMI exceeds 40% of your monthly income"

  /** The monthly fractional rate of an annual percentage rate. */
  function MonthlyRate(interestRate: real): (r: real)
    ensures 1200.0 * r == interestRate
  {
    interestRate / 12.0 / 100.0
  }

  /**
   * A tenure in years that comes to a whole, non-negative number of months,
   * so that `Math.pow` is taken to a natural exponent (1.5 years is 18 months).
   */
  type Tenure = t: real | 0.0 <= t && 12.0 * t == (12.0 * t).Floor as real witness 0.0

  /** `tenureYears * 12`, the number of monthly instalments. */
  function Months(tenureYears: Tenure): (m: nat)
    ensures m as real == 12.0 * tenureYears
  {
    (12.0 * tenureYears).Floor
  }

  /** A positive tenure has at least one instalment. */
  lemma PositiveTenureHasMonths(tenureYears: Tenure)
    requires tenureYears > 0.0
    ensures Months(tenureYears) >= 1
  {
  }

  /** The annuity formula `P r (1+r)^n / ((1+r)^n - 1)` before rounding. */
  function UnroundedEmi(loanAmount: real, interestRate: real, tenureYears: Tenure): (emi: Num)
    ensures emi.Finite? <==> Pow(1.0 + MonthlyRate(interestRate), Months(tenureYears)) != 1.0
  {
    var r := MonthlyRate(interestRate);
    var growth := Pow(1.0 + r, Months(tenureYears));
    Div(loanAmount * r * growth, growth - 1.0)
  }

  /** The three values `calculateEMI` computes before it rounds them. */
  function Unrounded(loanAmount: real, interestRate: real, tenureYears: Tenure): (u: EmiResult)
    ensures u.emi == UnroundedEmi(loanAmount, interestRate, tenureYears)
    ensures u.totalPayment.Finite? <==> u.emi.Finite?
    ensures u.totalInterest.Finite? <==> u.emi.Finite?
    ensures u.totalPayment.Finite? ==> u.totalInterest == Finite(u.totalPayment.value - loanAmount)
  {
    var emi := UnroundedEmi(loanAmount, interestRate, tenureYears);
    var totalPayment := Times(emi, Months(tenureYears) as real);
    EmiResult(emi, Minus(totalPayment, loanAmount), totalPayment)
  }

  /**
   * `calculateEMI`: every field is `Math.round` of the matching unrounded
   * value, and both totals come from the unrounded EMI.
   */
  function CalculateEmi(loanAmount: real, interestRate: real, tenureYears: Tenure): (res: EmiResult)
    ensures var u := Unrounded(loanAmount, interestRate, tenureYears);
      && IsRoundingOf(res.emi, u.emi)
      && IsRoundingOf(res.totalInterest, u.totalInterest)
      && IsRoundingOf(res.totalPayment, u.totalPayment)
  {
    var u := Unrounded(loanAmount, interestRate, tenureYears);
    RoundIsRounding(u.emi);
    RoundIsRounding(u.totalInterest);
    RoundIsRounding(u.totalPayment);
    EmiResult(Round(u.emi), Round(u.totalInterest), Round(u.totalPayment))
  }

  /**
   * For a rate above -1200% (so that 1 + r > 0) the formula has a value
   * exactly when the rate is non-zero and the tenure is positive.
   */
  lemma EmiDefinedIff(loanAmount: real, interestRate: real, tenureYears: Tenure)
    requires interestRate > -1200.0
    ensures UnroundedEmi(loanAmount, interestRate, tenureYears).Finite?
            <==> interestRate != 0.0 && tenureYears > 0.0
  {
    var r := MonthlyRate(interestRate);
    PowIsOneIff(1.0 + r, Months(tenureYears));
  }

  /** At rate 0 the numerator and the denominator are both 0: every field is NaN. */
  lemma ZeroRateIsNaN(loanAmount: real, tenureYears: Tenure)
    ensures Unrounded(loanAmount, 0.0, tenureYears) == EmiResult(NaN, NaN, NaN)
    ensures CalculateEmi(loanAmount, 0.0, tenureYears) == EmiResult(NaN, NaN, NaN)
  {
    PowOfOne(Months(tenureYears));
  }

  /**
   * For a non-negative loan, a positive rate and a positive tenure, the
   * unrounded EMI is finite, non-negative, at least the first month's interest,
   * and its instalments repay at least the loan, so the total interest is
   * non-negative and is exactly the total payment less the loan.
   */
  lemma AnnuityBounds(loanAmount: real, interestRate: real, tenureYears: Tenure)
    requires loanAmount >= 0.0 && interestRate > 0.0 && tenureYears > 0.0
    ensures var u := Unrounded(loanAmount, interestRate, tenureYears);
      && u.emi.Finite? && u.totalPayment.Finite? && u.totalInterest.Finite?
      && u.emi.value >= loanAmount * MonthlyRate(interestRate) >= 0.0
      && u.totalPayment.value == u.emi.value * Months(tenureYears) as real
      && u.totalPayment.value >= loanAmount
      && u.totalInterest.value == u.totalPayment.value - loanAmount >= 0.0
  {
    var r := MonthlyRate(interestRate);
    var n := Months(tenureYears);
    PositiveTenureHasMonths(tenureYears);
    var p := Pow(1.0 + r, n);
    PowAboveOne(1.0 + r, n);
    PowGrowthBound(1.0 + r, n);
    UnroundedWhenDefined(loanAmount, interestRate, tenureYears);
    var u := Unrounded(loanAmount, interestRate, tenureYears);
    var e := u.emi.value;
    InstalmentBounds(loanAmount, r, p, n as real, e);
    assert u.totalPayment.value == e * n as real;
    assert u.totalInterest.value == e * n as real - loanAmount;
  }

  /**
   * Where the formula's denominator is not zero, all three values are finite:
   * the EMI solves `emi ((1+r)^n - 1) = P r (1+r)^n` and the totals follow from it.
   */
  lemma UnroundedWhenDefined(loanAmount: real, interestRate: real, tenureYears: Tenure)
    requires Pow(1.0 + MonthlyRate(interestRate), Months(tenureYears)) != 1.0
    ensures var u := Unrounded(loanAmount, interestRate, tenureYears);
      var r := MonthlyRate(interestRate);
      var p := Pow(1.0 + r, Months(tenureYears));
      var n := Months(tenureYears) as real;
      && u.emi.Finite?
      && u.emi.value * (p - 1.0) == loanAmount * r * p
      && u.totalPayment == Finite(u.emi.value * n)
      && u.totalInterest == Finite(u.emi.value * n - loanAmount)
  {
    var r := MonthlyRate(interestRate);
    var p := Pow(1.0 + r, Months(tenureYears));
    var e := loanAmount * r * p / (p - 1.0);
    assert UnroundedEmi(loanAmount, interestRate, tenureYears) == Finite(e);
    assert e * (p - 1.0) == loanAmount * r * p;
  }

  /** The real arithmetic behind `AnnuityBounds`. */
  lemma InstalmentBounds(l: real, r: real, p: real, n: real, e: real)
    requires l >= 0.0 && r > 0.0 && p > 1.0 && n >= 0.0
    requires p - 1.0 <= n * r * p
    requires e * (p - 1.0) == l * r * p
    ensures e >= l * r >= 0.0
    ensures e * n >= l
  {
    var d := p - 1.0;
    NonNegativeProduct(l, r);
    // (e - l r) d = l r p - l r d = l r
    assert (e - l * r) * d == l * r;
    SignOfQuotient(e - l * r, d, l * r);
    // (e n - l) d = n l r p - l d = l (n r p - d)
    NonNegativeProduct(l, n * r * p - d);
    assert (e * n - l) * d == l * (n * r * p - d);
    SignOfQuotient(e * n - l, d, l * (n * r * p - d));
  }

  lemma SignOfQuotient(x: real, d: real, y: real)
    requires d > 0.0 && y >= 0.0 && x * d == y
    ensures x >= 0.0
  {
    assert x == y / d;
  }

  lemma NonNegativeProduct(a: real, b: real)
    requires a >= 0.0 && b >= 0.0
    ensures a * b >= 0.0
  {
  }

  /** Under the conditions of `AnnuityBounds` the rounded values are non-negative too. */
  lemma RoundedResultsNonNegative(loanAmount: real, interestRate: real, tenureYears: Tenure)
    requires loanAmount >= 0.0 && interestRate > 0.0 && tenureYears > 0.0
    ensures var res := CalculateEmi(loanAmount, interestRate, tenureYears);
      && res.emi.Finite? && res.emi.value >= 0.0
      && res.totalInterest.Finite? && res.totalInterest.value >= 0.0
      && res.totalPayment.Finite? && res.totalPayment.value >= loanAmount - 0.5
  {
    AnnuityBounds(loanAmount, interestRate, tenureYears);
  }

  /**
   * The two totals are rounded separately; for a whole-number loan their
   * rounded values still differ by exactly the loan.
   */
  lemma RoundedTotalsOfWholeLoan(loanAmount: int, interestRate: real, tenureYears: Tenure)
    ensures var res := CalculateEmi(loanAmount as real, interestRate, tenureYears);
      if res.totalPayment.Finite? then
        res.totalInterest == Finite(res.totalPayment.value - loanAmount as real)
      else
        res.totalInterest == res.totalPayment
  {
    var u := Unrounded(loanAmount as real, interestRate, tenureYears);
    if u.totalPayment.Finite? {
      var v := u.totalPayment.value;
      assert (v - loanAmount as real + 0.5).Floor == (v + 0.5).Floor - loanAmount;
    }
  }

  /**
   * The rounded total payment need not be the rounded EMI times the months:
   * a 12-month loan whose unrounded EMI is 1.25 rounds it to 1 but the
   * total, 15, stays 15.
   */
  lemma RoundedTotalIsNotRoundedEmiTimesMonths()
    ensures var res := CalculateEmi(20475.0 / 16384.0, 1200.0, 1.0);
      && res.emi == Finite(1.0)
      && res.totalPayment == Finite(15.0)
      && res.totalPayment.value != res.emi.value * Months(1.0) as real
  {
    var p := Pow(2.0, 12);
    assert p == 4096.0 by {
      assert Pow(2.0, 1) == 2.0;
      assert Pow(2.0, 2) == 4.0;
      assert Pow(2.0, 3) == 8.0;
      assert Pow(2.0, 4) == 16.0;
      assert Pow(2.0, 5) == 32.0;
      assert Pow(2.0, 6) == 64.0;
      assert Pow(2.0, 7) == 128.0;
      assert Pow(2.0, 8) == 256.0;
      assert Pow(2.0, 9) == 512.0;
      assert Pow(2.0, 10) == 1024.0;
      assert Pow(2.0, 11) == 2048.0;
    }
    assert MonthlyRate(1200.0) == 1.0;
    assert UnroundedEmi(20475.0 / 16384.0, 1200.0, 1.0) == Finite(1.25);
  }

  /** The unrounded EMI-to-income percentage `(emi / income) * 100`. */
  function IncomeRatio(emi: real, monthlyIncome: real): (ratio: Num)
    ensures monthlyIncome != 0.0 ==> ratio == Finite(emi / monthlyIncome * 100.0)
    ensures monthlyIncome == 0.0 ==> ratio == (if emi > 0.0 then PosInf else if emi < 0.0 then NegInf else NaN)
  {
    Times(Div(emi, monthlyIncome), 100.0)
  }

  /**
   * `checkEligibility`: the decision is taken on the unrounded ratio, the
   * rounded one is returned, and the message follows the decision. By the
   * sign of the income: a positive income is eligible iff the EMI is at most
   * 40% of it; a zero income only for a negative EMI (the ratio is then
   * -infinity; it is +infinity or NaN otherwise); a negative income flips the
   * comparison, so every non-negative EMI is eligible.
   */
  function CheckEligibility(emi: real, monthlyIncome: real): (res: EligibilityResult)
    ensures IsRoundingOf(res.emiToIncomeRatio, IncomeRatio(emi, monthlyIncome))
    ensures res.message == if res.isEligible then EligibleMessage else IneligibleMessage
    ensures monthlyIncome > 0.0 ==> (res.isEligible <==> 100.0 * emi <= MaxRatioPercent * monthlyIncome)
    ensures monthlyIncome == 0.0 ==> (res.isEligible <==> emi < 0.0)
    ensures monthlyIncome < 0.0 ==> (res.isEligible <==> 100.0 * emi >= MaxRatioPercent * monthlyIncome)
    ensures res.emiToIncomeRatio.Finite? <==> monthlyIncome != 0.0
  {
    var ratio := IncomeRatio(emi, monthlyIncome);
    var isEligible := AtMost(ratio, MaxRatioPercent);
    RoundIsRounding(ratio);
    RatioBound(emi, monthlyIncome);
    EligibilityResult(
      isEligible,
      Round(ratio),
      if isEligible then EligibleMessage else IneligibleMessage)
  }

  /** `(emi / income) * 100 <= 40` without the division, by the sign of the income. */
  lemma RatioBound(emi: real, income: real)
    ensures income > 0.0 ==> (emi / income * 100.0 <= 40.0 <==> 100.0 * emi <= 40.0 * income)
    ensures income < 0.0 ==> (emi / income * 100.0 <= 40.0 <==> 100.0 * emi >= 40.0 * income)
  {
    if income != 0.0 {
      var q := emi / income;
      assert q * income == emi;
      if income > 0.0 {
        assert q * 100.0 <= 40.0 <==> q * 100.0 * income <= 40.0 * income;
      } else {
        assert q * 100.0 <= 40.0 <==> q * 100.0 * income >= 40.0 * income;
      }
    }
  }

  /** An EMI of 40.01% of the income rounds to 40% and is still refused. */
  lemma JustOverThreshold()
    ensures CheckEligibility(4001.0, 10000.0)
            == EligibilityResult(false, Finite(40.0), IneligibleMessage)
  {
    assert IncomeRatio(4001.0, 10000.0) == Finite(40.01);
  }

  /** An EMI of exactly 40% of the income is accepted. */
  lemma AtThreshold()
    ensures CheckEligibility(4000.0, 10000.0)
            == EligibilityResult(true, Finite(40.0), EligibleMessage)
  {
    assert IncomeRatio(4000.0, 10000.0) == Finite(40.0);
  }

  /** With no income a positive EMI gives an infinite ratio and is refused. */
  lemma ZeroIncome()
    ensures CheckEligibility(1000.0, 0.0)
            == EligibilityResult(false, PosInf, IneligibleMessage)
  {
  }
}
