/**
 * The calculator's view-model: five input fields that the change handlers
 * overwrite, and the values recomputed from them on every change (loan amount,
 * the engine's results with NaN and infinities replaced by 0, eligibility,
 * the down-payment percentage and whether the eligibility card shows).
 */
module MortgageCalculator {
  import opened Wrappers
  import opened JsNumber
  import Mortgage

  /** The five input fields. */
  datatype Inputs = Inputs(
    propertyPrice: real,
    downPayment: real,
    interestRate: real,
    loanTenure: real,
    monthlyIncome: real)

  const InitialInputs: Inputs := Inputs(0.0, 0.0, 0.0, 1.0, 0.0)

  /** `value.replace(/,/g, '')`: the text with every comma dropped, the rest in order. */
  function StripCommas(s: string): (r: string)
    ensures ',' !in r
    ensures forall c :: c != ',' ==> multiset(r)[c] == multiset(s)[c]
    ensures |r| == |s| - multiset(s)[',']
  {
    if s == [] then []
    else
      assert s == [s[0]] + s[1..];
      (if s[0] == ',' then [] else [s[0]]) + StripCommas(s[1..])
  }

  /** A single character is dropped when it is a comma and kept otherwise. */
  lemma StripCommasOfChar(c: char)
    ensures StripCommas([c]) == if c == ',' then "" else [c]
  {
  }

  /** Stripping works piece by piece, so the characters kept stay in their order. */
  lemma {:induction false} StripCommasAppend(a: string, b: string)
    ensures StripCommas(a + b) == StripCommas(a) + StripCommas(b)
  {
    if a == [] {
      assert a + b == b;
    } else {
      assert (a + b)[0] == a[0];
      assert (a + b)[1..] == a[1..] + b;
      StripCommasAppend(a[1..], b);
    }
  }

  /** Text without commas is left as it is, so stripping twice is stripping once. */
  lemma {:induction false} StripCommasKeepsCommaFree(s: string)
    requires ',' !in s
    ensures StripCommas(s) == s
  {
    if s != [] {
      assert s == [s[0]] + s[1..];
      assert s[0] != ',';
      StripCommasKeepsCommaFree(s[1..]);
    }
  }

  /** Text of commas only becomes the empty string. */
  lemma {:induction false} StripCommasOfCommas(s: string)
    requires forall k :: 0 <= k < |s| ==> s[k] == ','
    ensures StripCommas(s) == ""
  {
    if s != [] { StripCommasOfCommas(s[1..]); }
  }

  /** `Number(text) || fallback`, where `parsed` is `Number(text)` and `None` is NaN. */
  function OrElse(parsed: Option<real>, fallback: real): (r: real)
    ensures parsed.Some? && parsed.value != 0.0 ==> r == parsed.value
    ensures (parsed.None? || parsed.value == 0.0) ==> r == fallback
  {
    if parsed.Some? && parsed.value != 0.0 then parsed.value else fallback
  }

  /**
   * The price, down-payment and income boxes: strip the commas, leave the field
   * as it is when the rest is not a number, store the number otherwise.
   */
  function TextFieldUpdate(current: real, text: string, toNumber: string -> Option<real>): (r: real)
    ensures toNumber(StripCommas(text)).None? ==> r == current
    ensures toNumber(StripCommas(text)).Some? ==> r == toNumber(StripCommas(text)).value
  {
    var parsed := toNumber(StripCommas(text));
    if parsed.None? then current else OrElse(parsed, 0.0)
  }

  /** Commas in the typed text make no difference. */
  lemma TextFieldIgnoresCommas(current: real, text: string, toNumber: string -> Option<real>)
    ensures TextFieldUpdate(current, text, toNumber) == TextFieldUpdate(current, StripCommas(text), toNumber)
  {
    StripCommasKeepsCommaFree(StripCommas(text));
  }

  /** Emptied text (or commas only) stores 0, given that `Number("")` is 0. */
  lemma EmptyTextStoresZero(current: real, text: string, toNumber: string -> Option<real>)
    requires toNumber("") == Some(0.0)
    requires forall k :: 0 <= k < |text| ==> text[k] == ','
    ensures TextFieldUpdate(current, text, toNumber) == 0.0
  {
    StripCommasOfCommas(text);
  }

  /** The interest-rate number box: `Number(value) || 0`, so NaN becomes 0. */
  function RateBoxUpdate(text: string, toNumber: string -> Option<real>): (r: real)
    ensures r == toNumber(text).GetOr(0.0)
  {
    OrElse(toNumber(text), 0.0)
  }

  /** The tenure number box: `Number(value) || 1`; it never stores 0 (nor NaN). */
  function TenureBoxUpdate(text: string, toNumber: string -> Option<real>): (r: real)
    ensures r != 0.0
    ensures toNumber(text).Some? && toNumber(text).value != 0.0 ==> r == toNumber(text).value
    ensures toNumber(text).None? || toNumber(text).value == 0.0 ==> r == 1.0
  {
    OrElse(toNumber(text), 1.0)
  }

  /** The five `useState` fields, overwritten by the change handlers. */
  class Calculator {
    var propertyPrice: real
    var downPayment: real
    var interestRate: real
    var loanTenure: real
    var monthlyIncome: real

    function Current(): Inputs
      reads this
    {
      Inputs(propertyPrice, downPayment, interestRate, loanTenure, monthlyIncome)
    }

    /** Every handler keeps a tenure other than 0. */
    ghost predicate Valid()
      reads this
    {
      HasTenure(Current())
    }

    constructor ()
      ensures Valid() && Current() == InitialInputs
    {
      propertyPrice, downPayment, interestRate, loanTenure, monthlyIncome := 0.0, 0.0, 0.0, 1.0, 0.0;
    }

    method OnPropertyPriceChange(text: string, toNumber: string -> Option<real>)
      requires Valid()
      modifies this
      ensures Valid()
      ensures Current() == old(Current()).(propertyPrice := TextFieldUpdate(old(propertyPrice), text, toNumber))
    {
      propertyPrice := TextFieldUpdate(propertyPrice, text, toNumber);
    }

    method OnDownPaymentChange(text: string, toNumber: string -> Option<real>)
      requires Valid()
      modifies this
      ensures Valid()
      ensures Current() == old(Current()).(downPayment := TextFieldUpdate(old(downPayment), text, toNumber))
    {
      downPayment := TextFieldUpdate(downPayment, text, toNumber);
    }

    method OnInterestRateChange(text: string, toNumber: string -> Option<real>)
      requires Valid()
      modifies this
      ensures Valid()
      ensures Current() == old(Current()).(interestRate := RateBoxUpdate(text, toNumber))
    {
      interestRate := RateBoxUpdate(text, toNumber);
    }

    /** The rate slider (0 to 15) stores its value as it is. */
    method OnInterestRateSlide(value: real)
      requires Valid()
      requires 0.0 <= value <= 15.0
      modifies this
      ensures Valid()
      ensures Current() == old(Current()).(interestRate := value)
    {
      interestRate := value;
    }

    method OnLoanTenureChange(text: string, toNumber: string -> Option<real>)
      requires Valid()
      modifies this
      ensures Valid()
      ensures Current() == old(Current()).(loanTenure := TenureBoxUpdate(text, toNumber))
    {
      loanTenure := TenureBoxUpdate(text, toNumber);
    }

    /** The tenure slider (1 to 30 in whole years) stores its value as it is. */
    method OnLoanTenureSlide(value: int)
      requires Valid()
      requires 1 <= value <= 30
      modifies this
      ensures Valid()
      ensures Current() == old(Current()).(loanTenure := value as real)
    {
      loanTenure := value as real;
    }

    method OnMonthlyIncomeChange(text: string, toNumber: string -> Option<real>)
      requires Valid()
      modifies this
      ensures Valid()
      ensures Current() == old(Current()).(monthlyIncome := TextFieldUpdate(old(monthlyIncome), text, toNumber))
    {
      monthlyIncome := TextFieldUpdate(monthlyIncome, text, toNumber);
    }
  }

  /** The calculator's invariant on its inputs: the tenure is never 0. */
  predicate HasTenure(i: Inputs) {
    i.loanTenure != 0.0
  }

  /**
   * In a state the handlers can reach, a tenure the engine accepts has at
   * least one instalment, so the formula's denominator is `(1+r)^n - 1` with n >= 1.
   */
  lemma ReachableTenureHasInstalments(i: Inputs)
    requires HasTenure(i) && EngineTenure(i.loanTenure).Some?
    ensures Mortgage.Months(EngineTenure(i.loanTenure).value) >= 1
  {
    Mortgage.PositiveTenureHasMonths(EngineTenure(i.loanTenure).value);
  }

  /** `propertyPrice - downPayment`, negative when the down payment is larger. */
  function LoanAmount(i: Inputs): (r: real)
    ensures r + i.downPayment == i.propertyPrice
  {
    i.propertyPrice - i.downPayment
  }

  /** The tenure as passed to the engine, when it comes to a whole number of months. */
  function EngineTenure(t: real): (r: Option<Mortgage.Tenure>)
    ensures r.Some? <==> t >= 0.0 && 12.0 * t == (12.0 * t).Floor as real
    ensures r.Some? ==> r.value == t
  {
    if t >= 0.0 && 12.0 * t == (12.0 * t).Floor as real then Some(t) else None
  }

  /** The EMI and total interest shown, after the NaN/infinity guard. */
  datatype Figures = Figures(emi: real, totalInterest: real)

  /**
   * The guarded engine results: each is the engine's rounded value when that
   * is finite and 0 otherwise, so both are always whole numbers.
   */
  function ShownFigures(i: Inputs): (r: Option<Figures>)
    ensures r.Some? <==> EngineTenure(i.loanTenure).Some?
    ensures r.Some? ==>
      var res := Mortgage.CalculateEmi(LoanAmount(i), i.interestRate, EngineTenure(i.loanTenure).value);
      && r.value.emi == r.value.emi.Floor as real
      && r.value.totalInterest == r.value.totalInterest.Floor as real
      && (res.emi.Finite? ==> r.value.emi == res.emi.value)
      && (!res.emi.Finite? ==> r.value.emi == 0.0)
      && (res.totalInterest.Finite? ==> r.value.totalInterest == res.totalInterest.value)
      && (!res.totalInterest.Finite? ==> r.value.totalInterest == 0.0)
  {
    match EngineTenure(i.loanTenure)
    case None => None
    case Some(years) =>
      var res := Mortgage.CalculateEmi(LoanAmount(i), i.interestRate, years);
      Some(Figures(FiniteOrZero(res.emi), FiniteOrZero(res.totalInterest)))
  }

  /** `checkEligibility` on the guarded EMI and the raw income. */
  function Eligibility(i: Inputs): (r: Option<Mortgage.EligibilityResult>)
    ensures r.Some? <==> ShownFigures(i).Some?
    ensures r.Some? ==> r.value == Mortgage.CheckEligibility(ShownFigures(i).value.emi, i.monthlyIncome)
  {
    match ShownFigures(i)
    case None => None
    case Some(f) => Some(Mortgage.CheckEligibility(f.emi, i.monthlyIncome))
  }

  /** At rate 0 the engine gives NaN, so the EMI and interest shown are 0. */
  lemma ZeroRateShowsZero(i: Inputs)
    requires i.interestRate == 0.0 && EngineTenure(i.loanTenure).Some?
    ensures ShownFigures(i) == Some(Figures(0.0, 0.0))
  {
    Mortgage.ZeroRateIsNaN(LoanAmount(i), EngineTenure(i.loanTenure).value);
  }

  /**
   * With tenure 0 there are no instalments: the formula divides by zero and
   * every value is infinite or NaN, so the EMI and interest shown are 0.
   */
  lemma ZeroTenureShowsZero(i: Inputs)
    requires i.loanTenure == 0.0
    ensures ShownFigures(i) == Some(Figures(0.0, 0.0))
  {
    var t := EngineTenure(i.loanTenure).value;
    assert Mortgage.Months(t) == 0;
    assert Pow(1.0 + Mortgage.MonthlyRate(i.interestRate), 0) == 1.0;
  }

  /** At rate 0 the EMI checked is 0, which passes for any income except 0 (0/0 is NaN). */
  lemma ZeroRateEligibility(i: Inputs)
    requires i.interestRate == 0.0 && EngineTenure(i.loanTenure).Some?
    ensures Eligibility(i).Some?
    ensures Eligibility(i).value.isEligible <==> i.monthlyIncome != 0.0
  {
    ZeroRateShowsZero(i);
  }

  /**
   * For a non-negative loan, a positive rate and a positive tenure the
   * guard changes nothing: the figures are the engine's, both non-negative.
   */
  lemma PositiveRateFigures(i: Inputs)
    requires LoanAmount(i) >= 0.0 && i.interestRate > 0.0
    requires EngineTenure(i.loanTenure).Some? && i.loanTenure > 0.0
    ensures var res := Mortgage.CalculateEmi(LoanAmount(i), i.interestRate, EngineTenure(i.loanTenure).value);
      && res.emi.Finite? && res.totalInterest.Finite?
      && ShownFigures(i) == Some(Figures(res.emi.value, res.totalInterest.value))
      && res.emi.value >= 0.0 && res.totalInterest.value >= 0.0
  {
    Mortgage.RoundedResultsNonNegative(LoanAmount(i), i.interestRate, EngineTenure(i.loanTenure).value);
  }

  /**
   * Unlike the engine's own check, the calculator's decision is taken on the
   * ROUNDED EMI: with a positive income it is eligible iff that EMI is at most
   * 40% of the income.
   */
  lemma PositiveRateEligibility(i: Inputs)
    requires LoanAmount(i) >= 0.0 && i.interestRate > 0.0
    requires EngineTenure(i.loanTenure).Some? && i.loanTenure > 0.0
    requires i.monthlyIncome > 0.0
    ensures var res := Mortgage.CalculateEmi(LoanAmount(i), i.interestRate, EngineTenure(i.loanTenure).value);
      && res.emi.Finite? && Eligibility(i).Some?
      && (Eligibility(i).value.isEligible <==> 100.0 * res.emi.value <= 40.0 * i.monthlyIncome)
  {
    PositiveRateFigures(i);
  }

  /** `Number.prototype.toFixed(0)` as a number: nearest integer, ties away from zero. */
  function RoundHalfAwayFromZero(v: real): (r: int)
    ensures v - 0.5 <= r as real <= v + 0.5
    ensures r as real == v + 0.5 ==> v > 0.0
    ensures r as real == v - 0.5 ==> v < 0.0
  {
    if v >= 0.0 then (v + 0.5).Floor else -((-v + 0.5).Floor)
  }

  /**
   * `downPaymentPercentage`: 0 unless the price is positive, otherwise the
   * down payment as a whole percentage of the price.
   */
  function DownPaymentPercentage(i: Inputs): (r: int)
    ensures i.propertyPrice <= 0.0 ==> r == 0
    ensures i.propertyPrice > 0.0 ==>
      var exact := i.downPayment / i.propertyPrice * 100.0;
      exact - 0.5 <= r as real <= exact + 0.5 && r == RoundHalfAwayFromZero(exact)
    ensures 0.0 <= i.downPayment <= i.propertyPrice ==> 0 <= r <= 100
  {
    if i.propertyPrice > 0.0 then
      var exact := i.downPayment / i.propertyPrice * 100.0;
      PercentageInRange(i.downPayment, i.propertyPrice);
      RoundHalfAwayFromZero(exact)
    else 0
  }

  lemma PercentageInRange(part: real, whole: real)
    requires whole > 0.0
    ensures 0.0 <= part <= whole ==> 0.0 <= part / whole * 100.0 <= 100.0
  {
    if 0.0 <= part <= whole {
      assert part / whole <= 1.0 by { assert part / whole * whole == part; }
    }
  }

  /** The eligibility card shows once price, down payment, rate or income is positive. */
  function ShowsEligibilityCard(i: Inputs): (shown: bool)
    ensures shown <==> (i.propertyPrice > 0.0 || i.downPayment > 0.0 || i.interestRate > 0.0 || i.monthlyIncome > 0.0)
    ensures !shown ==> DownPaymentPercentage(i) == 0
    ensures i.propertyPrice >= 0.0 && i.downPayment >= 0.0 && i.interestRate >= 0.0 && i.monthlyIncome >= 0.0 ==>
      (shown <==> (i.propertyPrice, i.downPayment, i.interestRate, i.monthlyIncome) != (0.0, 0.0, 0.0, 0.0))
  {
    i.propertyPrice > 0.0 || i.downPayment > 0.0 || i.interestRate > 0.0 || i.monthlyIncome > 0.0
  }

  /** The tenure plays no part in whether the card shows. */
  lemma CardIgnoresTenure(i: Inputs, t: real)
    ensures ShowsEligibilityCard(i.(loanTenure := t)) == ShowsEligibilityCard(i)
  {
  }

  /** In the initial state the card is hidden and the percentage is 0. */
  lemma InitialCardHidden()
    ensures !ShowsEligibilityCard(InitialInputs)
    ensures DownPaymentPercentage(InitialInputs) == 0
  {
  }

  /**
   * In the initial state the figures are 0 and the hidden verdict is
   * "not eligible", since the EMI 0 over the income 0 is NaN.
   */
  lemma InitialFigures()
    ensures ShownFigures(InitialInputs) == Some(Figures(0.0, 0.0))
    ensures Eligibility(InitialInputs).Some? && !Eligibility(InitialInputs).value.isEligible
  {
    var i := InitialInputs;
    assert EngineTenure(i.loanTenure) == Some(1.0);
    ZeroRateShowsZero(i);
    ZeroRateEligibility(i);
  }
}
