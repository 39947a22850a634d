# Mortgage calculator site: a verified model of its logic

The site is a Next.js marketing page with a mortgage (loan) calculator, a
product card fed by an external catalogue API, and a contact endpoint that
accepts sales leads. This project models, in Dafny, the logic under those
three pieces and proves what it promises:

- **the loan engine** (`utils/mortgage.ts`), module `Mortgage`: `calculateEMI`
  (level-payment annuity EMI, total payment and total interest, each passed
  through `Math.round`) and `checkEligibility` (EMI-to-income ratio, the
  40% rule, and the message);
- **the lead validator** (`app/api/contact/route.ts`), module `ContactRoute`:
  the `POST` handler's three guards (required fields, email pattern, phone
  pattern), in order, and the response each outcome produces;
- **the calculator view-model** (`app/components/MortgageCalculator.tsx`),
  module `MortgageCalculator`: the five input fields as a class whose change
  handlers overwrite them, and the values recomputed from them (loan amount,
  the engine results with NaN/infinity replaced by 0, eligibility, the
  down-payment percentage, whether the eligibility card shows);
- **the product view state** (`app/components/ProductDisplay.tsx`), module
  `ProductDisplay`: the `product`/`loading`/`error` state and its two fetch
  callbacks, the choice of view, and the values the product view derives.

Module `JsNumber` gives JavaScript numbers as `Finite(real) | PosInf | NegInf
| NaN`. Division by zero, `Math.round` and `isFinite` are spelled out, so
results that are NaN or infinite in the source are explicit values here.
`Math.round(x)` is `Floor(x + 1/2)`, so ties go towards +infinity. `Math.pow`
with a whole exponent is the recursive `Pow`. Finite arithmetic is exact
real arithmetic. Module `Wrappers` holds `Option`.

Three behaviours of the code differ from what a reader of a loan calculator
might expect, and the model follows the code:
- At rate 0 the code computes 0/0, so all three results are NaN
  (`Mortgage.ZeroRateIsNaN`); the calculator then shows an EMI of 0, not
  the principal divided by the number of months.
- The totals come from the unrounded EMI, not the rounded one, so the
  rounded total payment need not equal rounded EMI times months
  (`Mortgage.RoundedTotalIsNotRoundedEmiTimesMonths`).
- At income 0 the ratio is +infinity or NaN (−infinity for a negative EMI) and
  is returned as such. A negative income has no guard, so every non-negative
  EMI is eligible (`Mortgage.CheckEligibility`).

Request fields are `Option` values (missing or `null` is `None`). The body of
a request is `Unparseable | JsonNull | Parsed(request)`: on JSON `null`,
reading `body.name` throws inside the `try`, which gives the same 500 as a
parse failure. JSON has no NaN, so a NaN amount cannot arrive. JavaScript's
`Number()` on typed text is a parameter `toNumber: string -> Option<real>`,
where `None` is NaN. The timestamp of the success body is a parameter too.

## Model

| member | source | states |
|---|---|---|
| `JsNumber.RoundHalfUp` | utils/mortgage.ts:24-26 | `Math.round` of a finite value is an integer `r` with `v - 1/2 < r <= v + 1/2`, so ties go up |
| `JsNumber.RoundHalfUpIsUnique` | utils/mortgage.ts:24-26 | only one integer lies in that window, so the contract fixes the result |
| `JsNumber.RoundIsRounding` | utils/mortgage.ts:24-26 | `Math.round` meets `IsRoundingOf`: a whole number within 1/2 for a finite value; NaN and the infinities come back unchanged |
| `JsNumber.FiniteOrZero` | app/components/MortgageCalculator.tsx:24-25 | the NaN-or-infinite guard: a finite value is kept, anything else becomes 0 |
| `JsNumber.PowIsOneIff` | utils/mortgage.ts:17-18 | for a positive base, `x^n = 1` iff `x = 1` or `n = 0`; this is when the formula's denominator vanishes |
| `JsNumber.PowGrowthBound` | utils/mortgage.ts:17-21 | for `x >= 1`, `x^n >= 1` and `x^n - 1 <= n (x - 1) x^n`; this is what makes n instalments repay the loan |
| `Mortgage.Months` | utils/mortgage.ts:14 | the number of instalments is 12 times the tenure in years; the tenure type admits every non-negative tenure that comes to whole months (1.5 years is 18) |
| `Mortgage.MonthlyRate` | utils/mortgage.ts:13 | the monthly rate times 1200 is the annual percentage rate |
| `Mortgage.UnroundedEmi` | utils/mortgage.ts:16-18 | the annuity formula has a finite value iff its denominator `(1+r)^n - 1` is not 0 |
| `Mortgage.Unrounded` | utils/mortgage.ts:16-21 | total payment and total interest are finite exactly when the EMI is, and then the interest is the payment less the loan |
| `Mortgage.CalculateEmi` | utils/mortgage.ts:8-28 | each of the three returned fields is `Math.round` of the matching unrounded value; both totals come from the unrounded EMI |
| `Mortgage.EmiDefinedIff` | utils/mortgage.ts:13-18 | for a rate above -1200%, the unrounded EMI is finite iff the rate is non-zero and the tenure is positive (both directions) |
| `Mortgage.ZeroRateIsNaN` | utils/mortgage.ts:13-26 | at rate 0, EMI, total interest and total payment are NaN, before and after rounding |
| `Mortgage.UnroundedWhenDefined` | utils/mortgage.ts:16-21 | when the denominator is non-zero the EMI is finite and solves `emi ((1+r)^n - 1) = P r (1+r)^n`; total payment is `emi n` and total interest is `emi n - P` |
| `Mortgage.AnnuityBounds` | utils/mortgage.ts:16-21 | for loan >= 0, rate > 0 and tenure > 0: the unrounded EMI is finite and at least `P r` (the first month's interest); `emi * months >= loan`; total interest is exactly total payment minus the loan, and is non-negative |
| `Mortgage.RoundedResultsNonNegative` | utils/mortgage.ts:23-27 | under the same conditions the rounded EMI and interest are finite and non-negative, and the rounded total is at least loan − 1/2 |
| `Mortgage.RoundedTotalsOfWholeLoan` | utils/mortgage.ts:20-26 | for a whole-number loan, rounded interest is exactly rounded payment minus the loan (or the same non-finite value) |
| `Mortgage.RoundedTotalIsNotRoundedEmiTimesMonths` | utils/mortgage.ts:20-26 | a concrete 12-month loan with unrounded EMI 1.25 returns EMI 1 but total payment 15, not 12 |
| `Mortgage.IncomeRatio` | utils/mortgage.ts:37 | `(emi / income) * 100` is finite for a non-zero income; at income 0 it is +infinity, −infinity or NaN by the sign of the EMI |
| `Mortgage.CheckEligibility` | utils/mortgage.ts:36-47 | the decision uses the unrounded ratio and the rounded ratio is returned; the message is one of two fixed texts chosen by the decision. Income > 0: eligible iff `100 emi <= 40 income`. Income = 0: eligible iff emi < 0. Income < 0: eligible iff `100 emi >= 40 income`. The ratio is finite iff income ≠ 0 |
| `Mortgage.RatioBound` | utils/mortgage.ts:37-38 | `(emi / income) * 100 <= 40` without the division, one case per sign of the income |
| `Mortgage.JustOverThreshold` | utils/mortgage.ts:37-45 | EMI 4001 on income 10000 returns ratio 40 and is ineligible, with the refusal message |
| `Mortgage.AtThreshold` | utils/mortgage.ts:37-45 | EMI 4000 on income 10000 returns ratio 40 and is eligible |
| `Mortgage.ZeroIncome` | utils/mortgage.ts:37-45 | EMI 1000 on income 0 gives ratio +infinity and is ineligible |
| `ContactRoute.Post` | app/api/contact/route.ts:11-76 | 200 iff the body parsed and all three guards pass; every parsed body that fails a guard gets 400; an unreadable body gets exactly the 500 "Internal server error" response; status is "success" exactly for 200 and "error" otherwise; only 200 carries data: "Lead received" with the submitted name and email and the timestamp (no phone, no amounts); a 400 carries the message of the first failing guard |
| `ContactRoute.HasRequiredFields` | app/api/contact/route.ts:16 | the first guard: the three text fields are present and non-empty, the two amounts present and non-zero (JavaScript truthiness) |
| `ContactRoute.MatchesEmailRegex` | app/api/contact/route.ts:27-28 | the email pattern as a split `A@B.C` into three non-empty runs without whitespace or '@'; a matching text contains '@' and has at least 5 characters |
| `ContactRoute.MatchesPhoneRegex` | app/api/contact/route.ts:39-40 | the phone pattern: 10 to 15 characters, each an ASCII digit |
| `ContactRoute.MissingFieldComesFirst` | app/api/contact/route.ts:16-24 | a missing or empty text field, or a missing or zero amount, gives 400 "All fields are required", whatever the email and phone are |
| `ContactRoute.BadEmailComesBeforePhone` | app/api/contact/route.ts:26-36 | with every field present, a bad email gives 400 "Invalid email format", whatever the phone is |
| `ContactRoute.NegativeAmountsAreNotMissing` | app/api/contact/route.ts:16 | only falsy amounts are refused: negative property value and salary pass the first guard |
| `ContactRoute.EmailRegexIff` | app/api/contact/route.ts:27-28 | the email pattern holds iff: there is no whitespace; there is exactly one '@', with something before it; the part after '@' has a '.' that is neither its first nor its last character (both directions) |
| `ContactRoute.RegexGivesShape` | app/api/contact/route.ts:27 | forward direction of `EmailRegexIff` |
| `ContactRoute.ShapeGivesRegex` | app/api/contact/route.ts:27 | backward direction of `EmailRegexIff` |
| `ContactRoute.EmailExamples` | app/api/contact/route.ts:27-28 | accepted: "a@b.c" and "a.b@c.d.e". Refused: "a@b.", "a@@b.c", "a b@c.d" |
| `ContactRoute.PhoneExamples` | app/api/contact/route.ts:39-40 | accepted: 10 and 15 ASCII digits. Refused: 9 or 16 digits, a leading '+', a space, Devanagari digits |
| `MortgageCalculator.StripCommas` | app/components/MortgageCalculator.tsx:62 | the result has no comma, the same count of every other character, and is shorter by the number of commas |
| `MortgageCalculator.StripCommasOfChar` | app/components/MortgageCalculator.tsx:62 | a single character is dropped iff it is a comma |
| `MortgageCalculator.StripCommasAppend` | app/components/MortgageCalculator.tsx:62 | stripping a concatenation is concatenating the stripped parts, so with `StripCommasOfChar` the characters kept stay in their order ("1,000" becomes "1000") |
| `MortgageCalculator.StripCommasKeepsCommaFree` | app/components/MortgageCalculator.tsx:62 | text without commas is unchanged, so stripping is idempotent |
| `MortgageCalculator.StripCommasOfCommas` | app/components/MortgageCalculator.tsx:62 | text made only of commas becomes empty |
| `MortgageCalculator.OrElse` | app/components/MortgageCalculator.tsx:63 | the falsy fallback of `Number(text)`: a non-zero number is kept; NaN and 0 give the fallback |
| `MortgageCalculator.TextFieldUpdate` | app/components/MortgageCalculator.tsx:61-64 | if the comma-stripped text is not a number the field keeps its value; otherwise it takes that number |
| `MortgageCalculator.TextFieldIgnoresCommas` | app/components/MortgageCalculator.tsx:61-64 | typing commas makes no difference to the stored value |
| `MortgageCalculator.EmptyTextStoresZero` | app/components/MortgageCalculator.tsx:61-64 | emptied text, or commas only, stores 0 (given `Number("")` is 0) |
| `MortgageCalculator.RateBoxUpdate` | app/components/MortgageCalculator.tsx:100 | the rate box stores the number typed, and 0 for NaN |
| `MortgageCalculator.TenureBoxUpdate` | app/components/MortgageCalculator.tsx:130 | the tenure box never stores 0: a non-zero number is kept, NaN and 0 become 1 |
| `MortgageCalculator.ReachableTenureHasInstalments` | app/components/MortgageCalculator.tsx:130 | in a state the handlers can reach (tenure never 0), a tenure the engine accepts gives at least one monthly instalment |
| `MortgageCalculator.Calculator.constructor` | app/components/MortgageCalculator.tsx:13-17 | initial inputs are price 0, down payment 0, rate 0, tenure 1, income 0, and the invariant holds |
| `MortgageCalculator.Calculator.OnPropertyPriceChange` | app/components/MortgageCalculator.tsx:61-64 | only the price changes, to `TextFieldUpdate` of the old price; the tenure invariant is kept |
| `MortgageCalculator.Calculator.OnDownPaymentChange` | app/components/MortgageCalculator.tsx:81-84 | only the down payment changes, to `TextFieldUpdate` of its old value |
| `MortgageCalculator.Calculator.OnInterestRateChange` | app/components/MortgageCalculator.tsx:100 | only the rate changes, to `RateBoxUpdate` of the text |
| `MortgageCalculator.Calculator.OnInterestRateSlide` | app/components/MortgageCalculator.tsx:104-111 | only the rate changes, to the slider's value (0 to 15) |
| `MortgageCalculator.Calculator.OnLoanTenureChange` | app/components/MortgageCalculator.tsx:130 | only the tenure changes, to `TenureBoxUpdate` of the text; it is still non-zero |
| `MortgageCalculator.Calculator.OnLoanTenureSlide` | app/components/MortgageCalculator.tsx:134-141 | only the tenure changes, to the slider's whole value (1 to 30) |
| `MortgageCalculator.Calculator.OnMonthlyIncomeChange` | app/components/MortgageCalculator.tsx:160-163 | only the income changes, to `TextFieldUpdate` of its old value |
| `MortgageCalculator.LoanAmount` | app/components/MortgageCalculator.tsx:19 | loan plus down payment is the price; nothing stops the loan from being negative |
| `MortgageCalculator.EngineTenure` | app/components/MortgageCalculator.tsx:22 | the tenure passes to the engine, unchanged, iff it is >= 0 and comes to a whole number of months |
| `MortgageCalculator.ShownFigures` | app/components/MortgageCalculator.tsx:21-27 | the EMI and interest shown are whole numbers: each is the engine's rounded value when that is finite, and 0 when it is NaN or infinite |
| `MortgageCalculator.ZeroTenureShowsZero` | app/components/MortgageCalculator.tsx:21-27 | at tenure 0 the formula divides by zero and both figures shown are 0 |
| `MortgageCalculator.Eligibility` | app/components/MortgageCalculator.tsx:29-31 | the verdict is `checkEligibility` of the guarded EMI shown and the raw income, defined exactly when the figures are |
| `MortgageCalculator.ZeroRateShowsZero` | app/components/MortgageCalculator.tsx:21-27 | at rate 0 the EMI and interest shown are both 0 |
| `MortgageCalculator.ZeroRateEligibility` | app/components/MortgageCalculator.tsx:29-31 | at rate 0 the EMI checked is 0, which is eligible iff the income is not 0 |
| `MortgageCalculator.PositiveRateFigures` | app/components/MortgageCalculator.tsx:21-27 | for loan >= 0, rate > 0, tenure > 0 the guard changes nothing and both figures are non-negative |
| `MortgageCalculator.PositiveRateEligibility` | app/components/MortgageCalculator.tsx:29-31 | the calculator checks the rounded EMI against the raw income: with positive income it is eligible iff `100 * roundedEmi <= 40 * income` |
| `MortgageCalculator.RoundHalfAwayFromZero` | app/components/MortgageCalculator.tsx:33 | `toFixed(0)` as a number: within 1/2 of the value, ties away from zero |
| `MortgageCalculator.DownPaymentPercentage` | app/components/MortgageCalculator.tsx:33 | 0 unless the price is positive, otherwise `down / price * 100` rounded to the nearest integer, ties away from zero; between 0 and 100 when `0 <= down <= price` |
| `MortgageCalculator.ShowsEligibilityCard` | app/components/MortgageCalculator.tsx:204 | the card shows iff price, down payment, rate or income is > 0, so negative entries alone (such as an income of −5000) leave it hidden; a hidden card means a percentage of 0; with non-negative inputs it shows iff one of the four is not 0 |
| `MortgageCalculator.CardIgnoresTenure` | app/components/MortgageCalculator.tsx:204 | changing the tenure never shows or hides the eligibility card |
| `MortgageCalculator.InitialCardHidden` | app/components/MortgageCalculator.tsx:204 | in the initial state the card is hidden and the percentage is 0 |
| `MortgageCalculator.InitialFigures` | app/components/MortgageCalculator.tsx:13-31 | in the initial state the figures are 0 and the hidden verdict is ineligible, because 0/0 is NaN |
| `ProductDisplay.OnFetchSuccess` | app/components/ProductDisplay.tsx:28-31 | success stores the product and clears loading; the error is not touched |
| `ProductDisplay.OnFetchFailure` | app/components/ProductDisplay.tsx:32-35 | failure sets the error to "Failed to load product" and clears loading; the product is not touched |
| `ProductDisplay.SelectView` | app/components/ProductDisplay.tsx:38-67 | skeleton iff loading. Product view iff not loading, no truthy error and a product; it shows that product. An error view shows the error when it is a non-empty text and "Failed to load product" otherwise, so its message is never empty |
| `ProductDisplay.FetchOutcomes` | app/components/ProductDisplay.tsx:21-67 | the initial state shows the skeleton; after success only the product is set and it is shown; after failure only the error is set and its text is shown |
| `ProductDisplay.ProductDisplayState.constructor` | app/components/ProductDisplay.tsx:21-23 | starts with product null, loading true, error null |
| `ProductDisplay.ProductDisplayState.FetchSucceeded` | app/components/ProductDisplay.tsx:28-31 | the new state is `OnFetchSuccess` of the old one |
| `ProductDisplay.ProductDisplayState.FetchFailed` | app/components/ProductDisplay.tsx:32-35 | the new state is `OnFetchFailure` of the old one |
| `ProductDisplay.OriginalPrice` | app/components/ProductDisplay.tsx:69 | the finite quotient `price / (1 - d/100)` except at d = 100, where it is +infinity, −infinity or NaN by the sign of the price |
| `ProductDisplay.Savings` | app/components/ProductDisplay.tsx:70 | the savings are finite iff the discount is not 100%, and then the original price less the price |
| `ProductDisplay.OriginalPriceRecoversPrice` | app/components/ProductDisplay.tsx:69-70 | for 0 <= discount < 100: the original price is finite and `originalPrice * (1 - d/100) = price`; savings are `price d / (100 - d)`, non-negative for a non-negative price |
| `ProductDisplay.FullDiscountIsInfinite` | app/components/ProductDisplay.tsx:69-70 | at a 100% discount a positive price gives infinite original price and savings |
| `ProductDisplay.StockTier` | app/components/ProductDisplay.tsx:91 | green iff stock > 50, yellow iff 20 < stock <= 50, red iff stock <= 20 |
| `ProductDisplay.StockTierMonotone` | app/components/ProductDisplay.tsx:91 | more stock never gives a worse badge |
| `ProductDisplay.FilledStarsFromCount` | app/components/ProductDisplay.tsx:116-119 | among stars `from`..4 the filled count is `floor(rating) - from`, clamped to `[0, 5 - from]` |
| `ProductDisplay.FilledStars` | app/components/ProductDisplay.tsx:116-119 | `min(5, max(0, floor(rating)))` of the five stars are filled |
| `ProductDisplay.FilledStarsCount` | app/components/ProductDisplay.tsx:116-119 | the filled stars are the first ones: star `i` is filled iff `i` is below the filled count |
| `ProductDisplay.ShownDiscountElements` | app/components/ProductDisplay.tsx:85-151 | the discount badge, the struck-through original price and the savings line all show, and exactly when the discount is > 0 |

## Left out

- `formatCurrency` (utils/mortgage.ts:55-61): a thin wrapper over `Intl.NumberFormat`, a library outside the repository.
- IEEE-754 behaviour: rounding of finite arithmetic, overflow of large values to infinity, and signed zero. Values are exact reals, and NaN/infinity come only from division by zero and what follows from it.
- `Mortgage.CalculateEmi`: takes a tenure that comes to a whole, non-negative number of months (type `Mortgage.Tenure`), because `Math.pow` with a fractional or negative exponent is not modelled.
- `MortgageCalculator.EngineTenure`: returns `None` for a negative tenure or one that is not a whole number of months (such as 1.01 years). The tenure box can store these, and the source then calls `Math.pow` with a negative or fractional exponent, which is not modelled; `ShownFigures` and `Eligibility` are `None` for them.
- `Mortgage.CheckEligibility`: takes finite EMI and income. Its only caller passes the guarded (finite) EMI; an infinite income (typed as "Infinity" or "1e999") is not modelled, as the next line says.
- JavaScript `Number()` parsing: a parameter of the handlers. Inputs that parse to ±Infinity (such as "Infinity") are not modelled.
- `toLocaleString` and `toFixed` text rendering: the down-payment percentage is modelled as its integer value, so the text "-0" for a tiny negative percentage is not captured. Also left out: the `Math.floor` applied for display (lines 180 and 198) to figures that are already whole.
- The range sliders' values are taken as what the browser supplies for `min`/`max`/`step` (rate in [0, 15], tenure a whole number in [1, 30]). These are preconditions of the slider handlers.
- All JSX and CSS, `next/image`, ProductCard.tsx and page.tsx: presentation only. React's `useMemo` and render scheduling are modelled as plain recomputation from the inputs.
- The `fetch`/`res.json()` network I/O: modelled as the success or failure event it ends in. A response whose JSON is not a product is not modelled, and the product's fields are taken as well typed.
- `req.json()` parsing, `NextResponse` and `console.log`/`console.error` are not modelled. The `new Date().toISOString()` timestamp is a parameter of `ContactRoute.Post`.
- JavaScript truthiness and coercion of request fields that are not strings or numbers (e.g. a numeric `email` given to `regex.test`): fields are `Option<string>` and `Option<real>`.
