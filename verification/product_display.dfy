/**
 * The product card's view state: a load state set by the fetch callbacks,
 * the rule choosing skeleton, error or product view, and the values the
 * product view derives (original price, savings, stock badge, stars, and the
 * elements shown only for a discount).
 */
module ProductDisplay {
  import opened Wrappers
  import opened JsNumber

  /** The fields of the fetched product. */
  datatype Product = Product(
    id: int,
    title: string,
    description: string,
    category: string,
    price: real,
    discountPercentage: real,
    rating: real,
    stock: real,
    brand: string,
    thumbnail: string,
    availabilityStatus: string)

  /** The three `useState` fields. */
  datatype LoadState = LoadState(product: Option<Product>, loading: bool, error: Option<string>)

  const FailedToLoad: string := "Failed to load product"

  const InitialState: LoadState := LoadState(None, true, None)

  /** The success callback: store the product, stop loading; the error is left as it was. */
  function OnFetchSuccess(s: LoadState, data: Product): (r: LoadState)
    ensures r.product == Some(data) && !r.loading && r.error == s.error
  {
    s.(product := Some(data), loading := false)
  }

  /** The failure callback: set the fixed error, stop loading; the product is left as it was. */
  function OnFetchFailure(s: LoadState): (r: LoadState)
    ensures r.error == Some(FailedToLoad) && !r.loading && r.product == s.product
  {
    s.(error := Some(FailedToLoad), loading := false)
  }

  /** The three views the component renders. */
  datatype View = Skeleton | ErrorView(message: string) | ProductView(product: Product)

  /**
   * The render's early returns: loading first, then an error or a missing
   * product (showing the error, or the default text when it is empty), then the product.
   */
  function SelectView(s: LoadState): (v: View)
    ensures v.Skeleton? <==> s.loading
    ensures v.ProductView? <==> !s.loading && !IsTruthyText(s.error) && s.product.Some?
    ensures v.ProductView? ==> v.product == s.product.value
    ensures v.ErrorView? ==> v.message != ""
    ensures v.ErrorView? ==> v.message == (if IsTruthyText(s.error) then s.error.value else FailedToLoad)
  {
    if s.loading then Skeleton
    else if IsTruthyText(s.error) || s.product.None? then
      ErrorView(if IsTruthyText(s.error) then s.error.value else FailedToLoad)
    else ProductView(s.product.value)
  }

  /** Before the fetch settles the skeleton shows; after it, exactly its outcome. */
  lemma FetchOutcomes(data: Product)
    ensures SelectView(InitialState) == Skeleton
    ensures OnFetchSuccess(InitialState, data) == LoadState(Some(data), false, None)
    ensures SelectView(OnFetchSuccess(InitialState, data)) == ProductView(data)
    ensures OnFetchFailure(InitialState) == LoadState(None, false, Some(FailedToLoad))
    ensures SelectView(OnFetchFailure(InitialState)) == ErrorView(FailedToLoad)
  {
  }

  /** The component's state, set step by step in the fetch callbacks. */
  class ProductDisplayState {
    var product: Option<Product>
    var loading: bool
    var error: Option<string>

    function State(): LoadState
      reads this
    {
      LoadState(product, loading, error)
    }

    constructor ()
      ensures State() == InitialState
    {
      product, loading, error := None, true, None;
    }

    /** `setProduct(data); setLoading(false)`. */
    method FetchSucceeded(data: Product)
      modifies this
      ensures State() == OnFetchSuccess(old(State()), data)
    {
      product := Some(data);
      loading := false;
    }

    /** `setError("Failed to load product"); setLoading(false)`. */
    method FetchFailed()
      modifies this
      ensures State() == OnFetchFailure(old(State()))
    {
      error := Some(FailedToLoad);
      loading := false;
    }
  }

  /** `price / (1 - discountPercentage / 100)`. */
  function OriginalPrice(price: real, discountPercentage: real): (r: Num)
    ensures discountPercentage != 100.0 ==> r == Finite(price / (1.0 - discountPercentage / 100.0))
    ensures discountPercentage == 100.0 ==> r == (if price > 0.0 then PosInf else if price < 0.0 then NegInf else NaN)
  {
    Div(price, 1.0 - discountPercentage / 100.0)
  }

  /** `originalPrice - price`. */
  function Savings(price: real, discountPercentage: real): (r: Num)
    ensures r.Finite? <==> discountPercentage != 100.0
    ensures r.Finite? ==> r.value == OriginalPrice(price, discountPercentage).value - price
  {
    Minus(OriginalPrice(price, discountPercentage), price)
  }

  /**
   * For a discount in [0, 100) the original price is finite and taking the
   * discount off it gives back the price; the savings are `price d / (100 - d)`,
   * non-negative for a non-negative price.
   */
  lemma OriginalPriceRecoversPrice(price: real, d: real)
    requires 0.0 <= d < 100.0
    ensures OriginalPrice(price, d).Finite?
    ensures OriginalPrice(price, d).value * (1.0 - d / 100.0) == price
    ensures Savings(price, d) == Finite(price * d / (100.0 - d))
    ensures price >= 0.0 ==> Savings(price, d).value >= 0.0
  {
    var f := 1.0 - d / 100.0;
    assert f > 0.0;
    var o := price / f;
    assert OriginalPrice(price, d) == Finite(o);
    assert o * f == price;
    assert f == (100.0 - d) / 100.0;
    assert o == 100.0 * price / (100.0 - d);
    assert o - price == price * d / (100.0 - d);
    if price >= 0.0 {
      assert price * d >= 0.0;
    }
  }

  /** At a 100% discount the division is by zero: infinite for a positive price. */
  lemma FullDiscountIsInfinite(price: real)
    requires price > 0.0
    ensures OriginalPrice(price, 100.0) == PosInf
    ensures Savings(price, 100.0) == PosInf
  {
  }

  /** The stock badge colour. */
  datatype StockBadge = Green | Yellow | Red

  /** Green above 50, yellow above 20, red otherwise. */
  function StockTier(stock: real): (b: StockBadge)
    ensures b == Green <==> stock > 50.0
    ensures b == Yellow <==> 20.0 < stock <= 50.0
    ensures b == Red <==> stock <= 20.0
  {
    if stock > 50.0 then Green else if stock > 20.0 then Yellow else Red
  }

  function BadgeRank(b: StockBadge): nat {
    match b
    case Red => 0
    case Yellow => 1
    case Green => 2
  }

  /** More stock never gives a worse badge. */
  lemma StockTierMonotone(s1: real, s2: real)
    requires s1 <= s2
    ensures BadgeRank(StockTier(s1)) <= BadgeRank(StockTier(s2))
  {
  }

  /** Star `i` (of five) is filled when `i < Math.floor(rating)`. */
  predicate IsStarFilled(i: int, rating: real) {
    i < rating.Floor
  }

  /** The number of filled stars among stars `from` to 4. */
  function FilledStarsFrom(from: nat, rating: real): (n: nat)
    requires from <= 5
    ensures n <= 5 - from
    decreases 5 - from
  {
    if from == 5 then 0
    else (if IsStarFilled(from, rating) then 1 else 0) + FilledStarsFrom(from + 1, rating)
  }

  /** The number of filled stars out of five: `floor(rating)`, kept within 0 to 5. */
  function FilledStars(rating: real): (n: nat)
    ensures n == Clamp(rating.Floor, 0, 5)
  {
    FilledStarsFromCount(0, rating);
    FilledStarsFrom(0, rating)
  }

  /** Among stars `from` to 4, the filled ones are those below `floor(rating)`. */
  lemma {:induction false} FilledStarsFromCount(from: nat, rating: real)
    requires from <= 5
    ensures FilledStarsFrom(from, rating) == Clamp(rating.Floor - from, 0, 5 - from)
    decreases 5 - from
  {
    if from < 5 { FilledStarsFromCount(from + 1, rating); }
  }

  function Clamp(x: int, lo: int, hi: int): int {
    if x < lo then lo else if x > hi then hi else x
  }

  /** Five stars, `min(5, max(0, floor(rating)))` of them filled, the first ones. */
  lemma FilledStarsCount(rating: real)
    ensures forall i :: 0 <= i < 5 ==> (IsStarFilled(i, rating) <==> i < FilledStars(rating))
  {
    FilledStarsFromCount(0, rating);
  }

  /** The discount badge, the struck-through original price and the savings line. */
  datatype DiscountElements = DiscountElements(badge: bool, originalPrice: bool, savingsLine: bool)

  /** All three appear under the same condition, a positive discount. */
  function ShownDiscountElements(p: Product): (r: DiscountElements)
    ensures r.badge == r.originalPrice == r.savingsLine
    ensures r.badge <==> p.discountPercentage > 0.0
  {
    var shown := p.discountPercentage > 0.0;
    DiscountElements(shown, shown, shown)
  }
}
