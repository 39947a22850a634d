/**
 * JavaScript numbers seen through their values: a finite real, one of the two
 * infinities, or NaN. Finite arithmetic is exact (IEEE-754 rounding is not
 * modelled); what is modelled is where a JavaScript expression stops being a
 * finite number, as with a division by zero.
 */
module JsNumber {

  datatype Num = Finite(value: real) | PosInf | NegInf | NaN {

    /** `Number.isFinite`: false for both infinities and for NaN. */
    predicate IsFinite() { Finite? }
  }

  /** `a / b` on two finite numbers. */
  function Div(a: real, b: real): Num {
    if b != 0.0 then Finite(a / b)
    else if a > 0.0 then PosInf
    else if a < 0.0 then NegInf
    else NaN
  }

  /** `x * k` for a finite `k`. */
  function Times(x: Num, k: real): Num {
    match x
    case Finite(v) => Finite(v * k)
    case PosInf => if k > 0.0 then PosInf else if k < 0.0 then NegInf else NaN
    case NegInf => if k > 0.0 then NegInf else if k < 0.0 then PosInf else NaN
    case NaN => NaN
  }

  /** `x - k` for a finite `k`. */
  function Minus(x: Num, k: real): Num {
    match x
    case Finite(v) => Finite(v - k)
    case _ => x
  }

  /** `x <= k` for a finite `k`: every comparison with NaN is false. */
  predicate AtMost(x: Num, k: real) {
    match x
    case Finite(v) => v <= k
    case NegInf => true
    case PosInf => false
    case NaN => false
  }

  /** `Math.round` on a finite value: the nearest integer, ties towards +infinity. */
  function RoundHalfUp(v: real): (r: int)
    ensures v - 0.5 < r as real <= v + 0.5
  {
    (v + 0.5).Floor
  }

  /** The integer `RoundHalfUp` picks is the only one within the half-open window. */
  lemma RoundHalfUpIsUnique(v: real, k: int)
    requires v - 0.5 < k as real <= v + 0.5
    ensures k == RoundHalfUp(v)
  {
  }

  /** `Math.round`: infinities and NaN come back unchanged. */
  function Round(x: Num): Num {
    match x
    case Finite(v) => Finite(RoundHalfUp(v) as real)
    case _ => x
  }

  /** `r` is what `Math.round` returns for `x`. */
  predicate IsRoundingOf(r: Num, x: Num) {
    if x.Finite? then
      r.Finite? && r.value == r.value.Floor as real && x.value - 0.5 < r.value <= x.value + 0.5
    else
      r == x
  }

  lemma RoundIsRounding(x: Num)
    ensures IsRoundingOf(Round(x), x)
  {
  }

  /** `isNaN(x) || !isFinite(x) ? 0 : x`, the guard the calculator puts on engine results. */
  function FiniteOrZero(x: Num): (r: real)
    ensures x.Finite? ==> r == x.value
    ensures !x.Finite? ==> r == 0.0
  {
    if x.Finite? then x.value else 0.0
  }

  /** `Math.pow(x, n)` for a whole exponent. */
  function Pow(x: real, n: nat): real {
    if n == 0 then 1.0 else x * Pow(x, n - 1)
  }

  lemma {:induction false} PowOfOne(n: nat)
    ensures Pow(1.0, n) == 1.0
  {
    if n > 0 { PowOfOne(n - 1); }
  }

  lemma {:induction false} PowAboveOne(x: real, n: nat)
    requires x > 1.0 && n >= 1
    ensures Pow(x, n) > 1.0
  {
    if n > 1 { PowAboveOne(x, n - 1); }
  }

  lemma {:induction false} PowBetweenZeroAndOne(x: real, n: nat)
    requires 0.0 < x < 1.0 && n >= 1
    ensures 0.0 < Pow(x, n) < 1.0
  {
    if n > 1 {
      PowBetweenZeroAndOne(x, n - 1);
      var p := Pow(x, n - 1);
      assert x * p < 1.0 * p;
    }
  }

  /** For a positive base other than one, a positive power is never one. */
  lemma PowIsOneIff(x: real, n: nat)
    requires x > 0.0
    ensures Pow(x, n) == 1.0 <==> x == 1.0 || n == 0
  {
    if x == 1.0 { PowOfOne(n); }
    else if n > 0 {
      if x > 1.0 { PowAboveOne(x, n); } else { PowBetweenZeroAndOne(x, n); }
    }
  }

  /**
   * For a base at least one, `x^n - 1 <= n (x - 1) x^n`: the telescoping sum
   * `x^n - 1 = (x - 1)(x^0 + ... + x^(n-1))` has n terms, none above `x^n`.
   */
  lemma {:induction false} PowGrowthBound(x: real, n: nat)
    requires x >= 1.0
    ensures Pow(x, n) >= 1.0
    ensures Pow(x, n) - 1.0 <= n as real * (x - 1.0) * Pow(x, n)
  {
    if n > 0 {
      PowGrowthBound(x, n - 1);
      var p := Pow(x, n - 1);
      var m := (n - 1) as real;
      assert Pow(x, n) == x * p;
      assert n as real == m + 1.0;
      GrowthStep(x - 1.0, p, m);
    }
  }

  /** One step of `PowGrowthBound`, with `t = x - 1`. */
  lemma GrowthStep(t: real, p: real, m: real)
    requires t >= 0.0 && p >= 1.0 && m >= 0.0
    requires p - 1.0 <= m * t * p
    ensures (1.0 + t) * p >= 1.0
    ensures (1.0 + t) * p - 1.0 <= (m + 1.0) * t * ((1.0 + t) * p)
  {
    var q := (m + 1.0) * t * p;
    assert (1.0 + t) * p - 1.0 == (p - 1.0) + t * p;
    assert (p - 1.0) + t * p <= q;
    assert q * t >= 0.0;
    assert (m + 1.0) * t * ((1.0 + t) * p) == q + q * t;
  }
}
