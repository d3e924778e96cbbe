/**
 * The return metrics (`qlib/metrics/returns.py`): the guards that make the
 * Sharpe and Sortino ratios undefined, and the maximum drawdown of the
 * compounded return curve. The square root is a parameter; what the model
 * needs of it is that it is zero at zero and positive on positive numbers.
 */
module Metrics {
  import opened Base
  import opened SeriesOps

  const DefaultAnnualization: int := 252

  /** What the model assumes of `np.sqrt` on non-negative numbers. */
  ghost predicate RootLike(sqrt: real -> real) {
    sqrt(0.0) == 0.0 && forall x :: x > 0.0 ==> sqrt(x) > 0.0
  }

  /** `dropna()`: the defined values, in order. */
  function DropNa(xs: Values): (r: seq<real>)
    ensures |r| <= |xs|
  {
    if xs == [] then []
    else if xs[0].Some? then [xs[0].value] + DropNa(xs[1..])
    else DropNa(xs[1..])
  }

  /** `dropna()` keeps exactly the defined values: a value is kept iff it occurs defined. */
  lemma {:induction false} DropNaDefined(xs: Values)
    ensures forall v :: v in DropNa(xs) <==> Some(v) in xs
  {
    if xs != [] {
      DropNaDefined(xs[1..]);
      assert xs == [xs[0]] + xs[1..];
    }
  }

  /** The arithmetic mean. */
  function Mean(xs: seq<real>): real
    requires |xs| > 0
  {
    Sum(xs) / (|xs| as real)
  }

  /** `x * y`, kept behind a name so that squares stay products of two terms. */
  function Product(x: real, y: real): real { x * y }

  /** `d ** 2`. */
  function Square(d: real): real { Product(d, d) }

  /** The sum of the squared deviations from `m`. */
  function SquaredDeviations(xs: seq<real>, m: real): real {
    if xs == [] then 0.0 else Square(xs[0] - m) + SquaredDeviations(xs[1..], m)
  }

  /** `std()` squared: the sample variance, with `n - 1` in the denominator. */
  function SampleVariance(xs: seq<real>): real
    requires |xs| >= 2
  {
    SquaredDeviations(xs, Mean(xs)) / ((|xs| - 1) as real)
  }

  /** The sum of `min(x, 0)` squared. */
  function DownsideSquares(xs: seq<real>): real {
    if xs == [] then 0.0 else Square(Min(xs[0], 0.0)) + DownsideSquares(xs[1..])
  }

  /**
   * `sharpe`: NaN for an empty series, NaN when the standard deviation is
   * NaN (fewer than two defined returns) or zero, NaN for a negative
   * annualization (the root of a negative number); otherwise
   * `mean / std * sqrt(annualization)`.
   */
  function Sharpe(rets: Values, annualization: int, sqrt: real -> real): Option<real> {
    if |rets| == 0 then None
    else
      var clean := DropNa(rets);
      if |clean| < 2 then None
      else
        var vol := sqrt(SampleVariance(clean));
        if vol == 0.0 || annualization < 0 then None
        else Some(Mean(clean) / vol * sqrt(annualization as real))
  }

  /**
   * `sortino`: the missing returns are dropped first; NaN when none is left,
   * NaN when the mean of `min(r, 0)` squared is zero, NaN for a negative
   * annualization; otherwise `mean / sqrt(downside variance) * sqrt(annualization)`.
   */
  function Sortino(rets: Values, annualization: int, sqrt: real -> real): Option<real>
    requires RootLike(sqrt)
  {
    var clean := DropNa(rets);
    if |clean| == 0 then None
    else
      var variance := DownsideSquares(clean) / (|clean| as real);
      if variance == 0.0 || annualization < 0 then None
      else
        DownsideSquaresNonNegative(clean);
        Some(Mean(clean) / sqrt(variance) * sqrt(annualization as real))
  }

  // ---------------------------------------------------------------------
  // The guards.

  lemma {:induction false} SquaredDeviationsZero(xs: seq<real>, m: real)
    ensures SquaredDeviations(xs, m) >= 0.0
    ensures SquaredDeviations(xs, m) == 0.0 <==> forall i :: 0 <= i < |xs| ==> xs[i] == m
  {
    if xs != [] {
      SquaredDeviationsZero(xs[1..], m);
      SquareSign(xs[0] - m);
      assert forall i :: 0 <= i < |xs| - 1 ==> xs[1..][i] == xs[i + 1];
    }
  }

  /** A product of two positive numbers is positive. */
  lemma PositiveProduct(a: real, b: real)
    requires a > 0.0 && b > 0.0
    ensures Product(a, b) > 0.0
  {
    StrictScale(a, 0.0, b);
  }

  /** A square is never negative, and it is zero only at zero. */
  lemma SquareSign(d: real)
    ensures Square(d) >= 0.0
    ensures Square(d) == 0.0 <==> d == 0.0
  {
    if d > 0.0 {
      PositiveProduct(d, d);
    } else if d < 0.0 {
      PositiveProduct(-d, -d);
      assert Square(-d) == Square(d);
    }
  }

  lemma {:induction false} DownsideSquaresNonNegative(xs: seq<real>)
    ensures DownsideSquares(xs) >= 0.0
    ensures DownsideSquares(xs) == 0.0 <==> forall i :: 0 <= i < |xs| ==> xs[i] >= 0.0
  {
    if xs != [] {
      DownsideSquaresNonNegative(xs[1..]);
      SquareSign(Min(xs[0], 0.0));
      assert forall i :: 0 <= i < |xs| - 1 ==> xs[1..][i] == xs[i + 1];
    }
  }

  predicate AllEqual(xs: seq<real>) {
    forall i :: 0 <= i < |xs| ==> xs[i] == xs[0]
  }

  /** Every value equals the mean exactly when all values are equal. */
  lemma AtMeanIffEqual(xs: seq<real>)
    requires |xs| > 0
    ensures (forall i :: 0 <= i < |xs| ==> xs[i] == Mean(xs)) <==> AllEqual(xs)
  {
    if AllEqual(xs) {
      SumConstant(xs, xs[0]);
      DivUnique(Sum(xs), |xs| as real, xs[0]);
    }
  }

  /** The sample variance is non-negative, and zero exactly when all values are equal. */
  lemma VarianceZero(xs: seq<real>)
    requires |xs| >= 2
    ensures SampleVariance(xs) >= 0.0 && (SampleVariance(xs) == 0.0 <==> AllEqual(xs))
  {
    var ss := SquaredDeviations(xs, Mean(xs));
    SquaredDeviationsZero(xs, Mean(xs));
    AtMeanIffEqual(xs);
    QuotientByPositive(ss, (|xs| - 1) as real);
  }

  /** A non-negative number over a positive one is non-negative, and zero only if the number is. */
  lemma QuotientByPositive(x: real, d: real)
    requires x >= 0.0 && d > 0.0
    ensures x / d >= 0.0 && (x / d == 0.0 <==> x == 0.0)
  {
    var q := x / d;
    assert q * d == x;
    if q < 0.0 { StrictScale(d, q, 0.0); }
  }

  /**
   * With a root-like `sqrt`, the Sharpe ratio is undefined exactly when the
   * series is empty, fewer than two returns are defined, all defined returns
   * are equal (a zero standard deviation), or the annualization is negative.
   */
  lemma SharpeUndefined(rets: Values, annualization: int, sqrt: real -> real)
    requires RootLike(sqrt)
    ensures var clean := DropNa(rets);
            Sharpe(rets, annualization, sqrt).None? <==>
              |clean| < 2 || AllEqual(clean) || annualization < 0
  {
    var clean := DropNa(rets);
    if |clean| >= 2 {
      VarianceZero(clean);
      var v := SampleVariance(clean);
      assert sqrt(v) == 0.0 <==> v == 0.0;
    }
  }

  /**
   * With a root-like `sqrt`, the Sortino ratio is undefined exactly when no
   * return is defined, no defined return is negative, or the annualization
   * is negative.
   */
  lemma SortinoUndefined(rets: Values, annualization: int, sqrt: real -> real)
    requires RootLike(sqrt)
    ensures var clean := DropNa(rets);
            Sortino(rets, annualization, sqrt).None? <==>
              |clean| == 0 || (forall i :: 0 <= i < |clean| ==> clean[i] >= 0.0) || annualization < 0
  {
    var clean := DropNa(rets);
    if |clean| > 0 {
      DownsideSquaresNonNegative(clean);
      QuotientByPositive(DownsideSquares(clean), |clean| as real);
      var v := DownsideSquares(clean) / (|clean| as real);
      assert sqrt(v) == 0.0 <==> v == 0.0;
    }
  }

  // ---------------------------------------------------------------------
  // The maximum drawdown.

  /** `1 + rets`: the growth factor of each period; a missing return stays missing. */
  function Growth(rets: Values): (r: Values)
    ensures |r| == |rets|
    ensures forall t {:trigger r[t]} :: 0 <= t < |rets| ==>
              r[t] == if rets[t].Some? then Some(1.0 + rets[t].value) else None
  {
    seq(|rets|, t requires 0 <= t < |rets| => if rets[t].Some? then Some(1.0 + rets[t].value) else None)
  }

  /** The product of the defined values (one when none is defined), as `cumprod` skips NaN. */
  function ProductDefined(xs: Values): real {
    if xs == [] then 1.0
    else
      var p := ProductDefined(xs[..|xs| - 1]);
      match xs[|xs| - 1]
      case None => p
      case Some(v) => Product(p, v)
  }

  /**
   * `cumprod()`: at a defined position, the product of the defined values
   * up to and including it; a missing value stays missing.
   */
  function CumProd(xs: Values): (r: Values)
    ensures |r| == |xs|
    ensures forall t {:trigger r[t]} :: 0 <= t < |xs| ==>
              r[t] == if xs[t].Some? then Some(ProductDefined(xs[..t + 1])) else None
  {
    seq(|xs|, t requires 0 <= t < |xs| => if xs[t].Some? then Some(ProductDefined(xs[..t + 1])) else None)
  }

  /** The largest defined value, if any value is defined (`max` with NaN skipped). */
  function MaxDefined(xs: Values): (r: Option<real>)
    ensures r.Some? <==> exists i :: 0 <= i < |xs| && xs[i].Some?
    ensures r.Some? ==> r in xs
    ensures r.Some? ==> forall i :: 0 <= i < |xs| && xs[i].Some? ==> xs[i].value <= r.value
  {
    if xs == [] then None
    else
      var rest := MaxDefined(xs[1..]);
      assert forall i :: 0 < i < |xs| ==> xs[i] == xs[1..][i - 1];
      if xs[0].None? then rest
      else if rest.None? then xs[0]
      else Some(Max(xs[0].value, rest.value))
  }

  /** The smallest defined value, if any value is defined (`min` with NaN skipped). */
  function MinDefined(xs: Values): (r: Option<real>)
    ensures r.Some? <==> exists i :: 0 <= i < |xs| && xs[i].Some?
    ensures r.Some? ==> r in xs
    ensures r.Some? ==> forall i :: 0 <= i < |xs| && xs[i].Some? ==> r.value <= xs[i].value
  {
    if xs == [] then None
    else
      var rest := MinDefined(xs[1..]);
      assert forall i :: 0 < i < |xs| ==> xs[i] == xs[1..][i - 1];
      if xs[0].None? then rest
      else if rest.None? then xs[0]
      else Some(Min(xs[0].value, rest.value))
  }

  /**
   * `cummax()`: at a defined position, the largest defined value up to and
   * including it; a missing value stays missing.
   */
  function CumMax(xs: Values): (r: Values)
    ensures |r| == |xs|
    ensures forall t {:trigger r[t]} :: 0 <= t < |xs| ==>
              r[t] == if xs[t].Some? then MaxDefined(xs[..t + 1]) else None
  {
    seq(|xs|, t requires 0 <= t < |xs| => if xs[t].Some? then MaxDefined(xs[..t + 1]) else None)
  }

  /**
   * `(cumulative - peak) / peak`: missing where either is missing, and
   * missing where the peak is zero (the division gives NaN or an infinity there).
   */
  function Drawdowns(cumulative: Values, peak: Values): (r: Values)
    requires |cumulative| == |peak|
    ensures |r| == |cumulative|
  {
    seq(|cumulative|, t requires 0 <= t < |cumulative| =>
      if cumulative[t].Some? && peak[t].Some? && peak[t].value != 0.0
      then Some((cumulative[t].value - peak[t].value) / peak[t].value)
      else None)
  }

  /** `max_drawdown`: NaN for an empty series, else the smallest drawdown of the compounded curve. */
  function MaxDrawdown(rets: Values): Option<real> {
    if |rets| == 0 then None
    else
      var cumulative := CumProd(Growth(rets));
      MinDefined(Drawdowns(cumulative, CumMax(cumulative)))
  }

  /** The running peak is defined where the curve is, and never below it. */
  lemma PeakAtLeastCurve(xs: Values, t: nat)
    requires t < |xs| && xs[t].Some?
    ensures CumMax(xs)[t].Some? && CumMax(xs)[t].value >= xs[t].value
  {
    assert xs[..t + 1][t] == xs[t];
  }

  /** With every growth factor positive, the compounded curve stays positive. */
  lemma {:induction false} ProductPositive(xs: Values)
    requires forall i :: 0 <= i < |xs| && xs[i].Some? ==> xs[i].value > 0.0
    ensures ProductDefined(xs) > 0.0
  {
    if xs != [] {
      var init := xs[..|xs| - 1];
      assert forall i :: 0 <= i < |init| ==> init[i] == xs[i];
      ProductPositive(init);
      if xs[|xs| - 1].Some? {
        PositiveProduct(ProductDefined(init), xs[|xs| - 1].value);
      }
    }
  }

  /** A positive point at or below a positive peak lies in `(-1, 0]` below it. */
  lemma DrawdownInRange(c: real, p: real)
    requires 0.0 < c <= p
    ensures -1.0 < (c - p) / p <= 0.0
  {
    var q := (c - p) / p;
    assert q * p == c - p;
    if q > 0.0 {
      StrictScale(p, 0.0, q);
    }
    if q <= -1.0 {
      ProductMonotone(p, q, -1.0);
    }
  }

  /**
   * When no defined return loses everything (each is above -1), the maximum
   * drawdown is undefined only when no return is defined, and otherwise lies
   * in `(-1, 0]`.
   */
  lemma DrawdownBounded(rets: Values)
    requires forall i :: 0 <= i < |rets| && rets[i].Some? ==> rets[i].value > -1.0
    ensures MaxDrawdown(rets).None? <==> forall i :: 0 <= i < |rets| ==> rets[i].None?
    ensures MaxDrawdown(rets).Some? ==> -1.0 < MaxDrawdown(rets).value <= 0.0
  {
    if |rets| > 0 {
      var cumulative := CumProd(Growth(rets));
      var d := Drawdowns(cumulative, CumMax(cumulative));
      forall t | 0 <= t < |rets| && rets[t].Some?
        ensures d[t].Some? && -1.0 < d[t].value <= 0.0
      {
        DrawdownAt(rets, t);
      }
      forall t | 0 <= t < |rets| && d[t].Some?
        ensures rets[t].Some?
      {
      }
      var m := MinDefined(d);
      if m.Some? {
        var i :| 0 <= i < |d| && d[i] == m;
      }
    }
  }

  /** The drawdown on a day with a return lies in `(-1, 0]`. */
  lemma DrawdownAt(rets: Values, t: nat)
    requires forall i :: 0 <= i < |rets| && rets[i].Some? ==> rets[i].value > -1.0
    requires t < |rets| && rets[t].Some?
    ensures var cumulative := CumProd(Growth(rets));
            var d := Drawdowns(cumulative, CumMax(cumulative));
            d[t].Some? && -1.0 < d[t].value <= 0.0
  {
    var g := Growth(rets);
    var cumulative := CumProd(g);
    var peak := CumMax(cumulative);
    assert cumulative[t].Some? && cumulative[t].value > 0.0 by {
      assert forall i :: 0 <= i < |g| && g[i].Some? ==> g[i].value > 0.0;
      CurvePositive(g, t);
    }
    assert peak[t].Some? && peak[t].value >= cumulative[t].value by {
      PeakAtLeastCurve(cumulative, t);
    }
    var c, p := cumulative[t].value, peak[t].value;
    DrawdownInRange(c, p);
    assert Drawdowns(cumulative, peak)[t] == Some((c - p) / p);
  }

  /** With positive growth factors, every defined point of the compounded curve is positive. */
  lemma CurvePositive(g: Values, t: nat)
    requires forall i :: 0 <= i < |g| && g[i].Some? ==> g[i].value > 0.0
    requires t < |g| && g[t].Some?
    ensures CumProd(g)[t].Some? && CumProd(g)[t].value > 0.0
  {
    ProductPositive(g[..t + 1]);
  }

  /** With every growth factor at least one, the compounded curve never falls below one. */
  lemma {:induction false} ProductAtLeastOne(xs: Values)
    requires forall i :: 0 <= i < |xs| && xs[i].Some? ==> xs[i].value >= 1.0
    ensures ProductDefined(xs) >= 1.0
  {
    if xs != [] {
      var init := xs[..|xs| - 1];
      assert forall i :: 0 <= i < |init| ==> init[i] == xs[i];
      ProductAtLeastOne(init);
      if xs[|xs| - 1].Some? {
        ProductMonotone(ProductDefined(init), 1.0, xs[|xs| - 1].value);
      }
    }
  }

  /** With every growth factor at least one, a longer prefix compounds to at least as much. */
  lemma {:induction false} ProductGrowing(xs: Values, i: nat, j: nat)
    requires forall k :: 0 <= k < |xs| && xs[k].Some? ==> xs[k].value >= 1.0
    requires i <= j <= |xs|
    ensures ProductDefined(xs[..i]) <= ProductDefined(xs[..j])
    decreases j
  {
    if i < j {
      ProductGrowing(xs, i, j - 1);
      var init := xs[..j - 1];
      assert xs[..j][..j - 1] == init;
      assert forall k :: 0 <= k < |init| ==> init[k] == xs[k];
      ProductAtLeastOne(init);
      if xs[j - 1].Some? {
        ProductMonotone(ProductDefined(init), 1.0, xs[j - 1].value);
      }
    }
  }

  /**
   * When no defined return is negative and at least one is defined, the
   * compounded curve never falls below its peak: the maximum drawdown is zero.
   */
  lemma NoLossNoDrawdown(rets: Values)
    requires forall i :: 0 <= i < |rets| && rets[i].Some? ==> rets[i].value >= 0.0
    requires exists i :: 0 <= i < |rets| && rets[i].Some?
    ensures MaxDrawdown(rets) == Some(0.0)
  {
    var d := NoLossDrawdowns(rets);
    var k :| 0 <= k < |rets| && rets[k].Some?;
    assert d[k].Some?;
    var m := MinDefined(d);
    var i :| 0 <= i < |d| && d[i] == m;
  }

  /** The drawdown series of non-negative returns: zero where a return is defined, missing elsewhere. */
  lemma NoLossDrawdowns(rets: Values) returns (d: Values)
    requires forall i :: 0 <= i < |rets| && rets[i].Some? ==> rets[i].value >= 0.0
    requires |rets| > 0
    ensures var cumulative := CumProd(Growth(rets));
            d == Drawdowns(cumulative, CumMax(cumulative))
    ensures |d| == |rets|
    ensures forall t :: 0 <= t < |rets| ==> d[t] == if rets[t].Some? then Some(0.0) else None
  {
    var g := Growth(rets);
    var cumulative := CumProd(g);
    d := Drawdowns(cumulative, CumMax(cumulative));
    forall t | 0 <= t < |rets|
      ensures d[t] == if rets[t].Some? then Some(0.0) else None
    {
      if rets[t].Some? {
        AtPeak(g, t);
        var c := cumulative[t].value;
        DivUnique(c - c, c, 0.0);
      }
    }
  }

  /** With growth factors of at least one, each defined point of the curve is its own peak. */
  lemma AtPeak(g: Values, t: nat)
    requires forall i :: 0 <= i < |g| && g[i].Some? ==> g[i].value >= 1.0
    requires t < |g| && g[t].Some?
    ensures CumProd(g)[t].Some? && CumMax(CumProd(g))[t] == CumProd(g)[t]
    ensures CumProd(g)[t].value >= 1.0
  {
    var cumulative := CumProd(g);
    var prefix := cumulative[..t + 1];
    var m := MaxDefined(prefix);
    PeakAtLeastCurve(cumulative, t);
    var i :| 0 <= i < |prefix| && prefix[i] == m;
    ProductGrowing(g, i + 1, t + 1);
    ProductAtLeastOne(g[..t + 1]);
  }

  /**
   * The five returns used by the Sortino test: exactly one of them is
   * negative, so the Sortino ratio is defined for every root-like `sqrt`.
   */
  function SortinoSample(): Values {
    [Some(0.01), Some(-0.02), Some(0.015), Some(0.0), Some(0.01)]
  }

  lemma SortinoDefinedOnSample(sqrt: real -> real)
    requires RootLike(sqrt)
    ensures Sortino(SortinoSample(), DefaultAnnualization, sqrt).Some?
  {
    var clean := DropNa(SortinoSample());
    assert clean == [0.01, -0.02, 0.015, 0.0, 0.01];
    SortinoUndefined(SortinoSample(), DefaultAnnualization, sqrt);
    assert clean[1] < 0.0;
  }
}
