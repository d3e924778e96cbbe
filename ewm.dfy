/**
 * pandas `ewm(..., adjust=False).mean()` over a series with no interior NaN:
 * the recursion starts at the first observation (y0 = x0,
 * yt = (1 - alpha) y(t-1) + alpha xt) and `min_periods` only masks the early
 * outputs; it never restarts the recursion.
 */
module Ewm {
  import opened Base
  import opened SeriesOps

  /** One step of the recursion: `(1 - alpha) * prev + alpha * x`. */
  function Blend(prev: real, x: real, alpha: real): (r: real)
    ensures 0.0 <= alpha <= 1.0 ==> Min(prev, x) <= r <= Max(prev, x)
  {
    BlendBetween(prev, x, alpha);
    (1.0 - alpha) * prev + alpha * x
  }

  lemma BlendBetween(prev: real, x: real, alpha: real)
    ensures 0.0 <= alpha <= 1.0 ==> Min(prev, x) <= (1.0 - alpha) * prev + alpha * x <= Max(prev, x)
  {
    if 0.0 <= alpha <= 1.0 {
      if prev <= x {
        assert (1.0 - alpha) * prev + alpha * x == prev + alpha * (x - prev);
        NonNegativeProduct(alpha, x - prev);
        ProductMonotone(x - prev, alpha, 1.0);
      } else {
        var r := (1.0 - alpha) * prev + alpha * x;
        assert r == x + (1.0 - alpha) * (prev - x);
        NonNegativeProduct(1.0 - alpha, prev - x);
        ProductMonotone(prev - x, 1.0 - alpha, 1.0);
        assert x <= r <= prev;
      }
    }
  }

  /** The smoothed value at row `t` of a fully observed series. */
  function EmaAt(xs: seq<real>, alpha: real, t: nat): real
    requires t < |xs|
  {
    if t == 0 then xs[0] else Blend(EmaAt(xs, alpha, t - 1), xs[t], alpha)
  }

  /**
   * `ewm(alpha=alpha, min_periods=minPeriods, adjust=False).mean()` of a
   * series whose first `k` rows are NaN and whose remaining rows are `xs`: the
   * first `k` outputs are NaN, and output `k + i` needs `i + 1 >= minPeriods`
   * observations.
   */
  function EwmAfter(k: nat, xs: seq<real>, alpha: real, minPeriods: nat): (r: Values)
    ensures |r| == k + |xs|
    ensures forall t {:trigger r[t]} :: 0 <= t < k ==> r[t] == None
    ensures forall t {:trigger r[t]} :: k <= t < k + |xs| ==>
              r[t] == if t - k + 1 < minPeriods then None else Some(EmaAt(xs, alpha, t - k))
  {
    Nones(k) + seq(|xs|, i requires 0 <= i < |xs| => if i + 1 < minPeriods then None else Some(EmaAt(xs, alpha, i)))
  }

  /** `ewm(...).mean()` of a fully observed series. */
  function EwmMean(xs: seq<real>, alpha: real, minPeriods: nat): (r: Values)
    ensures |r| == |xs|
    ensures forall t {:trigger r[t]} :: 0 <= t < |xs| ==>
              r[t] == if t + 1 < minPeriods then None else Some(EmaAt(xs, alpha, t))
  {
    EwmAfter(0, xs, alpha, minPeriods)
  }

  /** `alpha` for `span=span`: `2 / (span + 1)`, in (0, 1], smaller for longer spans. */
  function SpanAlpha(span: nat): (r: real)
    requires span >= 1
    ensures 0.0 < r <= 1.0
  {
    2.0 / (span as real + 1.0)
  }

  lemma SpanAlphaDecreasing(fast: nat, slow: nat)
    requires 1 <= fast < slow
    ensures SpanAlpha(slow) < SpanAlpha(fast)
  {
    HalvesDecreasing(fast as real + 1.0, slow as real + 1.0);
  }

  lemma HalvesDecreasing(a: real, b: real)
    requires 0.0 < a < b
    ensures 2.0 / b < 2.0 / a
  {
    var qa, qb := 2.0 / a, 2.0 / b;
    assert qa * a == 2.0 && qb * b == 2.0;
    StrictScale(qb, a, b);
    CancelPositive(qb, qa, a);
  }


  // ---------------------------------------------------------------------
  // Properties of the recursion.

  /** Every smoothed value lies within the bounds of the observations so far. */
  lemma {:induction false} EmaBounds(xs: seq<real>, alpha: real, t: nat, lo: real, hi: real)
    requires t < |xs| && 0.0 <= alpha <= 1.0
    requires forall i :: 0 <= i <= t ==> lo <= xs[i] <= hi
    ensures lo <= EmaAt(xs, alpha, t) <= hi
  {
    if t > 0 { EmaBounds(xs, alpha, t - 1, lo, hi); }
  }

  /**
   * Non-negative observations give a non-negative average, and a positive
   * fresh observation makes it positive.
   */
  lemma EmaPositive(xs: seq<real>, alpha: real, t: nat)
    requires 0 < t < |xs| && 0.0 < alpha <= 1.0
    requires forall i :: 0 <= i <= t ==> xs[i] >= 0.0
    requires xs[t] > 0.0
    ensures EmaAt(xs, alpha, t) > 0.0
  {
    var prev := EmaAt(xs, alpha, t - 1);
    EmaBounds(xs, alpha, t - 1, 0.0, Max(0.0, Largest(xs, t - 1)));
    NonNegativeProduct(1.0 - alpha, prev);
    assert alpha * xs[t] > 0.0;
  }

  /** The largest of `xs[0..t]`. */
  function Largest(xs: seq<real>, t: nat): (r: real)
    requires t < |xs|
    ensures forall i :: 0 <= i <= t ==> xs[i] <= r
  {
    if t == 0 then xs[0] else Max(Largest(xs, t - 1), xs[t])
  }

  /** The average of the negated observations is the negated average. */
  lemma {:induction false} EmaNegate(xs: seq<real>, alpha: real, t: nat)
    requires t < |xs|
    ensures EmaAt(Negated(xs), alpha, t) == -EmaAt(xs, alpha, t)
  {
    if t > 0 { EmaNegate(xs, alpha, t - 1); }
  }

  function Negated(xs: seq<real>): (r: seq<real>)
    ensures |r| == |xs| && forall i :: 0 <= i < |xs| ==> r[i] == -xs[i]
  {
    seq(|xs|, i requires 0 <= i < |xs| => -xs[i])
  }

  /**
   * On a strictly increasing series the average trails the observation, and a
   * faster average (larger alpha) trails it by less: for `t >= 1`,
   * `0 <= x - fast < x - slow`.
   */
  lemma {:induction false} EmaLagOrder(xs: seq<real>, fast: real, slow: real, t: nat)
    requires t < |xs| && Rising(xs) && 0.0 < slow < fast <= 1.0
    ensures 0.0 <= xs[t] - EmaAt(xs, fast, t) <= xs[t] - EmaAt(xs, slow, t)
    ensures t > 0 ==> xs[t] - EmaAt(xs, fast, t) < xs[t] - EmaAt(xs, slow, t)
  {
    if t > 0 {
      EmaLagOrder(xs, fast, slow, t - 1);
      TrailOrder(EmaAt(xs, fast, t - 1), EmaAt(xs, slow, t - 1), xs[t - 1], xs[t], fast, slow);
    }
  }

  /** How far one step of the recursion trails the new observation. */
  lemma Trail(prev: real, last: real, x: real, alpha: real)
    ensures x - Blend(prev, x, alpha) == (1.0 - alpha) * ((last - prev) + (x - last))
  {
  }

  lemma TrailOrder(pf: real, ps: real, last: real, x: real, fast: real, slow: real)
    requires 0.0 <= last - pf <= last - ps && last < x && 0.0 < slow < fast <= 1.0
    ensures 0.0 <= x - Blend(pf, x, fast) < x - Blend(ps, x, slow)
  {
    Trail(pf, last, x, fast);
    Trail(ps, last, x, slow);
    TrailStep(last - pf, last - ps, x - last, 1.0 - fast, 1.0 - slow);
  }

  lemma TrailStep(ef: real, es: real, d: real, bf: real, bs: real)
    requires 0.0 <= ef <= es && d > 0.0 && 0.0 <= bf < bs
    ensures 0.0 <= bf * (ef + d) < bs * (es + d)
  {
    NonNegativeProduct(bf, ef + d);
    ProductMonotone(bf, ef + d, es + d);
    assert bf * (es + d) < bs * (es + d);
  }

  /** On a strictly increasing series the faster average is above the slower one from row 1 on. */
  lemma FastAboveSlow(xs: seq<real>, fast: real, slow: real, t: nat)
    requires 0 < t < |xs| && Rising(xs) && 0.0 < slow < fast <= 1.0
    ensures EmaAt(xs, fast, t) > EmaAt(xs, slow, t)
  {
    EmaLagOrder(xs, fast, slow, t);
  }

  /** On a strictly decreasing series the faster average is below the slower one from row 1 on. */
  lemma FastBelowSlow(xs: seq<real>, fast: real, slow: real, t: nat)
    requires 0 < t < |xs| && Falling(xs) && 0.0 < slow < fast <= 1.0
    ensures EmaAt(xs, fast, t) < EmaAt(xs, slow, t)
  {
    assert Rising(Negated(xs));
    FastAboveSlow(Negated(xs), fast, slow, t);
    EmaNegate(xs, fast, t);
    EmaNegate(xs, slow, t);
  }
}
