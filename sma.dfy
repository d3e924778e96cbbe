/**
 * The moving-average crossover factor (`qlib/factors/sma.py`): the rolling
 * mean of the close over a fast window minus the rolling mean over a slow
 * window, each computed only on full windows.
 */
module Sma {
  import opened Base
  import opened SeriesOps

  /** A constructed factor: the fast and the slow window, in rows. */
  datatype SmaCrossover = SmaCrossover(fast: nat, slow: nat)

  const DefaultFast: int := 10
  const DefaultSlow: int := 30

  predicate Valid(c: SmaCrossover) {
    0 < c.fast < c.slow
  }

  /** `SMACrossover(fast, slow)`: non-positive windows first, then the order of the two. */
  function New(fast: int, slow: int): (r: Result<SmaCrossover, Error>)
    ensures fast <= 0 || slow <= 0 <==> r == Err(ValueError("fast and slow windows must be positive integers"))
    ensures fast > 0 && slow > 0 && fast >= slow <==> r == Err(ValueError("fast window must be smaller than slow window"))
    ensures r.Ok? <==> 0 < fast < slow
    ensures r.Ok? ==> Valid(r.value) && r.value.fast == fast && r.value.slow == slow
  {
    if fast <= 0 || slow <= 0 then Err(ValueError("fast and slow windows must be positive integers"))
    else if fast >= slow then Err(ValueError("fast window must be smaller than slow window"))
    else Ok(SmaCrossover(fast, slow))
  }

  /** The default windows of the constructor are accepted. */
  lemma DefaultsAccepted()
    ensures New(DefaultFast, DefaultSlow) == Ok(SmaCrossover(10, 30))
  {
  }

  predicate AllDefined(xs: Values) {
    forall i :: 0 <= i < |xs| ==> xs[i].Some?
  }

  /**
   * Row `t` of `rolling(w, min_periods=w).mean()`: NaN until a full window of
   * `w` rows exists, NaN when any value in the window is NaN, and otherwise
   * the mean of the window.
   */
  function RollingMean(xs: Values, w: nat, t: nat): Option<real>
    requires w >= 1 && t < |xs|
  {
    if t + 1 < w then None
    else
      var window := xs[t + 1 - w..t + 1];
      if AllDefined(window) then Some(SumDefined(window) / (w as real)) else None
  }

  /** The whole rolling-mean column. */
  function Rolling(xs: Values, w: nat): (r: Values)
    requires w >= 1
    ensures |r| == |xs| && forall t {:trigger r[t]} :: 0 <= t < |xs| ==> r[t] == RollingMean(xs, w, t)
  {
    seq(|xs|, t requires 0 <= t < |xs| => RollingMean(xs, w, t))
  }

  /** `compute`: `fast_ma - slow_ma`, named `sma_crossover`, on the index of the close. */
  function Compute(c: SmaCrossover, close: Series): (r: Series)
    requires Valid(c)
    ensures r.name == "sma_crossover" && r.index == close.index && |r.values| == |close.values|
    ensures forall t {:trigger r.values[t]} :: 0 <= t < |close.values| ==>
              r.values[t] == Sub(RollingMean(close.values, c.fast, t), RollingMean(close.values, c.slow, t))
  {
    Series("sma_crossover", close.index, SubAll(Rolling(close.values, c.fast), Rolling(close.values, c.slow)))
  }

  // ---------------------------------------------------------------------
  // Properties.

  /** On a fully observed close the window sum is the plain sum of the last `w` prices. */
  lemma {:induction false} WindowSum(prices: seq<real>, a: nat, b: nat)
    requires a <= b <= |prices|
    decreases b - a
    ensures AllDefined(Defined(prices)[a..b]) && SumDefined(Defined(prices)[a..b]) == Sum(prices[a..b])
  {
    if a < b {
      WindowSum(prices, a + 1, b);
      assert Defined(prices)[a..b][1..] == Defined(prices)[a + 1..b];
      assert prices[a..b][1..] == prices[a + 1..b];
    }
  }

  /**
   * The signal is NaN for the first `slow - 1` rows whatever the close; on a
   * fully observed close it is defined from row `slow - 1` on, and on it the
   * two averages are the means of the last `fast` and last `slow` prices.
   */
  lemma Warmup(c: SmaCrossover, prices: seq<real>, index: seq<int>, t: nat)
    requires Valid(c) && t < |prices|
    ensures var r := Compute(c, Series("close", index, Defined(prices))).values[t];
            (r.Some? <==> t >= c.slow - 1) &&
            (r.Some? ==> r.value == MeanOfLast(prices, c.fast, t) - MeanOfLast(prices, c.slow, t))
  {
    if t + 1 >= c.slow {
      WindowSum(prices, t + 1 - c.fast, t + 1);
      WindowSum(prices, t + 1 - c.slow, t + 1);
    }
  }

  /** The mean of the `w` prices up to row `t`. */
  function MeanOfLast(prices: seq<real>, w: nat, t: nat): real
    requires 1 <= w <= t + 1 <= |prices|
  {
    Sum(prices[t + 1 - w..t + 1]) / (w as real)
  }

  /** Without a full window of observations the signal is NaN, whatever the close holds. */
  lemma UndefinedBeforeSlowWindow(c: SmaCrossover, close: Series, t: nat)
    requires Valid(c) && t < |close.values| && t + 1 < c.slow
    ensures Compute(c, close).values[t] == None
  {
  }

  /** A constant close gives a zero signal wherever it is defined. */
  lemma ConstantCloseIsFlat(c: SmaCrossover, prices: seq<real>, index: seq<int>, t: nat)
    requires Valid(c) && c.slow - 1 <= t < |prices|
    requires forall i :: 0 <= i < |prices| ==> prices[i] == prices[0]
    ensures Compute(c, Series("close", index, Defined(prices))).values[t] == Some(0.0)
  {
    Warmup(c, prices, index, t);
    MeanOfConstant(prices, c.fast, t);
    MeanOfConstant(prices, c.slow, t);
  }

  lemma MeanOfConstant(prices: seq<real>, w: nat, t: nat)
    requires 1 <= w <= t + 1 <= |prices|
    requires forall i :: 0 <= i < |prices| ==> prices[i] == prices[0]
    ensures MeanOfLast(prices, w, t) == prices[0]
  {
    var x := prices[0];
    SumConstant(prices[t + 1 - w..t + 1], x);
    MeanOfCopies(x, w);
  }

  lemma MeanOfCopies(x: real, n: nat)
    requires n >= 1
    ensures (n as real) * x / (n as real) == x
  {
    DivUnique((n as real) * x, n as real, x);
  }

  /** A strictly increasing close gives a positive signal wherever it is defined. */
  lemma RisingCloseIsPositive(c: SmaCrossover, prices: seq<real>, index: seq<int>, t: nat)
    requires Valid(c) && c.slow - 1 <= t < |prices| && Rising(prices)
    ensures var r := Compute(c, Series("close", index, Defined(prices))).values[t];
            r.Some? && r.value > 0.0
  {
    Warmup(c, prices, index, t);
    FastMeanAbove(prices, c.fast, c.slow, t);
  }

  lemma FastMeanAbove(prices: seq<real>, f: nat, s: nat, t: nat)
    requires 1 <= f < s <= t + 1 <= |prices| && Rising(prices)
    ensures MeanOfLast(prices, f, t) - MeanOfLast(prices, s, t) > 0.0
  {
    var lo, mid, hi := t + 1 - s, t + 1 - f, t + 1;
    WindowSums(prices, lo, mid, hi);
    WindowSplit(prices, lo, mid, hi);
    var older, recent := Sum(prices[lo..mid]), Sum(prices[mid..hi]);
    var n, fr, sr, m := (mid - lo) as real, f as real, s as real, prices[mid];
    assert older < n * m;
    assert (hi - mid) as real == fr;
    assert recent >= fr * m;
    assert MeanOfLast(prices, f, t) == recent / fr;
    assert MeanOfLast(prices, s, t) == (older + recent) / sr;
    MeanOrder(older, recent, n, fr, sr, m, MeanOfLast(prices, f, t), MeanOfLast(prices, s, t));
  }

  /** In a rising series, the values before `mid` sum below, and those from `mid` on at least, their count times the value at `mid`. */
  lemma WindowSums(prices: seq<real>, lo: nat, mid: nat, hi: nat)
    requires lo <= mid < hi <= |prices| && Rising(prices)
    ensures Sum(prices[lo..mid]) < ((mid - lo) as real) * prices[mid] || lo == mid
    ensures Sum(prices[mid..hi]) >= ((hi - mid) as real) * prices[mid]
  {
    RisingWindows(prices, lo, mid, hi);
    if lo < mid {
      SumBelow(prices[lo..mid], prices[mid]);
    }
    SumAtLeast(prices[mid..hi], prices[mid]);
  }

  /** The sum over `lo..hi` is the sum over `lo..mid` plus the sum over `mid..hi`. */
  lemma WindowSplit(prices: seq<real>, lo: nat, mid: nat, hi: nat)
    requires lo <= mid <= hi <= |prices|
    ensures Sum(prices[lo..hi]) == Sum(prices[lo..mid]) + Sum(prices[mid..hi])
  {
    assert prices[lo..hi] == prices[lo..mid] + prices[mid..hi];
    SumAppend(prices[lo..mid], prices[mid..hi]);
  }

  /** In a rising series, the values before position `mid` are below it and the later ones at least it. */
  lemma RisingWindows(prices: seq<real>, lo: nat, mid: nat, hi: nat)
    requires lo <= mid < hi <= |prices| && Rising(prices)
    ensures forall i :: 0 <= i < |prices[lo..mid]| ==> prices[lo..mid][i] < prices[mid]
    ensures forall i :: 0 <= i < |prices[mid..hi]| ==> prices[mid..hi][i] >= prices[mid]
  {
    forall i | 0 <= i < mid - lo ensures prices[lo..mid][i] < prices[mid] {
      assert prices[lo..mid][i] == prices[lo + i];
    }
    forall i | 0 <= i < hi - mid ensures prices[mid..hi][i] >= prices[mid] {
      assert prices[mid..hi][i] == prices[mid + i];
    }
  }

  /** Reals all below `m` sum to less than `n * m`. */
  lemma {:induction false} SumBelow(xs: seq<real>, m: real)
    requires |xs| > 0 && forall i :: 0 <= i < |xs| ==> xs[i] < m
    ensures Sum(xs) < (|xs| as real) * m
  {
    if |xs| > 1 {
      assert forall i :: 0 <= i < |xs| - 1 ==> xs[1..][i] == xs[i + 1];
      SumBelow(xs[1..], m);
    }
  }

  /** Reals all at least `m` sum to at least `n * m`. */
  lemma {:induction false} SumAtLeast(xs: seq<real>, m: real)
    requires forall i :: 0 <= i < |xs| ==> xs[i] >= m
    ensures Sum(xs) >= (|xs| as real) * m
  {
    if xs != [] {
      assert forall i :: 0 <= i < |xs| - 1 ==> xs[1..][i] == xs[i + 1];
      SumAtLeast(xs[1..], m);
    }
  }

  /**
   * Averaging older values that are all below `m` into `f` recent values that
   * are all at least `m` lowers the mean.
   */
  lemma MeanOrder(older: real, recent: real, n: real, f: real, s: real, m: real, fast: real, slow: real)
    requires 1.0 <= f < s && n == s - f && older < n * m && recent >= f * m
    requires fast == recent / f && slow == (older + recent) / s
    ensures fast - slow > 0.0
  {
    var fm, sm := recent / f, (older + recent) / s;
    assert fm * f == recent;
    assert sm * s == older + recent;
    assert recent * (s - f) >= f * m * (s - f) by { ProductMonotone(s - f, f * m, recent); }
    assert f * older < f * (s - f) * m;
    assert recent * s > f * (older + recent);
    assert fm * f * s > sm * s * f;
    CancelPositive(sm, fm, f * s);
  }

}
