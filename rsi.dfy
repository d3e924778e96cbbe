/**
 * The relative strength index (`qlib/factors/rsi.py`): close-to-close moves
 * split into gains and losses, each smoothed with Wilder's average
 * (`alpha = 1 / period`, `adjust=False`, `min_periods=period`), and mapped to
 * `100 - 100 / (1 + gain / loss)`, with 50 where both averages are zero.
 */
module Rsi {
  import opened Base
  import opened SeriesOps
  import opened Ewm

  /** A constructed factor: its smoothing period. */
  datatype Rsi = Rsi(period: nat)

  const DefaultPeriod: int := 14

  predicate Valid(f: Rsi) {
    f.period > 0
  }

  /** `RSI(period)`: a non-positive period is rejected. */
  function New(period: int): (r: Result<Rsi, Error>)
    ensures period <= 0 <==> r == Err(ValueError("period must be a positive integer"))
    ensures r.Ok? ==> Valid(r.value) && r.value.period == period
  {
    if period <= 0 then Err(ValueError("period must be a positive integer")) else Ok(Rsi(period))
  }

  /** The default period of the constructor is accepted. */
  lemma DefaultsAccepted()
    ensures New(DefaultPeriod) == Ok(Rsi(14))
  {
  }

  /** `delta.where(delta > 0, 0.0)`: the rises; a NaN move counts as 0. */
  function Gains(delta: Values): (r: seq<real>)
    ensures |r| == |delta|
    ensures forall t {:trigger r[t]} :: 0 <= t < |delta| ==>
              r[t] == if delta[t].Some? && delta[t].value > 0.0 then delta[t].value else 0.0
  {
    seq(|delta|, t requires 0 <= t < |delta| => if delta[t].Some? && delta[t].value > 0.0 then delta[t].value else 0.0)
  }

  /** `(-delta).where(delta < 0, 0.0)`: the falls as positive amounts; a NaN move counts as 0. */
  function Losses(delta: Values): (r: seq<real>)
    ensures |r| == |delta|
    ensures forall t {:trigger r[t]} :: 0 <= t < |delta| ==>
              r[t] == if delta[t].Some? && delta[t].value < 0.0 then -delta[t].value else 0.0
  {
    seq(|delta|, t requires 0 <= t < |delta| => if delta[t].Some? && delta[t].value < 0.0 then -delta[t].value else 0.0)
  }

  /** Wilder's smoothing factor. */
  function Alpha(f: Rsi): (r: real)
    requires Valid(f)
    ensures 0.0 < r <= 1.0
  {
    1.0 / (f.period as real)
  }

  /** `avg_gain`: the smoothed gains of the close. */
  function AverageGain(f: Rsi, close: Values): (r: Values)
    requires Valid(f)
    ensures |r| == |close|
  {
    EwmMean(Gains(Diff(close)), Alpha(f), f.period)
  }

  /** `avg_loss`: the smoothed losses of the close. */
  function AverageLoss(f: Rsi, close: Values): (r: Values)
    requires Valid(f)
    ensures |r| == |close|
  {
    EwmMean(Losses(Diff(close)), Alpha(f), f.period)
  }

  /**
   * One output row from the two averages: NaN if either is NaN; 50 where both
   * are zero; 100 where only the loss is zero (an infinite strength);
   * otherwise `100 - 100 / (1 + gain / loss)`, NaN should `1 + gain / loss` be zero.
   */
  function Index(gain: Option<real>, loss: Option<real>): Option<real> {
    if gain.None? || loss.None? then None
    else if gain.value == 0.0 && loss.value == 0.0 then Some(50.0)
    else if loss.value == 0.0 then Some(100.0)
    else if 1.0 + gain.value / loss.value == 0.0 then None
    else Some(100.0 - 100.0 / (1.0 + gain.value / loss.value))
  }

  /** `compute`: the index at every row, named `rsi`, on the index of the close. */
  function Compute(f: Rsi, close: Series): (r: Series)
    requires Valid(f)
    ensures r.name == "rsi" && r.index == close.index && |r.values| == |close.values|
  {
    var gain, loss := AverageGain(f, close.values), AverageLoss(f, close.values);
    Series("rsi", close.index, seq(|close.values|, t requires 0 <= t < |close.values| => Index(gain[t], loss[t])))
  }

  // ---------------------------------------------------------------------
  // Properties.

  /**
   * Gains and losses are non-negative, at most one of them is nonzero at a
   * row, both are zero at row 0, and where the move is defined it is their
   * difference.
   */
  lemma SplitMoves(close: Values, t: nat)
    requires t < |close|
    ensures var g, l, d := Gains(Diff(close))[t], Losses(Diff(close))[t], Diff(close)[t];
            g >= 0.0 && l >= 0.0 && (g == 0.0 || l == 0.0) &&
            (t == 0 ==> g == 0.0 && l == 0.0) &&
            (d.Some? ==> d.value == g - l)
  {
  }

  /** Both averages are NaN exactly for the first `period - 1` rows, and never negative. */
  lemma AveragesWarmup(f: Rsi, close: Values, t: nat)
    requires Valid(f) && t < |close|
    ensures var g, l := AverageGain(f, close)[t], AverageLoss(f, close)[t];
            (g.Some? <==> t + 1 >= f.period) && (l.Some? <==> t + 1 >= f.period) &&
            (g.Some? ==> g.value >= 0.0) && (l.Some? ==> l.value >= 0.0)
  {
    var gains, losses := Gains(Diff(close)), Losses(Diff(close));
    forall i | 0 <= i <= t ensures gains[i] >= 0.0 && losses[i] >= 0.0 { SplitMoves(close, i); }
    EmaBounds(gains, Alpha(f), t, 0.0, Max(0.0, Largest(gains, t)));
    EmaBounds(losses, Alpha(f), t, 0.0, Max(0.0, Largest(losses, t)));
  }

  /**
   * On non-negative averages that are not both zero, the mapping is
   * `100 * gain / (gain + loss)`; on two zeros it is 50.
   */
  lemma IndexFormula(gain: real, loss: real)
    requires gain >= 0.0 && loss >= 0.0
    ensures gain == 0.0 && loss == 0.0 ==> Index(Some(gain), Some(loss)) == Some(50.0)
    ensures gain + loss > 0.0 ==> Index(Some(gain), Some(loss)) == Some(100.0 * gain / (gain + loss))
  {
    if loss > 0.0 {
      var rs := gain / loss;
      assert rs * loss == gain;
      var q := 1.0 + rs;
      assert q * loss == loss + gain;
      DivUnique(loss + gain, loss, q);
      var inv := 100.0 / q;
      DivUnique(100.0 * loss, loss + gain, inv) by {
        assert inv * q == 100.0;
        assert inv * (loss + gain) == inv * q * loss;
      }
      var out := 100.0 - inv;
      DivUnique(100.0 * gain, gain + loss, out) by {
        assert 100.0 * loss / (loss + gain) * (loss + gain) == 100.0 * loss;
      }
    } else if gain > 0.0 {
      DivUnique(100.0 * gain, gain + loss, 100.0);
    }
  }

  lemma CancelPositiveAtMost(x: real, y: real, a: real)
    requires a > 0.0 && x * a <= y * a
    ensures x <= y
  {
  }

  /** On non-negative averages that are not both zero the index lies in [0, 100]. */
  lemma IndexBounds(gain: real, loss: real)
    requires gain >= 0.0 && loss >= 0.0 && gain + loss > 0.0
    ensures 0.0 <= 100.0 * gain / (gain + loss) <= 100.0
  {
    var q := 100.0 * gain / (gain + loss);
    assert q * (gain + loss) == 100.0 * gain;
    assert 0.0 * (gain + loss) == 0.0 && 100.0 * gain <= 100.0 * (gain + loss);
    CancelPositiveAtMost(0.0, q, gain + loss);
    CancelPositiveAtMost(q, 100.0, gain + loss);
  }

  /** Row `t` of the output maps the two averages of row `t`. */
  lemma RowOfAverages(f: Rsi, close: Series, t: nat)
    requires Valid(f) && t < |close.values|
    ensures Compute(f, close).values[t] == Index(AverageGain(f, close.values)[t], AverageLoss(f, close.values)[t])
  {
  }

  /** The mapping on averages that are NaN together and otherwise non-negative. */
  lemma IndexOfAverages(g: Option<real>, l: Option<real>)
    requires g.Some? <==> l.Some?
    requires g.Some? ==> g.value >= 0.0 && l.value >= 0.0
    ensures var r := Index(g, l);
            (r.Some? <==> g.Some?) &&
            (r.Some? ==> 0.0 <= r.value <= 100.0) &&
            (r.Some? && g.value == 0.0 && l.value == 0.0 ==> r.value == 50.0) &&
            (r.Some? && g.value + l.value > 0.0 ==> r.value == 100.0 * g.value / (g.value + l.value))
  {
    if g.Some? {
      IndexFormula(g.value, l.value);
      if g.value + l.value > 0.0 { IndexBounds(g.value, l.value); }
    }
  }

  /**
   * The whole output at row `t`: NaN for the first `period - 1` rows; after
   * that 50 where both averages are zero, and otherwise
   * `100 * gain / (gain + loss)`, which lies in [0, 100].
   */
  lemma Characterization(f: Rsi, close: Series, t: nat)
    requires Valid(f) && t < |close.values|
    ensures var r := Compute(f, close).values[t];
            var g, l := AverageGain(f, close.values)[t], AverageLoss(f, close.values)[t];
            (r.Some? <==> t + 1 >= f.period) &&
            (r.Some? ==> g.Some? && l.Some? && g.value >= 0.0 && l.value >= 0.0 && 0.0 <= r.value <= 100.0) &&
            (r.Some? && g.value == 0.0 && l.value == 0.0 ==> r.value == 50.0) &&
            (r.Some? && g.value + l.value > 0.0 ==> r.value == 100.0 * g.value / (g.value + l.value))
  {
    AveragesWarmup(f, close.values, t);
    RowOfAverages(f, close, t);
    IndexOfAverages(AverageGain(f, close.values)[t], AverageLoss(f, close.values)[t]);
  }

  /** The averages once the warm-up is over. */
  lemma AveragesAfterWarmup(f: Rsi, close: Values, t: nat)
    requires Valid(f) && t < |close| && t + 1 >= f.period
    ensures AverageGain(f, close)[t] == Some(EmaAt(Gains(Diff(close)), Alpha(f), t))
    ensures AverageLoss(f, close)[t] == Some(EmaAt(Losses(Diff(close)), Alpha(f), t))
  {
  }

  /** The moves of a strictly rising close: row 0 is no move, every later row a pure gain. */
  lemma RisingMoves(prices: seq<real>, i: nat)
    requires i < |prices| && Rising(prices)
    ensures var close := Defined(prices);
            Gains(Diff(close))[i] >= 0.0 && (i > 0 ==> Gains(Diff(close))[i] > 0.0) && Losses(Diff(close))[i] == 0.0
  {
    if i > 0 { assert prices[i - 1] < prices[i]; }
  }

  /** The moves of a strictly falling close: row 0 is no move, every later row a pure loss. */
  lemma FallingMoves(prices: seq<real>, i: nat)
    requires i < |prices| && Falling(prices)
    ensures var close := Defined(prices);
            Losses(Diff(close))[i] >= 0.0 && (i > 0 ==> Losses(Diff(close))[i] > 0.0) && Gains(Diff(close))[i] == 0.0
  {
    if i > 0 { assert prices[i - 1] > prices[i]; }
  }

  /**
   * A strictly rising close: from row 1 on, every defined value is 100 (the
   * first row, defined only when `period` is 1, is 50).
   */
  lemma RisingCloseIsHundred(f: Rsi, prices: seq<real>, index: seq<int>, t: nat)
    requires Valid(f) && 0 < t < |prices| && t + 1 >= f.period && Rising(prices)
    ensures Compute(f, Series("close", index, Defined(prices))).values[t] == Some(100.0)
  {
    var close := Defined(prices);
    var gains, losses := Gains(Diff(close)), Losses(Diff(close));
    forall i | 0 <= i <= t ensures gains[i] >= 0.0 && losses[i] == 0.0 { RisingMoves(prices, i); }
    RisingMoves(prices, t);
    EmaPositive(gains, Alpha(f), t);
    EmaBounds(losses, Alpha(f), t, 0.0, 0.0);
    AveragesAfterWarmup(f, close, t);
    RowOfAverages(f, Series("close", index, close), t);
  }

  /** A strictly falling close: from row 1 on, every defined value is 0. */
  lemma FallingCloseIsZero(f: Rsi, prices: seq<real>, index: seq<int>, t: nat)
    requires Valid(f) && 0 < t < |prices| && t + 1 >= f.period && Falling(prices)
    ensures Compute(f, Series("close", index, Defined(prices))).values[t] == Some(0.0)
  {
    var close := Defined(prices);
    var gains, losses := Gains(Diff(close)), Losses(Diff(close));
    forall i | 0 <= i <= t ensures gains[i] == 0.0 && losses[i] >= 0.0 { FallingMoves(prices, i); }
    FallingMoves(prices, t);
    EmaPositive(losses, Alpha(f), t);
    EmaBounds(gains, Alpha(f), t, 0.0, 0.0);
    var g, l := EmaAt(gains, Alpha(f), t), EmaAt(losses, Alpha(f), t);
    AveragesAfterWarmup(f, close, t);
    RowOfAverages(f, Series("close", index, close), t);
    OnlyLosses(g, l);
  }

  lemma OnlyLosses(gain: real, loss: real)
    requires gain == 0.0 && loss > 0.0
    ensures Index(Some(gain), Some(loss)) == Some(0.0)
  {
    assert gain / loss == 0.0;
    assert 100.0 - 100.0 / (1.0 + gain / loss) == 0.0;
  }
}
