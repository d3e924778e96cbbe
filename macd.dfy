/**
 * The MACD indicator (`qlib/factors/macd.py`): the fast minus the slow
 * span EMA of the close (the line), the span EMA of the line (the signal), and
 * their difference (the histogram), each average masked by its own
 * `min_periods`.
 */
module Macd {
  import opened Base
  import opened SeriesOps
  import opened Ewm

  /** A constructed indicator: the three spans. */
  datatype Macd = Macd(fast: nat, slow: nat, signalPeriod: nat)

  const DefaultFast: int := 12
  const DefaultSlow: int := 26
  const DefaultSignal: int := 9

  predicate Valid(m: Macd) {
    0 < m.fast < m.slow && m.signalPeriod > 0
  }

  /** `MACD(fast, slow, signal_period)`: any non-positive span first, then the order of fast and slow. */
  function New(fast: int, slow: int, signalPeriod: int): (r: Result<Macd, Error>)
    ensures fast <= 0 || slow <= 0 || signalPeriod <= 0 <==> r == Err(ValueError("all periods must be positive integers"))
    ensures fast > 0 && slow > 0 && signalPeriod > 0 && fast >= slow <==>
              r == Err(ValueError("fast period must be smaller than slow period"))
    ensures r.Ok? <==> 0 < fast < slow && signalPeriod > 0
    ensures r.Ok? ==> Valid(r.value) && r.value == Macd(fast, slow, signalPeriod)
  {
    if fast <= 0 || slow <= 0 || signalPeriod <= 0 then Err(ValueError("all periods must be positive integers"))
    else if fast >= slow then Err(ValueError("fast period must be smaller than slow period"))
    else Ok(Macd(fast, slow, signalPeriod))
  }

  /** The default periods of the constructor are accepted. */
  lemma DefaultsAccepted()
    ensures New(DefaultFast, DefaultSlow, DefaultSignal) == Ok(Macd(12, 26, 9))
  {
  }

  /** `MACDResult`: the three output series. */
  datatype MacdResult = MacdResult(line: Series, signal: Series, histogram: Series)

  /** A column-labelled frame: its column names, its index, and one column of values per name. */
  datatype Frame = Frame(columns: seq<string>, index: seq<int>, data: seq<Values>)

  /** The fast EMA of the close at row `t`, before masking. */
  function FastAt(m: Macd, closes: seq<real>, t: nat): real
    requires Valid(m) && t < |closes|
  {
    EmaAt(closes, SpanAlpha(m.fast), t)
  }

  /** The slow EMA of the close at row `t`, before masking. */
  function SlowAt(m: Macd, closes: seq<real>, t: nat): real
    requires Valid(m) && t < |closes|
  {
    EmaAt(closes, SpanAlpha(m.slow), t)
  }

  /** The number of leading rows where the line is NaN. */
  function Warmup(m: Macd, n: nat): (r: nat)
    requires Valid(m)
    ensures r <= n && (r < n ==> r == m.slow - 1)
  {
    if n < m.slow - 1 then n else m.slow - 1
  }

  /** The defined part of the line: `fast - slow` from row `slow - 1` on. */
  function LineTail(m: Macd, closes: seq<real>): (r: seq<real>)
    requires Valid(m)
    ensures |r| == |closes| - Warmup(m, |closes|)
  {
    var w := Warmup(m, |closes|);
    seq(|closes| - w, i requires 0 <= i < |closes| - w => FastAt(m, closes, i + w) - SlowAt(m, closes, i + w))
  }

  /**
   * `compute` on a fully observed close: the line is the difference of the
   * two masked EMAs; the signal is the masked span EMA of the line, whose
   * recursion starts at the line's first defined row; the histogram is their
   * difference. The three series share the index of the close and are named
   * `macd`, `signal` and `histogram`.
   */
  function Compute(m: Macd, index: seq<int>, closes: seq<real>): (r: MacdResult)
    requires Valid(m)
    ensures r.line.name == "macd" && r.signal.name == "signal" && r.histogram.name == "histogram"
    ensures r.line.index == index && r.signal.index == index && r.histogram.index == index
    ensures |r.line.values| == |closes| && |r.signal.values| == |closes| && |r.histogram.values| == |closes|
  {
    var fastEma := EwmMean(closes, SpanAlpha(m.fast), m.fast);
    var slowEma := EwmMean(closes, SpanAlpha(m.slow), m.slow);
    var line := SubAll(fastEma, slowEma);
    var signal := EwmAfter(Warmup(m, |closes|), LineTail(m, closes), SpanAlpha(m.signalPeriod), m.signalPeriod);
    var histogram := SubAll(line, signal);
    MacdResult(Series("macd", index, line), Series("signal", index, signal), Series("histogram", index, histogram))
  }

  /** `to_frame`: columns `macd`, `signal`, `histogram`, in that order, on the shared index. */
  function ToFrame(r: MacdResult): (f: Frame)
    requires r.signal.index == r.line.index && r.histogram.index == r.line.index
    ensures f.columns == ["macd", "signal", "histogram"] && f.index == r.line.index
    ensures f.data == [r.line.values, r.signal.values, r.histogram.values]
  {
    Frame(["macd", "signal", "histogram"], r.line.index, [r.line.values, r.signal.values, r.histogram.values])
  }

  // ---------------------------------------------------------------------
  // Properties.

  /**
   * The line is NaN for exactly the first `slow - 1` rows and is
   * `fast_ema - slow_ema` after that; its defined part is `LineTail`, so the
   * signal is the EMA of the line started at its first defined value.
   */
  lemma LineShape(m: Macd, index: seq<int>, closes: seq<real>, t: nat)
    requires Valid(m) && t < |closes|
    ensures var line := Compute(m, index, closes).line.values[t];
            (line.Some? <==> t >= m.slow - 1) &&
            (line.Some? ==> line.value == FastAt(m, closes, t) - SlowAt(m, closes, t) &&
                            line.value == LineTail(m, closes)[t - (m.slow - 1)])
  {
  }

  /** The signal is NaN for exactly the first `slow + signal_period - 2` rows. */
  lemma SignalWarmup(m: Macd, index: seq<int>, closes: seq<real>, t: nat)
    requires Valid(m) && t < |closes|
    ensures Compute(m, index, closes).signal.values[t].Some? <==> t >= m.slow + m.signalPeriod - 2
  {
  }

  /**
   * The histogram is defined exactly where the signal is, and there it is the
   * line minus the signal.
   */
  lemma HistogramIsGap(m: Macd, index: seq<int>, closes: seq<real>, t: nat)
    requires Valid(m) && t < |closes|
    ensures var r := Compute(m, index, closes);
            var h, l, s := r.histogram.values[t], r.line.values[t], r.signal.values[t];
            (h.Some? <==> t >= m.slow + m.signalPeriod - 2) &&
            (h.Some? ==> l.Some? && s.Some? && h.value == l.value - s.value)
  {
    LineShape(m, index, closes, t);
    SignalWarmup(m, index, closes, t);
  }

  /** A strictly rising close gives a positive line wherever the line is defined. */
  lemma UptrendPositive(m: Macd, index: seq<int>, closes: seq<real>, t: nat)
    requires Valid(m) && m.slow - 1 <= t < |closes| && Rising(closes)
    ensures var line := Compute(m, index, closes).line.values[t];
            line.Some? && line.value > 0.0
  {
    LineShape(m, index, closes, t);
    SpanAlphaDecreasing(m.fast, m.slow);
    FastAboveSlow(closes, SpanAlpha(m.fast), SpanAlpha(m.slow), t);
  }

  /** A strictly falling close gives a negative line wherever the line is defined. */
  lemma DowntrendNegative(m: Macd, index: seq<int>, closes: seq<real>, t: nat)
    requires Valid(m) && m.slow - 1 <= t < |closes| && Falling(closes)
    ensures var line := Compute(m, index, closes).line.values[t];
            line.Some? && line.value < 0.0
  {
    LineShape(m, index, closes, t);
    SpanAlphaDecreasing(m.fast, m.slow);
    FastBelowSlow(closes, SpanAlpha(m.fast), SpanAlpha(m.slow), t);
  }

  // ---------------------------------------------------------------------
  // The expectation of the repository's tests.

  /**
   * The line as `tests/test_macd.py` computes its expectation: the two EMAs
   * without `min_periods`, so nothing is masked.
   */
  function UnmaskedLine(m: Macd, closes: seq<real>): (r: Values)
    requires Valid(m)
    ensures |r| == |closes|
  {
    SubAll(EwmMean(closes, SpanAlpha(m.fast), 0), EwmMean(closes, SpanAlpha(m.slow), 0))
  }

  /**
   * The unmasked expectation and the code part ways on the first row: there
   * both EMAs equal the first close, so the expectation is 0.0, while the code
   * masks the row because `slow > 1`.
   */
  lemma UnmaskedLineDiffers(m: Macd, index: seq<int>, closes: seq<real>)
    requires Valid(m) && |closes| > 0
    ensures UnmaskedLine(m, closes)[0] == Some(0.0)
    ensures Compute(m, index, closes).line.values[0] == None
  {
  }

  /**
   * The signal as `tests/test_macd.py` computes its expectation: the span EMA
   * of the code's line without `min_periods`, so it starts at the line's first
   * defined row instead of `signal_period - 1` rows later.
   */
  function UnmaskedSignal(m: Macd, closes: seq<real>): (r: Values)
    requires Valid(m)
    ensures |r| == |closes|
  {
    EwmAfter(Warmup(m, |closes|), LineTail(m, closes), SpanAlpha(m.signalPeriod), 0)
  }

  /**
   * On row `slow - 1` the expectation of the signal is the line's first
   * defined value, while the code masks the row because `signal_period > 1`.
   */
  lemma UnmaskedSignalDiffers(m: Macd, index: seq<int>, closes: seq<real>)
    requires Valid(m) && m.signalPeriod > 1 && |closes| >= m.slow
    ensures Compute(m, index, closes).line.values[m.slow - 1].Some?
    ensures UnmaskedSignal(m, closes)[m.slow - 1] == Compute(m, index, closes).line.values[m.slow - 1]
    ensures Compute(m, index, closes).signal.values[m.slow - 1] == None
  {
    LineShape(m, index, closes, m.slow - 1);
    SignalWarmup(m, index, closes, m.slow - 1);
  }
}
