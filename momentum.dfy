/**
 * The momentum factor (`qlib/factors/momentum.py`): the percentage change of
 * the close over a lookback window, `close.pct_change(lookback)`.
 */
module Momentum {
  import opened Base
  import opened SeriesOps

  /** A constructed factor: its lookback window, in rows. */
  datatype Momentum = Momentum(lookback: nat)

  const DefaultLookback: int := 20

  predicate Valid(m: Momentum) {
    m.lookback > 0
  }

  /** `Momentum(lookback)`: a non-positive lookback is rejected. */
  function New(lookback: int): (r: Result<Momentum, Error>)
    ensures lookback <= 0 <==> r == Err(ValueError("lookback must be a positive integer"))
    ensures r.Ok? ==> Valid(r.value) && r.value.lookback == lookback
  {
    if lookback <= 0 then Err(ValueError("lookback must be a positive integer")) else Ok(Momentum(lookback))
  }

  /** The default lookback of the constructor is accepted. */
  lemma DefaultsAccepted()
    ensures New(DefaultLookback) == Ok(Momentum(20))
  {
  }

  /**
   * `compute`: the output keeps the index of the close, is named `momentum`,
   * is NaN for the first `lookback` rows, and from then on is
   * `(close[t] - close[t - lookback]) / close[t - lookback]` wherever both
   * closes are defined and the earlier one is nonzero.
   */
  function Compute(m: Momentum, close: Series): (r: Series)
    requires Valid(m)
    ensures r.name == "momentum" && r.index == close.index && |r.values| == |close.values|
    ensures forall t :: 0 <= t < |close.values| && t < m.lookback ==> r.values[t] == None
    ensures forall t {:trigger r.values[t]} :: m.lookback <= t < |close.values| ==>
              var c, b := close.values[t], close.values[t - m.lookback];
              r.values[t] == if c.Some? && b.Some? && b.value != 0.0 then Some((c.value - b.value) / b.value) else None
  {
    var values := PctChange(close.values, m.lookback);
    forall t | m.lookback <= t < |close.values|
      ensures var c, b := close.values[t], close.values[t - m.lookback];
              values[t] == if c.Some? && b.Some? && b.value != 0.0 then Some((c.value - b.value) / b.value) else None
    {
      var c, b := close.values[t], close.values[t - m.lookback];
      if c.Some? && b.Some? && b.value != 0.0 { ChangeOverBase(c.value, b.value); }
    }
    Series("momentum", close.index, values)
  }

  /** `x / b - 1` is the change over the base. */
  lemma ChangeOverBase(x: real, b: real)
    requires b != 0.0
    ensures x / b - 1.0 == (x - b) / b
  {
    var q := (x - b) / b;
    assert q * b == x - b;
    DivUnique(x, b, q + 1.0);
  }

  /**
   * For positive prices the momentum has the sign of the price change over
   * the lookback: positive when the close rose, negative when it fell, zero
   * when it is unchanged.
   */
  lemma SignOfMomentum(m: Momentum, close: Series, t: nat)
    requires Valid(m) && m.lookback <= t < |close.values|
    requires close.values[t].Some? && close.values[t - m.lookback].Some?
    requires close.values[t].value > 0.0 && close.values[t - m.lookback].value > 0.0
    ensures var r, c, b := Compute(m, close).values[t], close.values[t].value, close.values[t - m.lookback].value;
            r.Some? && (r.value > 0.0 <==> c > b) && (r.value < 0.0 <==> c < b) && (r.value == 0.0 <==> c == b)
  {
    var c, b := close.values[t].value, close.values[t - m.lookback].value;
    QuotientSign(c - b, b);
  }

  lemma QuotientSign(d: real, b: real)
    requires b > 0.0
    ensures (d / b > 0.0 <==> d > 0.0) && (d / b < 0.0 <==> d < 0.0) && (d / b == 0.0 <==> d == 0.0)
  {
    assert d / b * b == d;
  }
}
