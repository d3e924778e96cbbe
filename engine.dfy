/**
 * The single-asset backtester (`qlib/backtesting/engine.py`): a validated
 * configuration and a `run` that inner-joins a signal with the prices, lags
 * and clamps the signal into a position, multiplies by the simple return and
 * subtracts a turnover commission.
 */
module Engine {
  import opened Base
  import opened SeriesOps

  /** A price or signal series as (timestamp, value) pairs. */
  type Points = seq<(int, Option<real>)>

  /** A constructed `Backtester`: prices re-sorted by timestamp, the position bound, the commission in bps. */
  datatype Backtester = Backtester(prices: Points, maxPosition: real, commissionBps: real)

  /** What the constructor guarantees about every backtester it returns. */
  predicate Valid(b: Backtester) {
    |b.prices| > 0 && StrictlySortedByKey(b.prices) && b.maxPosition > 0.0 && b.commissionBps >= 0.0
  }

  /**
   * `Backtester(prices, max_position=..., commission_bps=...)`: the four checks
   * in source order, then `prices.sort_index()`.
   */
  function NewBacktester(prices: Arg<Points>, maxPosition: real, commissionBps: real): (r: Result<Backtester, Error>)
    requires prices.Given? ==> KeysDistinct(prices.value)
    ensures prices.WrongKind? ==> r == Err(TypeError("prices must be a pandas Series"))
    ensures prices.Given? && |prices.value| == 0 ==> r == Err(ValueError("prices must contain at least one observation"))
    ensures prices.Given? && |prices.value| > 0 && maxPosition <= 0.0 ==> r == Err(ValueError("max_position must be positive"))
    ensures prices.Given? && |prices.value| > 0 && maxPosition > 0.0 && commissionBps < 0.0 ==>
              r == Err(ValueError("commission_bps cannot be negative"))
    ensures r.Ok? <==> prices.Given? && |prices.value| > 0 && maxPosition > 0.0 && commissionBps >= 0.0
    ensures r.Ok? ==> Valid(r.value) && multiset(r.value.prices) == multiset(prices.value)
    ensures r.Ok? ==> r.value.maxPosition == maxPosition && r.value.commissionBps == commissionBps
  {
    if prices.WrongKind? then Err(TypeError("prices must be a pandas Series"))
    else if |prices.value| == 0 then Err(ValueError("prices must contain at least one observation"))
    else if maxPosition <= 0.0 then Err(ValueError("max_position must be positive"))
    else if commissionBps < 0.0 then Err(ValueError("commission_bps cannot be negative"))
    else
      SortByKeyCorrect(prices.value);
      Ok(Backtester(SortByKey(prices.value), maxPosition, commissionBps))
  }

  // ---------------------------------------------------------------------
  // Alignment.

  /** The value at timestamp `t` (the first one, should there be several); NaN when absent. */
  function ValueAt(s: Points, t: int): Option<real> {
    if s == [] then None else if s[0].0 == t then s[0].1 else ValueAt(s[1..], t)
  }

  /** One row of `signal.align(prices, join="inner")`: timestamp, signal value, price. */
  datatype Joined = Joined(t: int, signal: Option<real>, price: Option<real>)

  /**
   * The inner join, in the (sorted) order of the prices: every price row whose
   * timestamp also carries a signal.
   */
  function InnerJoin(signal: Points, prices: Points): (r: seq<Joined>)
    ensures |r| <= |prices|
  {
    if prices == [] then []
    else
      var t := prices[0].0;
      var rest := InnerJoin(signal, prices[1..]);
      if HasKey(signal, t) then [Joined(t, ValueAt(signal, t), prices[0].1)] + rest else rest
  }

  /** Every joined row is a price row whose timestamp the signal has, with the signal's value there. */
  lemma {:induction false} InnerJoinRows(signal: Points, prices: Points, k: int)
    requires 0 <= k < |InnerJoin(signal, prices)|
    ensures var row := InnerJoin(signal, prices)[k];
            HasKey(signal, row.t) && row.signal == ValueAt(signal, row.t) &&
            exists i :: 0 <= i < |prices| && prices[i] == (row.t, row.price)
  {
    var rest := InnerJoin(signal, prices[1..]);
    if HasKey(signal, prices[0].0) && k == 0 {
      assert prices[0] == (InnerJoin(signal, prices)[0].t, InnerJoin(signal, prices)[0].price);
    } else {
      var k' := if HasKey(signal, prices[0].0) then k - 1 else k;
      assert InnerJoin(signal, prices)[k] == rest[k'];
      InnerJoinRows(signal, prices[1..], k');
      var i :| 0 <= i < |prices[1..]| && prices[1..][i] == (rest[k'].t, rest[k'].price);
      assert prices[i + 1] == prices[1..][i];
    }
  }

  /** Every price timestamp that the signal also has appears in the join. */
  lemma {:induction false} InnerJoinComplete(signal: Points, prices: Points, i: int)
    requires 0 <= i < |prices| && HasKey(signal, prices[i].0)
    ensures exists k :: 0 <= k < |InnerJoin(signal, prices)| && InnerJoin(signal, prices)[k].t == prices[i].0
  {
    var r := InnerJoin(signal, prices);
    if i == 0 {
      assert r[0].t == prices[0].0;
    } else {
      assert prices[1..][i - 1] == prices[i];
      InnerJoinComplete(signal, prices[1..], i - 1);
      var rest := InnerJoin(signal, prices[1..]);
      var k :| 0 <= k < |rest| && rest[k].t == prices[i].0;
      if HasKey(signal, prices[0].0) { assert r[k + 1] == rest[k]; } else { assert r[k] == rest[k]; }
    }
  }

  /** On strictly sorted prices the joined timestamps are strictly increasing. */
  lemma {:induction false} InnerJoinSorted(signal: Points, prices: Points)
    requires StrictlySortedByKey(prices)
    ensures forall k, l :: 0 <= k < l < |InnerJoin(signal, prices)| ==>
              InnerJoin(signal, prices)[k].t < InnerJoin(signal, prices)[l].t
  {
    if prices != [] {
      var rest := InnerJoin(signal, prices[1..]);
      InnerJoinSorted(signal, prices[1..]);
      forall l | 0 <= l < |rest| ensures prices[0].0 < rest[l].t {
        InnerJoinRows(signal, prices[1..], l);
        var i :| 0 <= i < |prices[1..]| && prices[1..][i] == (rest[l].t, rest[l].price);
        assert prices[i + 1] == prices[1..][i];
      }
    }
  }

  // ---------------------------------------------------------------------
  // The pipeline of `run`, column by column.

  /**
   * `signal_aligned.shift(1).clip(-max_position, max_position)`: undefined at
   * the first row, the clamped previous signal afterwards, and so always
   * within the bound.
   */
  function Positions(signal: Values, maxPosition: real): (r: Values)
    requires maxPosition > 0.0
    ensures |r| == |signal|
    ensures forall t :: 0 <= t < |r| ==> r[t] == if t == 0 then None else Clip(signal[t - 1], -maxPosition, maxPosition)
    ensures forall t :: 0 <= t < |r| && r[t].Some? ==> -maxPosition <= r[t].value <= maxPosition
  {
    ClipAll(Shift(signal, 1), -maxPosition, maxPosition)
  }

  /**
   * `positions.diff().abs().fillna(0.0)`: the absolute change of position,
   * and 0 wherever that change is undefined (always at rows 0 and 1).
   */
  function Turnover(positions: Values): (r: seq<real>)
    requires |positions| > 0 ==> positions[0].None?
    ensures |r| == |positions|
    ensures forall t {:trigger r[t]} :: 0 <= t < |r| ==>
              r[t] == if t > 0 && positions[t].Some? && positions[t - 1].Some?
                      then Abs(positions[t].value - positions[t - 1].value) else 0.0
    ensures forall t :: 0 <= t < |r| ==> r[t] >= 0.0
    ensures forall t :: 0 <= t < |r| && t < 2 ==> r[t] == 0.0
  {
    FillNa(AbsAll(Diff(positions)), 0.0)
  }

  /** `positions * prices_aligned.pct_change()`: undefined at row 0 and wherever a factor is. */
  function RawPnl(signal: Values, prices: Values, maxPosition: real): (r: Values)
    requires |signal| == |prices| && maxPosition > 0.0
    ensures |r| == |signal|
    ensures forall t {:trigger r[t]} :: 0 <= t < |r| ==>
              r[t] == if t == 0 then None
                      else Mul(Clip(signal[t - 1], -maxPosition, maxPosition), PctAt(prices[t], prices[t - 1]))
  {
    var pos := Positions(signal, maxPosition);
    var ret := PctChange(prices, 1);
    var r := MulAll(pos, ret);
    assert forall t {:trigger r[t]} :: 0 <= t < |r| ==>
             r[t] == if t == 0 then None
                     else Mul(Clip(signal[t - 1], -maxPosition, maxPosition), PctAt(prices[t], prices[t - 1])) by {
      forall t | 0 <= t < |r|
        ensures r[t] == if t == 0 then None
                        else Mul(Clip(signal[t - 1], -maxPosition, maxPosition), PctAt(prices[t], prices[t - 1]))
      {
        assert r[t] == Mul(pos[t], ret[t]);
        if t == 0 { assert pos[t] == None; }
      }
    }
    r
  }

  /** `pnl - turnover * (bps / 10 000)`: the commission subtracted row by row; NaN stays NaN. */
  function Charge(pnl: Values, turnover: seq<real>, commissionBps: real): (r: Values)
    requires |pnl| == |turnover|
    ensures |r| == |pnl|
    ensures forall t :: 0 <= t < |r| ==> r[t] == Sub(pnl[t], Some(Cost(turnover[t], commissionBps)))
  {
    var costs := Defined(Scale(turnover, commissionBps / 10000.0));
    assert forall t :: 0 <= t < |costs| ==> costs[t] == Some(Cost(turnover[t], commissionBps));
    var r := SubAll(pnl, costs);
    assert forall t :: 0 <= t < |r| ==> r[t] == Sub(pnl[t], Some(Cost(turnover[t], commissionBps))) by {
      forall t | 0 <= t < |r| ensures r[t] == Sub(pnl[t], Some(Cost(turnover[t], commissionBps))) {
        assert costs[t] == Some(Cost(turnover[t], commissionBps));
      }
    }
    r
  }

  /**
   * The strategy returns: the raw pnl, charged `turnover * bps / 10 000` when
   * the commission is nonzero (`if self.commission_bps:`).
   */
  function Pnl(signal: Values, prices: Values, maxPosition: real, commissionBps: real): (r: Values)
    requires |signal| == |prices| && maxPosition > 0.0
    ensures |r| == |signal|
  {
    var pnl := RawPnl(signal, prices, maxPosition);
    if commissionBps != 0.0 then Charge(pnl, Turnover(Positions(signal, maxPosition)), commissionBps) else pnl
  }

  /** The first strategy return is always undefined, and periods 0 and 1 are never charged. */
  lemma FirstPeriodsUncharged(signal: Values, prices: Values, maxPosition: real, commissionBps: real, t: int)
    requires |signal| == |prices| && maxPosition > 0.0 && 0 <= t < 2 && t < |signal|
    ensures Pnl(signal, prices, maxPosition, commissionBps)[t] == RawPnl(signal, prices, maxPosition)[t]
    ensures Pnl(signal, prices, maxPosition, commissionBps)[0] == None
  {
  }

  /** Charging a non-negative turnover at a non-negative rate never raises a defined return. */
  lemma ChargeNeverHelps(pnl: Values, turnover: seq<real>, commissionBps: real, t: int)
    requires |pnl| == |turnover| && 0 <= t < |pnl| && turnover[t] >= 0.0 && commissionBps >= 0.0
    requires Charge(pnl, turnover, commissionBps)[t].Some?
    ensures pnl[t].Some? && Charge(pnl, turnover, commissionBps)[t].value <= pnl[t].value
  {
  }

  /** A higher rate charges at least as much. */
  lemma ChargeMonotone(pnl: Values, turnover: seq<real>, bps1: real, bps2: real, t: int)
    requires |pnl| == |turnover| && 0 <= t < |pnl| && turnover[t] >= 0.0 && bps1 <= bps2
    requires Charge(pnl, turnover, bps1)[t].Some?
    ensures Charge(pnl, turnover, bps2)[t].Some?
    ensures Charge(pnl, turnover, bps2)[t].value <= Charge(pnl, turnover, bps1)[t].value
  {
    ProductMonotone(turnover[t], bps1 / 10000.0, bps2 / 10000.0);
  }

  /** A commission never raises a defined strategy return, and the raw return is then defined too. */
  lemma CommissionNeverHelps(signal: Values, prices: Values, maxPosition: real, commissionBps: real, t: int)
    requires |signal| == |prices| && maxPosition > 0.0 && commissionBps >= 0.0 && 0 <= t < |signal|
    requires Pnl(signal, prices, maxPosition, commissionBps)[t].Some?
    ensures RawPnl(signal, prices, maxPosition)[t].Some?
    ensures Pnl(signal, prices, maxPosition, commissionBps)[t].value <= RawPnl(signal, prices, maxPosition)[t].value
  {
    if commissionBps != 0.0 {
      var turnover := Turnover(Positions(signal, maxPosition));
      ChargeNeverHelps(RawPnl(signal, prices, maxPosition), turnover, commissionBps, t);
    }
  }

  /** The strategy return does not increase with the commission rate. */
  lemma CommissionMonotone(signal: Values, prices: Values, maxPosition: real, bps1: real, bps2: real, t: int)
    requires |signal| == |prices| && maxPosition > 0.0 && 0.0 <= bps1 <= bps2 && 0 <= t < |signal|
    requires Pnl(signal, prices, maxPosition, bps1)[t].Some?
    ensures Pnl(signal, prices, maxPosition, bps2)[t].Some?
    ensures Pnl(signal, prices, maxPosition, bps2)[t].value <= Pnl(signal, prices, maxPosition, bps1)[t].value
  {
    var raw := RawPnl(signal, prices, maxPosition);
    var turnover := Turnover(Positions(signal, maxPosition));
    if bps1 != 0.0 {
      ChargeMonotone(raw, turnover, bps1, bps2, t);
    } else if bps2 != 0.0 {
      ChargeNeverHelps(raw, turnover, bps2, t);
    }
  }

  function SignalColumn(rows: seq<Joined>): (r: Values)
    ensures |r| == |rows| && forall k :: 0 <= k < |rows| ==> r[k] == rows[k].signal
  {
    seq(|rows|, k requires 0 <= k < |rows| => rows[k].signal)
  }

  function PriceColumn(rows: seq<Joined>): (r: Values)
    ensures |r| == |rows| && forall k :: 0 <= k < |rows| ==> r[k] == rows[k].price
  {
    seq(|rows|, k requires 0 <= k < |rows| => rows[k].price)
  }

  function JoinIndex(rows: seq<Joined>): (r: seq<int>)
    ensures |r| == |rows| && forall k :: 0 <= k < |rows| ==> r[k] == rows[k].t
  {
    seq(|rows|, k requires 0 <= k < |rows| => rows[k].t)
  }

  /** Whether the signal and the prices share at least one timestamp. */
  predicate Overlap(signal: Points, prices: Points) {
    exists i :: 0 <= i < |prices| && HasKey(signal, prices[i].0)
  }

  /**
   * `Backtester.run(signal)`: a series named `strategy_returns` with one entry
   * per shared timestamp, in increasing order, or the TypeError / ValueError of
   * the source. The signal's timestamps are strictly increasing, like the
   * prices'.
   */
  function Run(b: Backtester, signal: Arg<Points>): (r: Result<Series, Error>)
    requires Valid(b)
    requires signal.Given? ==> StrictlyIncreasing(Keys(signal.value))
    ensures signal.WrongKind? ==> r == Err(TypeError("signal must be a pandas Series"))
    ensures signal.Given? ==> (r.Err? <==> !Overlap(signal.value, b.prices))
    ensures signal.Given? && r.Err? ==> r.error == ValueError("signal and prices do not share any timestamps")
    ensures r.Ok? ==> r.value.name == "strategy_returns" && |r.value.values| == |r.value.index|
    ensures r.Ok? ==> StrictlyIncreasing(r.value.index)
    ensures r.Ok? ==> forall k :: 0 <= k < |r.value.index| ==>
              HasKey(signal.value, r.value.index[k]) && HasKey(b.prices, r.value.index[k])
    ensures r.Ok? ==> forall i :: 0 <= i < |b.prices| && HasKey(signal.value, b.prices[i].0) ==>
              b.prices[i].0 in r.value.index
  {
    if signal.WrongKind? then Err(TypeError("signal must be a pandas Series"))
    else
      var rows := InnerJoin(signal.value, b.prices);
      assert |rows| == 0 <==> !Overlap(signal.value, b.prices) by {
        if |rows| > 0 { InnerJoinRows(signal.value, b.prices, 0); }
        if Overlap(signal.value, b.prices) {
          var i :| 0 <= i < |b.prices| && HasKey(signal.value, b.prices[i].0);
          InnerJoinComplete(signal.value, b.prices, i);
        }
      }
      if |rows| == 0 then Err(ValueError("signal and prices do not share any timestamps"))
      else
        var idx := JoinIndex(rows);
        InnerJoinSorted(signal.value, b.prices);
        assert forall k :: 0 <= k < |idx| ==> HasKey(signal.value, idx[k]) && HasKey(b.prices, idx[k]) by {
          forall k | 0 <= k < |idx| ensures HasKey(signal.value, idx[k]) && HasKey(b.prices, idx[k]) {
            InnerJoinRows(signal.value, b.prices, k);
          }
        }
        assert forall i :: 0 <= i < |b.prices| && HasKey(signal.value, b.prices[i].0) ==> b.prices[i].0 in idx by {
          forall i | 0 <= i < |b.prices| && HasKey(signal.value, b.prices[i].0) ensures b.prices[i].0 in idx {
            InnerJoinComplete(signal.value, b.prices, i);
            var k :| 0 <= k < |rows| && rows[k].t == b.prices[i].0;
            assert idx[k] == b.prices[i].0;
          }
        }
        Ok(Series("strategy_returns", idx,
                  Pnl(SignalColumn(rows), PriceColumn(rows), b.maxPosition, b.commissionBps)))
  }

  /** With distinct timestamps, `ValueAt` finds the value stored at that timestamp. */
  lemma {:induction false} ValueAtKey(s: Points, i: int)
    requires KeysDistinct(s) && 0 <= i < |s|
    ensures ValueAt(s, s[i].0) == s[i].1
  {
    if i > 0 {
      assert s[0].0 != s[i].0;
      assert s[1..][i - 1] == s[i];
      ValueAtKey(s[1..], i - 1);
    }
  }

  /**
   * The strategy return of one period written directly from the formulas of
   * the source rather than as a pipeline of columns. `k` is the period's row
   * number; `signal1`, `signal2` are the signals one and two rows back,
   * `price1` the price one row back.
   */
  function ReturnFormula(maxPosition: real, commissionBps: real, k: nat, signal1: Option<real>,
                         signal2: Option<real>, price: Option<real>, price1: Option<real>): Option<real>
  {
    var raw := RawFormula(maxPosition, k, signal1, price, price1);
    if commissionBps == 0.0 then raw
    else Sub(raw, Some(Cost(TurnoverFormula(maxPosition, k, signal1, signal2), commissionBps)))
  }

  /** The position held is the clamped signal of the previous period, times the simple price return. */
  function RawFormula(maxPosition: real, k: nat, signal1: Option<real>, price: Option<real>,
                      price1: Option<real>): Option<real>
  {
    if k == 0 then None else Mul(Clip(signal1, -maxPosition, maxPosition), PctAt(price, price1))
  }

  /** |change of the clamped position|, and 0 where either position is undefined. */
  function TurnoverFormula(maxPosition: real, k: nat, signal1: Option<real>, signal2: Option<real>): real
  {
    var pos := if k == 0 then None else Clip(signal1, -maxPosition, maxPosition);
    var prevPos := if k < 2 then None else Clip(signal2, -maxPosition, maxPosition);
    if pos.Some? && prevPos.Some? then Abs(pos.value - prevPos.value) else 0.0
  }

  lemma TurnoverAt(signal: Values, maxPosition: real, k: nat)
    requires maxPosition > 0.0 && k < |signal|
    ensures Turnover(Positions(signal, maxPosition))[k] ==
            TurnoverFormula(maxPosition, k, if k >= 1 then signal[k - 1] else None,
                            if k >= 2 then signal[k - 2] else None)
  {
    var m := maxPosition;
    var pos := Positions(signal, m);
    var turnover := Turnover(pos);
    if k == 0 {
      assert turnover[k] == 0.0;
    } else if k == 1 {
      assert turnover[k] == 0.0;
    } else {
      assert pos[k] == Clip(signal[k - 1], -m, m);
      assert pos[k - 1] == Clip(signal[k - 2], -m, m);
      assert turnover[k] == TurnoverFormula(m, k, signal[k - 1], signal[k - 2]);
    }
  }

  /** The pipeline of `run` computes the formula at every row. */
  lemma PnlAt(signal: Values, prices: Values, maxPosition: real, commissionBps: real, k: nat)
    requires |signal| == |prices| && maxPosition > 0.0 && k < |signal|
    ensures Pnl(signal, prices, maxPosition, commissionBps)[k] ==
            ReturnFormula(maxPosition, commissionBps, k,
                          if k >= 1 then signal[k - 1] else None,
                          if k >= 2 then signal[k - 2] else None,
                          prices[k],
                          if k >= 1 then prices[k - 1] else None)
  {
    var s1 := if k >= 1 then signal[k - 1] else None;
    var p1 := if k >= 1 then prices[k - 1] else None;
    var raw := RawPnl(signal, prices, maxPosition);
    assert raw[k] == RawFormula(maxPosition, k, s1, prices[k], p1);
    if commissionBps != 0.0 {
      TurnoverAt(signal, maxPosition, k);
    }
  }

  /** The Joined rows carry exactly the values found in the inputs at their timestamps. */
  lemma JoinedColumns(b: Backtester, signal: Points, k: int)
    requires Valid(b) && 0 <= k < |InnerJoin(signal, b.prices)|
    ensures var rows := InnerJoin(signal, b.prices);
            SignalColumn(rows)[k] == ValueAt(signal, JoinIndex(rows)[k]) &&
            PriceColumn(rows)[k] == ValueAt(b.prices, JoinIndex(rows)[k])
  {
    var rows := InnerJoin(signal, b.prices);
    InnerJoinRows(signal, b.prices, k);
    var i :| 0 <= i < |b.prices| && b.prices[i] == (rows[k].t, rows[k].price);
    ValueAtKey(b.prices, i);
  }

  /** A successful run is the pipeline over the joined columns. */
  lemma RunValue(b: Backtester, signal: Points)
    requires Valid(b) && StrictlyIncreasing(Keys(signal)) && Run(b, Given(signal)).Ok?
    ensures var rows := InnerJoin(signal, b.prices);
            Run(b, Given(signal)).value ==
            Series("strategy_returns", JoinIndex(rows),
                   Pnl(SignalColumn(rows), PriceColumn(rows), b.maxPosition, b.commissionBps))
  {
  }

  /** The pipeline over the joined columns, row by row, is the formula over the input values. */
  lemma JoinedReference(b: Backtester, signal: Points, k: nat)
    requires Valid(b) && k < |InnerJoin(signal, b.prices)|
    ensures var rows := InnerJoin(signal, b.prices);
            var idx := JoinIndex(rows);
            Pnl(SignalColumn(rows), PriceColumn(rows), b.maxPosition, b.commissionBps)[k] ==
            ReturnFormula(b.maxPosition, b.commissionBps, k,
                          if k >= 1 then ValueAt(signal, idx[k - 1]) else None,
                          if k >= 2 then ValueAt(signal, idx[k - 2]) else None,
                          ValueAt(b.prices, idx[k]),
                          if k >= 1 then ValueAt(b.prices, idx[k - 1]) else None)
  {
    var rows := InnerJoin(signal, b.prices);
    var idx := JoinIndex(rows);
    var sig := SignalColumn(rows);
    var px := PriceColumn(rows);
    var s1, s2, p1 := None, None, None;
    JoinedColumns(b, signal, k);
    if k >= 1 {
      JoinedColumns(b, signal, k - 1);
      s1, p1 := ValueAt(signal, idx[k - 1]), ValueAt(b.prices, idx[k - 1]);
      assert s1 == sig[k - 1] && p1 == px[k - 1];
    }
    if k >= 2 {
      JoinedColumns(b, signal, k - 2);
      s2 := ValueAt(signal, idx[k - 2]);
      assert s2 == sig[k - 2];
    }
    PnlAt(sig, px, b.maxPosition, b.commissionBps, k);
  }

  /**
   * Every value `run` returns is the formula applied to the signal and the
   * prices found at its own and the previous shared timestamps.
   */
  lemma RunMatchesReference(b: Backtester, signal: Points, k: nat)
    requires Valid(b) && StrictlyIncreasing(Keys(signal))
    requires Run(b, Given(signal)).Ok? && k < |Run(b, Given(signal)).value.index|
    ensures var idx := Run(b, Given(signal)).value.index;
            Run(b, Given(signal)).value.values[k] ==
            ReturnFormula(b.maxPosition, b.commissionBps, k,
                          if k >= 1 then ValueAt(signal, idx[k - 1]) else None,
                          if k >= 2 then ValueAt(signal, idx[k - 2]) else None,
                          ValueAt(b.prices, idx[k]),
                          if k >= 1 then ValueAt(b.prices, idx[k - 1]) else None)
  {
    RunValue(b, signal);
    JoinedReference(b, signal, k);
  }
}
