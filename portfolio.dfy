/**
 * The multi-asset portfolio backtester (`qlib/backtesting/portfolio.py`):
 * a validated price table with (symbol, field) columns, target weights, a
 * rebalance calendar and a commission; `run` builds a weight matrix (from the
 * calendar, or from per-row normalised signals), lags it one row, sums
 * position × asset return across symbols and charges the summed turnover.
 */
module Portfolio {
  import opened Base
  import opened SeriesOps

  /** One row of a table: a value per column, `None` for NaN. */
  type Row = seq<Option<real>>

  /** Column labels: plain labels, or the (symbol, field) pairs of a two-level MultiIndex. */
  datatype Columns = Flat(labels: seq<string>) | Multi(pairs: seq<(string, string)>)

  function Width(c: Columns): nat {
    if c.Flat? then |c.labels| else |c.pairs|
  }

  /** A price table as given: its column labels and its (timestamp, row) pairs in their given order. */
  datatype PriceFrame = PriceFrame(columns: Columns, rows: seq<(int, Row)>)

  /** Every row has one entry per column. */
  predicate WellShaped(f: PriceFrame) {
    forall i :: 0 <= i < |f.rows| ==> |f.rows[i].1| == Width(f.columns)
  }

  /** `DataFrame.empty`: no rows or no columns. */
  predicate Empty(f: PriceFrame) {
    |f.rows| == 0 || Width(f.columns) == 0
  }

  /**
   * A rebalance frequency (`"D"`, `"W"`, `"ME"`, `"QE"`, ...) as the frequency
   * bucket each timestamp falls in.
   */
  type Calendar = int -> int

  /** Real calendars never put a later timestamp in an earlier bucket. */
  ghost predicate Monotone(calendar: Calendar) {
    forall a, b :: a <= b ==> calendar(a) <= calendar(b)
  }

  /** A constructed `PortfolioBacktester`. */
  datatype PortfolioBacktester = PortfolioBacktester(
    prices: seq<(int, Row)>,          // sorted by timestamp
    pairs: seq<(string, string)>,     // the (symbol, field) column labels
    calendar: Calendar,
    commissionBps: real,
    symbols: seq<string>,
    weights: map<string, real>)

  /** What the constructor guarantees about every backtester it returns. */
  predicate Valid(p: PortfolioBacktester) {
    && |p.prices| > 0 && |p.pairs| > 0 && Distinct(p.pairs)
    && StrictlySortedByKey(p.prices)
    && (forall i :: 0 <= i < |p.prices| ==> |p.prices[i].1| == |p.pairs|)
    && p.symbols == Unique(FirstLevel(p.pairs))
    && p.commissionBps >= 0.0
  }

  // ---------------------------------------------------------------------
  // Symbols: `prices.columns.get_level_values(0).unique()`.

  function FirstLevel(pairs: seq<(string, string)>): (r: seq<string>)
    ensures |r| == |pairs| && forall j :: 0 <= j < |pairs| ==> r[j] == pairs[j].0
  {
    seq(|pairs|, j requires 0 <= j < |pairs| => pairs[j].0)
  }

  /** The distinct labels of `s`, each at its first appearance. */
  function Unique(s: seq<string>): (r: seq<string>)
    ensures |r| <= |s|
  {
    if s == [] then []
    else
      var u := Unique(s[..|s| - 1]);
      if s[|s| - 1] in u then u else u + [s[|s| - 1]]
  }

  /** The position of the first occurrence of `x` in `s`. */
  function FirstIndex<T(==)>(s: seq<T>, x: T): (r: nat)
    requires x in s
    ensures r < |s| && s[r] == x && forall j :: 0 <= j < r ==> s[j] != x
  {
    if s[0] == x then 0 else 1 + FirstIndex(s[1..], x)
  }

  lemma FirstIndexPrefix<T>(s: seq<T>, x: T, n: nat)
    requires n <= |s| && x in s[..n]
    ensures FirstIndex(s[..n], x) == FirstIndex(s, x)
  {
    var i := FirstIndex(s[..n], x);
    assert s[..n][i] == s[i];
    assert forall j :: 0 <= j < i ==> s[..n][j] == s[j];
  }

  /** No label twice, the same labels as `s`, and ordered by first appearance in `s`. */
  lemma {:induction false} UniqueCorrect(s: seq<string>)
    ensures Distinct(Unique(s))
    ensures forall x :: x in Unique(s) <==> x in s
    ensures forall i, j :: 0 <= i < j < |Unique(s)| ==> FirstIndex(s, Unique(s)[i]) < FirstIndex(s, Unique(s)[j])
  {
    if s != [] {
      var n := |s| - 1;
      var init := s[..n];
      var u := Unique(init);
      UniqueCorrect(init);
      assert s == init + [s[n]];
      forall x | x in init ensures FirstIndex(init, x) == FirstIndex(s, x) {
        FirstIndexPrefix(s, x, n);
      }
      if s[n] !in u {
        assert s[n] !in init;
        assert FirstIndex(s, s[n]) == n by {
          forall j | 0 <= j < n ensures s[j] != s[n] { assert s[j] == init[j]; }
        }
        forall i | 0 <= i < |u| ensures FirstIndex(s, u[i]) < n {
          assert u[i] in init;
        }
      }
    }
  }

  // ---------------------------------------------------------------------
  // Weights.

  /** `{s: 1.0 / n for s in symbols}`. */
  function EqualWeights(symbols: seq<string>): (r: map<string, real>)
    requires |symbols| > 0
    ensures r.Keys == set s | s in symbols
    ensures forall s :: s in r ==> r[s] == 1.0 / (|symbols| as real)
  {
    map s | s in symbols :: 1.0 / (|symbols| as real)
  }

  /** The weight the backtester holds in `s`: its target, or 0 when the target omits it. */
  function TargetWeight(weights: map<string, real>, s: string): real {
    if s in weights then weights[s] else 0.0
  }

  /** The target weights of the symbols, in symbol order. */
  function TargetRow(symbols: seq<string>, weights: map<string, real>): (r: seq<real>)
    ensures |r| == |symbols| && forall j :: 0 <= j < |symbols| ==> r[j] == TargetWeight(weights, symbols[j])
  {
    seq(|symbols|, j requires 0 <= j < |symbols| => TargetWeight(weights, symbols[j]))
  }

  /** The default weights of distinct symbols add up to 1. */
  lemma EqualWeightsSumToOne(symbols: seq<string>)
    requires |symbols| > 0
    ensures Sum(TargetRow(symbols, EqualWeights(symbols))) == 1.0
  {
    var n := |symbols| as real;
    SumConstant(TargetRow(symbols, EqualWeights(symbols)), 1.0 / n);
    assert n * (1.0 / n) == 1.0;
  }

  /**
   * The weight set the tests of the repository expect the constructor to
   * insist on: one weight per symbol and no other.
   */
  predicate WeightsMatchSymbols(weights: map<string, real>, symbols: seq<string>) {
    weights.Keys == set s | s in symbols
  }

  // ---------------------------------------------------------------------
  // The constructor.

  /**
   * `PortfolioBacktester(prices, weights, rebalance_freq, commission_bps)`:
   * the four checks in source order, then `prices.sort_index()`, the symbols
   * and the weights (given ones stored as they are, otherwise equal weights).
   */
  function NewPortfolio(prices: Arg<PriceFrame>, weights: Option<map<string, real>>, calendar: Calendar,
                        commissionBps: real): (r: Result<PortfolioBacktester, Error>)
    requires prices.Given? ==> WellShaped(prices.value) && KeysDistinct(prices.value.rows)
    requires prices.Given? && prices.value.columns.Multi? ==> Distinct(prices.value.columns.pairs)
    ensures prices.WrongKind? ==> r == Err(TypeError("prices must be a pandas DataFrame"))
    ensures prices.Given? && Empty(prices.value) ==> r == Err(ValueError("prices must contain at least one observation"))
    ensures prices.Given? && !Empty(prices.value) && prices.value.columns.Flat? ==>
              r == Err(TypeError("prices must have MultiIndex columns (symbol, field)"))
    ensures prices.Given? && !Empty(prices.value) && prices.value.columns.Multi? && commissionBps < 0.0 ==>
              r == Err(ValueError("commission_bps cannot be negative"))
    ensures r.Ok? <==> prices.Given? && !Empty(prices.value) && prices.value.columns.Multi? && commissionBps >= 0.0
    ensures r.Ok? ==> Valid(r.value) && multiset(r.value.prices) == multiset(prices.value.rows)
    ensures r.Ok? ==> r.value.pairs == prices.value.columns.pairs && r.value.commissionBps == commissionBps
    ensures r.Ok? ==> |r.value.symbols| > 0 &&
                      r.value.weights == if weights.None? then EqualWeights(r.value.symbols) else weights.value
  {
    if prices.WrongKind? then Err(TypeError("prices must be a pandas DataFrame"))
    else if Empty(prices.value) then Err(ValueError("prices must contain at least one observation"))
    else if prices.value.columns.Flat? then Err(TypeError("prices must have MultiIndex columns (symbol, field)"))
    else if commissionBps < 0.0 then Err(ValueError("commission_bps cannot be negative"))
    else
      var rows := prices.value.rows;
      var pairs := prices.value.columns.pairs;
      SortByKeyCorrect(rows);
      var sorted := SortByKey(rows);
      SortedRowsShape(rows, |pairs|);
      var symbols := Unique(FirstLevel(pairs));
      UniqueCorrect(FirstLevel(pairs));
      assert pairs[0].0 in symbols;
      Ok(PortfolioBacktester(sorted, pairs, calendar, commissionBps, symbols,
                             if weights.None? then EqualWeights(symbols) else weights.value))
  }

  /** Sorting the rows keeps every row's width. */
  lemma SortedRowsShape(rows: seq<(int, Row)>, width: nat)
    requires forall i :: 0 <= i < |rows| ==> |rows[i].1| == width
    ensures forall i :: 0 <= i < |SortByKey(rows)| ==> |SortByKey(rows)[i].1| == width
  {
    var sorted := SortByKey(rows);
    SortByKeyPermutation(rows);
    forall i | 0 <= i < |sorted| ensures |sorted[i].1| == width {
      assert sorted[i] in multiset(rows);
    }
  }

  /** The constructor accepts weights that leave out a symbol or name one the prices lack. */
  lemma UncheckedWeights(prices: PriceFrame, weights: map<string, real>, calendar: Calendar, commissionBps: real)
    requires WellShaped(prices) && KeysDistinct(prices.rows)
    requires !Empty(prices) && prices.columns.Multi? && Distinct(prices.columns.pairs) && commissionBps >= 0.0
    ensures var r := NewPortfolio(Given(prices), Some(weights), calendar, commissionBps);
            r.Ok? && r.value.weights == weights
  {
  }

  // ---------------------------------------------------------------------
  // The rebalance calendar: `index.to_series().resample(freq).first().dropna()`.

  /**
   * The rebalance dates among the first `n` timestamps of a sorted index: a
   * timestamp is one when it opens a new bucket, that is, when it is the first
   * timestamp or its bucket differs from the previous timestamp's.
   */
  function DatesUpTo(index: seq<int>, calendar: Calendar, n: nat): (r: seq<int>)
    requires n <= |index|
    ensures |r| <= n
    ensures forall k :: 0 <= k < |r| ==> r[k] in index[..n]
  {
    if n == 0 then []
    else
      var d := DatesUpTo(index, calendar, n - 1);
      assert forall k :: 0 <= k < |d| ==> d[k] in index[..n] by {
        assert forall j :: 0 <= j < n - 1 ==> index[..n - 1][j] == index[..n][j];
      }
      if n == 1 || calendar(index[n - 1]) != calendar(index[n - 2]) then d + [index[n - 1]] else d
  }

  function RebalanceDates(index: seq<int>, calendar: Calendar): (r: seq<int>)
    ensures forall k :: 0 <= k < |r| ==> r[k] in index
  {
    assert index[..|index|] == index;
    DatesUpTo(index, calendar, |index|)
  }

  /** The first timestamp is always a rebalance date, and the first of them. */
  lemma {:induction false} DatesStartWithFirst(index: seq<int>, calendar: Calendar, n: nat)
    requires 0 < n <= |index|
    ensures |DatesUpTo(index, calendar, n)| > 0 && DatesUpTo(index, calendar, n)[0] == index[0]
  {
    if n > 1 { DatesStartWithFirst(index, calendar, n - 1); }
  }

  /** Every rebalance date among the first `n` timestamps is below any bound on those timestamps. */
  lemma {:induction false} DatesBelow(index: seq<int>, calendar: Calendar, n: nat, x: int)
    requires n <= |index| && forall j :: 0 <= j < n ==> index[j] < x
    ensures forall k :: 0 <= k < |DatesUpTo(index, calendar, n)| ==> DatesUpTo(index, calendar, n)[k] < x
  {
    if n > 0 { DatesBelow(index, calendar, n - 1, x); }
  }

  /** The rebalance dates keep the order of the index. */
  lemma {:induction false} DatesIncreasing(index: seq<int>, calendar: Calendar, n: nat)
    requires n <= |index| && StrictlyIncreasing(index)
    ensures StrictlyIncreasing(DatesUpTo(index, calendar, n))
  {
    if n > 0 {
      var d := DatesUpTo(index, calendar, n - 1);
      var r := DatesUpTo(index, calendar, n);
      DatesIncreasing(index, calendar, n - 1);
      if r != d {
        assert r == d + [index[n - 1]];
        assert forall j :: 0 <= j < n - 1 ==> index[j] < index[n - 1];
        DatesBelow(index, calendar, n - 1, index[n - 1]);
        forall a, b | 0 <= a < b < |r| ensures r[a] < r[b] {
          assert r[a] == d[a];
          if b < |d| { assert r[b] == d[b]; }
        }
      }
    }
  }

  /**
   * With a sorted index and a monotone calendar, a timestamp is a rebalance
   * date exactly when no earlier timestamp falls in its bucket: the dates are
   * the first observed timestamp of each bucket.
   */
  lemma {:induction false} DatesAreFirstOfBucket(index: seq<int>, calendar: Calendar, n: nat, i: nat)
    requires StrictlyIncreasing(index) && Monotone(calendar) && i < n <= |index|
    ensures index[i] in DatesUpTo(index, calendar, n) <==>
            forall j :: 0 <= j < i ==> calendar(index[j]) != calendar(index[i])
  {
    var d := DatesUpTo(index, calendar, n - 1);
    var r := DatesUpTo(index, calendar, n);
    var opens := n == 1 || calendar(index[n - 1]) != calendar(index[n - 2]);
    assert r == if opens then d + [index[n - 1]] else d;
    if i < n - 1 {
      DatesAreFirstOfBucket(index, calendar, n - 1, i);
      assert index[i] < index[n - 1];
      assert index[i] in r <==> index[i] in d;
    } else {
      DatesBelow(index, calendar, n - 1, index[i]);
      assert index[i] !in d;
      if opens {
        assert index[i] in r;
        forall j | 0 <= j < i ensures calendar(index[j]) != calendar(index[i]) {
          assert index[j] <= index[n - 2];
          assert calendar(index[j]) <= calendar(index[n - 2]);
        }
      } else {
        assert index[i] !in r;
        assert calendar(index[n - 2]) == calendar(index[i]);
      }
    }
  }

  /** No two rebalance dates share a bucket. */
  lemma OneDatePerBucket(index: seq<int>, calendar: Calendar, k1: nat, k2: nat)
    requires StrictlyIncreasing(index) && Monotone(calendar)
    requires k1 < k2 < |RebalanceDates(index, calendar)|
    ensures calendar(RebalanceDates(index, calendar)[k1]) != calendar(RebalanceDates(index, calendar)[k2])
  {
    var r := RebalanceDates(index, calendar);
    var n := |index|;
    DatesIncreasing(index, calendar, n);
    var i1 :| 0 <= i1 < n && index[i1] == r[k1];
    var i2 :| 0 <= i2 < n && index[i2] == r[k2];
    assert i1 < i2;
    assert index[i2] in DatesUpTo(index, calendar, n) by { assert r[k2] in r; }
    DatesAreFirstOfBucket(index, calendar, n, i2);
  }

  /** Every bucket holding a timestamp has a rebalance date. */
  lemma EveryBucketHasADate(index: seq<int>, calendar: Calendar, i: nat)
    requires StrictlyIncreasing(index) && Monotone(calendar) && i < |index|
    ensures exists k :: 0 <= k < |RebalanceDates(index, calendar)| &&
                        calendar(RebalanceDates(index, calendar)[k]) == calendar(index[i])
  {
    var f := FirstInBucket(index, calendar, i);
    DatesAreFirstOfBucket(index, calendar, |index|, f);
    assert index[..|index|] == index;
    var r := RebalanceDates(index, calendar);
    var k :| 0 <= k < |r| && r[k] == index[f];
  }

  /** The earliest position whose timestamp shares the bucket of `index[i]`. */
  function FirstInBucket(index: seq<int>, calendar: Calendar, i: nat): (f: nat)
    requires i < |index|
    ensures f <= i && calendar(index[f]) == calendar(index[i])
    ensures forall j :: 0 <= j < f ==> calendar(index[j]) != calendar(index[i])
  {
    if exists j :: 0 <= j < i && calendar(index[j]) == calendar(index[i]) then
      var j :| 0 <= j < i && calendar(index[j]) == calendar(index[i]);
      FirstInBucket(index, calendar, j)
    else i
  }

  // ---------------------------------------------------------------------
  // Static mode: `_build_rebalance_weights`.

  /** A row of `n` zeros, as `pd.DataFrame(0.0, ...)` starts every row. */
  function ZeroRow(n: nat): (r: Row)
    ensures |r| == n && forall j :: 0 <= j < n ==> r[j] == Some(0.0)
  {
    seq(n, j => Some(0.0))
  }

  /** `pd.Series(weights)` aligned to the symbol columns: the weight, NaN where the symbol has none. */
  function AssignedRow(symbols: seq<string>, weights: map<string, real>): (r: Row)
    ensures |r| == |symbols|
    ensures forall j :: 0 <= j < |symbols| ==>
              r[j] == if symbols[j] in weights then Some(weights[symbols[j]]) else None
  {
    seq(|symbols|, j requires 0 <= j < |symbols| =>
      if symbols[j] in weights then Some(weights[symbols[j]]) else None)
  }

  /** `replace(0.0, nan)` on one row. */
  function ReplaceZero(row: Row): (r: Row)
    ensures |r| == |row|
    ensures forall j :: 0 <= j < |row| ==> r[j] == if row[j] == Some(0.0) then None else row[j]
  {
    seq(|row|, j requires 0 <= j < |row| => if row[j] == Some(0.0) then None else row[j])
  }

  /** `ffill` of one row from the already filled row above it. */
  function FillFrom(above: Row, row: Row): (r: Row)
    requires |above| == |row|
    ensures |r| == |row|
    ensures forall j :: 0 <= j < |row| ==> r[j] == if row[j].None? then above[j] else row[j]
  {
    seq(|row|, j requires 0 <= j < |row| => if row[j].None? then above[j] else row[j])
  }

  /** The matrix of `n` rows that all hold `row`. */
  function StaticWeights(n: nat, row: seq<real>): (r: seq<seq<real>>)
    ensures |r| == n && forall t :: 0 <= t < n ==> r[t] == row
  {
    seq(n, t => row)
  }

  /** A row with the NaN entries of `cleared` and the defined ones of `target`, filled, is `cleared`. */
  lemma FillFromCleared(cleared: Row, n: nat)
    requires |cleared| == n
    ensures FillFrom(cleared, Nones(n)) == cleared && FillFrom(cleared, cleared) == cleared
  {
  }

  /**
   * `_build_rebalance_weights(index)`: zeros everywhere, the target weights
   * on every rebalance date, zeros turned into NaN, forward filled, and the
   * remaining NaN set to 0. Because the first timestamp is always a
   * rebalance date, every row comes out as the target, whatever the calendar.
   */
  method BuildRebalanceWeights(index: seq<int>, symbols: seq<string>, weights: map<string, real>,
                               calendar: Calendar) returns (matrix: seq<seq<real>>)
    requires StrictlyIncreasing(index)
    ensures matrix == StaticWeights(|index|, TargetRow(symbols, weights))
  {
    var n := |symbols|;
    var target := AssignedRow(symbols, weights);
    var frame := new Row[|index|](_ => ZeroRow(n));
    var dates := RebalanceDates(index, calendar);
    if |index| > 0 {
      assert index[..|index|] == index;
      DatesStartWithFirst(index, calendar, |index|);
    }
    SetRebalanceRows(frame, index, dates, target, n);
    var cleared := ReplaceZero(target);
    ReplaceZeros(frame, n, target);
    ForwardFill(frame, n, cleared);
    matrix := FillNaRows(frame[..], 0.0);
    FilledTargets(frame[..], symbols, weights);
  }

  /** `.fillna(v)` on a frame of rows. */
  function FillNaRows(rows: seq<Row>, v: real): (r: seq<seq<real>>)
    ensures |r| == |rows| && forall t :: 0 <= t < |rows| ==> r[t] == FillNa(rows[t], v)
  {
    seq(|rows|, t requires 0 <= t < |rows| => FillNa(rows[t], v))
  }

  /** Rows that all hold the cleared target fill back to the target weights. */
  lemma FilledTargets(rows: seq<Row>, symbols: seq<string>, weights: map<string, real>)
    requires forall t :: 0 <= t < |rows| ==> rows[t] == ReplaceZero(AssignedRow(symbols, weights))
    ensures FillNaRows(rows, 0.0) == StaticWeights(|rows|, TargetRow(symbols, weights))
  {
    assert FillNa(ReplaceZero(AssignedRow(symbols, weights)), 0.0) == TargetRow(symbols, weights);
  }

  /**
   * `weight_matrix.loc[date] = target` for every rebalance date found in the
   * index; the first date is the first timestamp, so row 0 becomes the target.
   */
  method SetRebalanceRows(frame: array<Row>, index: seq<int>, dates: seq<int>, target: Row, n: nat)
    modifies frame
    requires StrictlyIncreasing(index)
    requires frame.Length == |index| && forall t :: 0 <= t < frame.Length ==> frame[t] == ZeroRow(n)
    requires |index| > 0 ==> |dates| > 0 && dates[0] == index[0]
    ensures forall t :: 0 <= t < frame.Length ==> frame[t] == if index[t] in dates then target else ZeroRow(n)
    ensures forall t :: 0 <= t < frame.Length ==> frame[t] == ZeroRow(n) || frame[t] == target
    ensures frame.Length > 0 ==> frame[0] == target
  {
    for k := 0 to |dates|
      invariant forall t :: 0 <= t < frame.Length ==> frame[t] == if index[t] in dates[..k] then target else ZeroRow(n)
    {
      var date := dates[k];
      if date in index {
        var i := FirstIndex(index, date);
        frame[i] := target;
      }
      assert dates[..k + 1] == dates[..k] + [date];
    }
    assert dates[..|dates|] == dates;
    if frame.Length > 0 {
      assert index[0] in dates;
    }
  }

  /** `replace(0.0, nan)`: zero rows become NaN rows, target rows lose their zeros. */
  method ReplaceZeros(frame: array<Row>, n: nat, target: Row)
    modifies frame
    requires |target| == n
    requires forall t :: 0 <= t < frame.Length ==> frame[t] == ZeroRow(n) || frame[t] == target
    requires frame.Length > 0 ==> frame[0] == target
    ensures forall t :: 0 <= t < frame.Length ==> frame[t] == ReplaceZero(old(frame[t]))
    ensures forall t :: 0 <= t < frame.Length ==> frame[t] == Nones(n) || frame[t] == ReplaceZero(target)
    ensures frame.Length > 0 ==> frame[0] == ReplaceZero(target)
  {
    assert ReplaceZero(ZeroRow(n)) == Nones(n);
    for t := 0 to frame.Length
      invariant forall u :: 0 <= u < t ==> frame[u] == ReplaceZero(old(frame[u]))
      invariant forall u :: t <= u < frame.Length ==> frame[u] == old(frame[u])
    {
      frame[t] := ReplaceZero(frame[t]);
    }
  }

  /** `ffill()`: with row 0 holding `cleared` and every other row NaN or `cleared`, all rows become `cleared`. */
  method ForwardFill(frame: array<Row>, n: nat, cleared: Row)
    modifies frame
    requires |cleared| == n
    requires forall t :: 0 <= t < frame.Length ==> frame[t] == Nones(n) || frame[t] == cleared
    requires frame.Length > 0 ==> frame[0] == cleared
    ensures forall t :: 0 <= t < frame.Length ==> frame[t] == cleared
  {
    FillFromCleared(cleared, n);
    if frame.Length > 0 {
      for t := 1 to frame.Length
        invariant forall u :: 0 <= u < t ==> frame[u] == cleared
        invariant forall u :: t <= u < frame.Length ==> frame[u] == Nones(n) || frame[u] == cleared
      {
        frame[t] := FillFrom(frame[t - 1], frame[t]);
      }
    }
  }

  // ---------------------------------------------------------------------
  // Signal mode.

  /** A signal table: one column per symbol name, (timestamp, row) pairs. */
  datatype SignalFrame = SignalFrame(columns: seq<string>, rows: seq<(int, Row)>)

  predicate SignalsWellShaped(signals: SignalFrame) {
    && Distinct(signals.columns) && KeysDistinct(signals.rows)
    && forall i :: 0 <= i < |signals.rows| ==> |signals.rows[i].1| == |signals.columns|
  }

  /** One row of `signals.abs().sum(axis=1)`: NaN entries are skipped. */
  function AbsRowSum(row: Row): real {
    SumDefined(AbsAll(row))
  }

  /** The defined entries of a row divided by `c`, NaN entries as 0. */
  function DivideDefined(row: Row, c: real): (r: seq<real>)
    requires c != 0.0
    ensures |r| == |row|
  {
    if row == [] then []
    else [if row[0].Some? then row[0].value / c else 0.0] + DivideDefined(row[1..], c)
  }

  /**
   * One row of `signals.div(signals.abs().sum(axis=1), axis=0).fillna(0)`.
   * A zero total makes every defined entry 0 / 0 = NaN, so the whole row
   * becomes 0; otherwise each defined entry is divided by the total and NaN
   * entries become 0.
   */
  function NormalizeRow(row: Row): (r: seq<real>)
    ensures |r| == |row|
  {
    var total := AbsRowSum(row);
    if total == 0.0 then Zeros(|row|) else DivideDefined(row, total)
  }

  lemma AbsDivided(x: real, c: real)
    requires c > 0.0
    ensures Abs(x / c) == Abs(x) / c
  {
    if x >= 0.0 { assert x / c >= 0.0; } else { assert x / c < 0.0; }
  }

  lemma DivideSum(a: real, b: real, c: real)
    requires c != 0.0
    ensures a / c + b / c == (a + b) / c
  {
  }

  /** Dividing the defined entries of a row by `c > 0`, NaN counting as 0, divides `Σ|x|` by `c`. */
  lemma {:induction false} AbsSumOfDivided(row: Row, c: real)
    requires c > 0.0
    ensures AbsSum(DivideDefined(row, c)) == AbsRowSum(row) / c
  {
    if row != [] {
      var tail := row[1..];
      var head := if row[0].Some? then Abs(row[0].value) else 0.0;
      assert DivideDefined(row, c)[1..] == DivideDefined(tail, c);
      assert AbsAll(row)[1..] == AbsAll(tail);
      AbsSumOfDivided(tail, c);
      if row[0].Some? { AbsDivided(row[0].value, c); }
      assert Abs(DivideDefined(row, c)[0]) == head / c;
      DivideSum(head, AbsRowSum(tail), c);
    }
  }

  /** Σ|x| over the defined entries is never negative. */
  lemma {:induction false} AbsRowSumNonNegative(row: Row)
    ensures AbsRowSum(row) >= 0.0
  {
    if row != [] {
      assert AbsAll(row)[1..] == AbsAll(row[1..]);
      AbsRowSumNonNegative(row[1..]);
    }
  }

  /**
   * A normalised row has gross exposure `Σ|w| = 1` when the signal row has
   * any nonzero entry, and is all zeros otherwise.
   */
  lemma NormalizedExposure(row: Row)
    ensures AbsRowSum(row) != 0.0 ==> AbsSum(NormalizeRow(row)) == 1.0
    ensures AbsRowSum(row) == 0.0 ==> forall j :: 0 <= j < |row| ==> NormalizeRow(row)[j] == 0.0
  {
    var total := AbsRowSum(row);
    if total != 0.0 {
      AbsRowSumNonNegative(row);
      AbsSumOfDivided(row, total);
      assert total / total == 1.0;
    }
  }

  /** The normalised signal rows, keyed by their timestamps. */
  function NormalizedSignals(signals: SignalFrame): (r: seq<(int, seq<real>)>)
    ensures |r| == |signals.rows|
    ensures forall i :: 0 <= i < |r| ==> r[i] == (signals.rows[i].0, NormalizeRow(signals.rows[i].1))
  {
    seq(|signals.rows|, i requires 0 <= i < |signals.rows| =>
      (signals.rows[i].0, NormalizeRow(signals.rows[i].1)))
  }

  /** A row of `n` zeros. */
  function Zeros(n: nat): (r: seq<real>)
    ensures |r| == n && forall j :: 0 <= j < n ==> r[j] == 0.0
  {
    seq(n, j => 0.0)
  }

  /**
   * Row `t` of `.reindex(index).ffill().fillna(0)` over the normalised rows:
   * a reindexed row is either a whole normalised row (its timestamp has a
   * signal) or all NaN, so the forward fill carries the latest normalised row
   * at or above row `t`, and rows above the first signal become zeros.
   */
  function HeldRow(index: seq<int>, normalized: seq<(int, seq<real>)>, width: nat, t: nat): (r: seq<real>)
    requires t < |index|
    requires forall i :: 0 <= i < |normalized| ==> |normalized[i].1| == width
    ensures |r| == width
    ensures r == Zeros(width) || exists i :: 0 <= i < |normalized| && normalized[i].1 == r
  {
    if HasKey(normalized, index[t]) then PayloadAt(normalized, index[t])
    else if t == 0 then Zeros(width)
    else HeldRow(index, normalized, width, t - 1)
  }

  /**
   * The forward fill holds the normalised row of the latest row at or before
   * `t` whose timestamp has a signal, and zeros when no such row exists.
   */
  lemma {:induction false} HeldRowLatest(index: seq<int>, normalized: seq<(int, seq<real>)>, width: nat, t: nat)
    requires t < |index|
    requires forall i :: 0 <= i < |normalized| ==> |normalized[i].1| == width
    ensures (forall u :: 0 <= u <= t ==> !HasKey(normalized, index[u])) ==> HeldRow(index, normalized, width, t) == Zeros(width)
    ensures forall u :: 0 <= u <= t && HasKey(normalized, index[u]) && (forall v :: u < v <= t ==> !HasKey(normalized, index[v])) ==>
              HeldRow(index, normalized, width, t) == PayloadAt(normalized, index[u])
    decreases t
  {
    if t > 0 && !HasKey(normalized, index[t]) {
      HeldRowLatest(index, normalized, width, t - 1);
    }
  }

  /** The weight matrix of signal mode, one row per price timestamp. */
  function SignalWeights(index: seq<int>, signals: SignalFrame): (r: seq<seq<real>>)
    requires SignalsWellShaped(signals)
    ensures |r| == |index| && forall t :: 0 <= t < |index| ==> |r[t]| == |signals.columns|
  {
    var normalized := NormalizedSignals(signals);
    seq(|index|, t requires 0 <= t < |index| => HeldRow(index, normalized, |signals.columns|, t))
  }

  /**
   * Every row of the signal-mode weight matrix is fully defined and has gross
   * exposure 1 or is all zeros.
   */
  lemma SignalWeightsExposure(index: seq<int>, signals: SignalFrame, t: nat)
    requires SignalsWellShaped(signals) && t < |index|
    ensures var row := SignalWeights(index, signals)[t];
            AbsSum(row) == 1.0 || forall j :: 0 <= j < |row| ==> row[j] == 0.0
  {
    var normalized := NormalizedSignals(signals);
    var row := HeldRow(index, normalized, |signals.columns|, t);
    if row != Zeros(|signals.columns|) {
      var i :| 0 <= i < |normalized| && normalized[i].1 == row;
      NormalizedExposure(signals.rows[i].1);
    }
  }

  // ---------------------------------------------------------------------
  // `run`.

  /** The positions of the close-price columns among the first `n` columns, in column order. */
  function ClosesUpTo(pairs: seq<(string, string)>, n: nat): (r: seq<nat>)
    requires n <= |pairs|
    ensures forall c :: 0 <= c < |r| ==> r[c] < n && pairs[r[c]].1 == "close"
    ensures forall j :: 0 <= j < n && pairs[j].1 == "close" ==> j in r
  {
    if n == 0 then []
    else
      var r := ClosesUpTo(pairs, n - 1);
      if pairs[n - 1].1 == "close" then r + [n - 1] else r
  }

  /** The columns `prices.xs("close", axis=1, level=1)` keeps, in column order. */
  function CloseColumns(pairs: seq<(string, string)>): (r: seq<nat>)
    ensures forall c :: 0 <= c < |r| ==> r[c] < |pairs| && pairs[r[c]].1 == "close"
    ensures forall j :: 0 <= j < |pairs| && pairs[j].1 == "close" ==> j in r
  {
    ClosesUpTo(pairs, |pairs|)
  }

  /** Column `j` of the sorted price rows. */
  function Column(rows: seq<(int, Row)>, j: nat): (r: Values)
    requires forall i :: 0 <= i < |rows| ==> j < |rows[i].1|
    ensures |r| == |rows| && forall i :: 0 <= i < |rows| ==> r[i] == rows[i].1[j]
  {
    seq(|rows|, i requires 0 <= i < |rows| => rows[i].1[j])
  }

  /** `weight_matrix.shift(1)`: no position on the first row, the previous row's weights afterwards. */
  function Lag(matrix: seq<seq<real>>, width: nat): (r: seq<Row>)
    ensures |r| == |matrix|
    ensures forall t {:trigger r[t]} :: 0 <= t < |r| ==> r[t] == if t == 0 then Nones(width) else Defined(matrix[t - 1])
  {
    seq(|matrix|, t requires 0 <= t < |matrix| => if t == 0 then Nones(width) else Defined(matrix[t - 1]))
  }

  /** The position held in symbol `s` at row `t`: NaN when the weights have no column `s`. */
  function PositionIn(positions: seq<Row>, columns: seq<string>, t: nat, s: string): Option<real>
    requires t < |positions| && |positions[t]| == |columns|
  {
    if s in columns then positions[t][FirstIndex(columns, s)] else None
  }

  /** Every row of the table has one entry per column label. */
  predicate Shaped(prices: seq<(int, Row)>, pairs: seq<(string, string)>) {
    forall i :: 0 <= i < |prices| ==> |prices[i].1| == |pairs|
  }

  /** The asset return of close column number `c` at row `t`: `close_prices.pct_change()`. */
  function AssetReturn(prices: seq<(int, Row)>, pairs: seq<(string, string)>, c: nat, t: nat): Option<real>
    requires Shaped(prices, pairs) && c < |CloseColumns(pairs)| && t < |prices|
  {
    PctChange(Column(prices, CloseColumns(pairs)[c]), 1)[t]
  }

  /** The symbol of close column number `c`. */
  function CloseSymbol(pairs: seq<(string, string)>, c: nat): string
    requires c < |CloseColumns(pairs)|
  {
    pairs[CloseColumns(pairs)[c]].0
  }

  /** Row `t` of `(positions * asset_returns)`, aligned by symbol; NaN where either side is. */
  function Exposures(prices: seq<(int, Row)>, pairs: seq<(string, string)>, positions: seq<Row>,
                     columns: seq<string>, t: nat): (r: Values)
    requires Shaped(prices, pairs) && |positions| == |prices| && t < |prices|
    requires forall u :: 0 <= u < |positions| ==> |positions[u]| == |columns|
    ensures |r| == |CloseColumns(pairs)|
  {
    var closes := CloseColumns(pairs);
    seq(|closes|, c requires 0 <= c < |closes| =>
      Mul(PositionIn(positions, columns, t, CloseSymbol(pairs, c)), AssetReturn(prices, pairs, c, t)))
  }

  /** Row `t` of `positions.diff().abs().sum(axis=1).fillna(0.0)`. */
  function PortfolioTurnover(positions: seq<Row>, t: nat): real
    requires t < |positions| && (t > 0 ==> |positions[t]| == |positions[t - 1]|)
  {
    if t == 0 then 0.0 else SumDefined(AbsAll(SubAll(positions[t], positions[t - 1])))
  }

  /**
   * The portfolio return of row `t`: the row sum of the exposures (NaN
   * skipped, so an all-NaN row gives 0.0), minus the commission on the summed
   * turnover when the rate is nonzero.
   */
  function NetReturn(prices: seq<(int, Row)>, pairs: seq<(string, string)>, commissionBps: real,
                     positions: seq<Row>, columns: seq<string>, t: nat): real
    requires Shaped(prices, pairs) && |positions| == |prices| && t < |prices|
    requires forall u :: 0 <= u < |positions| ==> |positions[u]| == |columns|
  {
    var gross := SumDefined(Exposures(prices, pairs, positions, columns, t));
    if commissionBps != 0.0 then gross - Cost(PortfolioTurnover(positions, t), commissionBps) else gross
  }

  /** The portfolio returns for a weight matrix with the given columns, one per price row. */
  function PortfolioReturns(p: PortfolioBacktester, matrix: seq<seq<real>>, columns: seq<string>): (r: seq<real>)
    requires Valid(p) && |matrix| == |p.prices|
    requires forall t :: 0 <= t < |matrix| ==> |matrix[t]| == |columns|
    ensures |r| == |p.prices|
  {
    var positions := Lag(matrix, |columns|);
    seq(|p.prices|, t requires 0 <= t < |p.prices| =>
      NetReturn(p.prices, p.pairs, p.commissionBps, positions, columns, t))
  }

  /** The returns `run` hands back: its name, the sorted timestamps and one value for each. */
  datatype Returns = Returns(name: string, index: seq<int>, values: seq<real>)

  /**
   * `run(signals)`: a KeyError when no column is a close price; otherwise the
   * returns named `portfolio_returns`, one per price row, computed from the
   * signal weights when signals are given and from the static weights built
   * by `BuildRebalanceWeights` otherwise.
   */
  method Run(p: PortfolioBacktester, signals: Option<SignalFrame>) returns (r: Result<Returns, Error>)
    requires Valid(p)
    requires signals.Some? ==> SignalsWellShaped(signals.value)
    ensures r.Err? <==> |CloseColumns(p.pairs)| == 0
    ensures r.Err? ==> r.error == KeyError("close")
    ensures r.Ok? ==> r.value.name == "portfolio_returns" && r.value.index == Keys(p.prices)
    ensures r.Ok? ==> |r.value.values| == |p.prices|
    ensures r.Ok? && signals.None? ==>
              r.value.values == PortfolioReturns(p, StaticWeights(|p.prices|, TargetRow(p.symbols, p.weights)), p.symbols)
    ensures r.Ok? && signals.Some? ==>
              r.value.values == PortfolioReturns(p, SignalWeights(Keys(p.prices), signals.value), signals.value.columns)
  {
    if |CloseColumns(p.pairs)| == 0 {
      return Err(KeyError("close"));
    }
    var index := Keys(p.prices);
    var matrix: seq<seq<real>>;
    var columns: seq<string>;
    if signals.Some? {
      matrix := SignalWeights(index, signals.value);
      columns := signals.value.columns;
    } else {
      SortedTimestamps(p.prices);
      matrix := BuildRebalanceWeights(index, p.symbols, p.weights, p.calendar);
      columns := p.symbols;
    }
    r := Ok(Returns("portfolio_returns", index, PortfolioReturns(p, matrix, columns)));
  }

  /** The timestamps of strictly sorted rows strictly increase. */
  lemma SortedTimestamps(rows: seq<(int, Row)>)
    requires StrictlySortedByKey(rows)
    ensures StrictlyIncreasing(Keys(rows))
  {
  }

  // ---------------------------------------------------------------------
  // Properties of `run`.

  lemma {:induction false} SumDefinedNones(xs: Values)
    requires forall i :: 0 <= i < |xs| ==> xs[i].None?
    ensures SumDefined(xs) == 0.0
  {
    if xs != [] {
      assert forall i :: 0 <= i < |xs| - 1 ==> xs[1..][i] == xs[i + 1];
      SumDefinedNones(xs[1..]);
    }
  }

  lemma {:induction false} SumDefinedZeros(xs: Values)
    requires forall i :: 0 <= i < |xs| ==> xs[i].None? || xs[i] == Some(0.0)
    ensures SumDefined(xs) == 0.0
  {
    if xs != [] {
      assert forall i :: 0 <= i < |xs| - 1 ==> xs[1..][i] == xs[i + 1];
      SumDefinedZeros(xs[1..]);
    }
  }

  /** Turnover is never negative, and it is 0 on the first two rows, where a position is missing. */
  lemma TurnoverBounds(matrix: seq<seq<real>>, width: nat, t: nat)
    requires t < |matrix| && forall u :: 0 <= u < |matrix| ==> |matrix[u]| == width
    ensures PortfolioTurnover(Lag(matrix, width), t) >= 0.0
    ensures t < 2 ==> PortfolioTurnover(Lag(matrix, width), t) == 0.0
  {
    var positions := Lag(matrix, width);
    if t > 0 {
      var delta := SubAll(positions[t], positions[t - 1]);
      AbsRowSumNonNegative(delta);
      if t == 1 {
        assert positions[0] == Nones(width);
        SumDefinedNones(AbsAll(delta));
      }
    }
  }

  /** With the same weights on every row, positions never change and turnover is 0. */
  lemma StaticTurnoverZero(n: nat, row: seq<real>, t: nat)
    requires t < n
    ensures PortfolioTurnover(Lag(StaticWeights(n, row), |row|), t) == 0.0
  {
    var matrix := StaticWeights(n, row);
    var positions := Lag(matrix, |row|);
    TurnoverBounds(matrix, |row|, t);
    if t >= 2 {
      assert positions[t] == Defined(row) && positions[t - 1] == Defined(row);
      SumDefinedZeros(AbsAll(SubAll(positions[t], positions[t - 1])));
    }
  }

  /** Row 0 of the portfolio returns is 0.0, not NaN: nothing is held yet. */
  lemma ReturnsStartAtZero(p: PortfolioBacktester, matrix: seq<seq<real>>, columns: seq<string>)
    requires Valid(p) && |matrix| == |p.prices|
    requires forall t :: 0 <= t < |matrix| ==> |matrix[t]| == |columns|
    ensures PortfolioReturns(p, matrix, columns)[0] == 0.0
  {
    var positions := Lag(matrix, |columns|);
    var e := Exposures(p.prices, p.pairs, positions, columns, 0);
    assert positions[0] == Nones(|columns|);
    assert forall c :: 0 <= c < |e| ==> e[c].None?;
    SumDefinedNones(e);
    TurnoverBounds(matrix, |columns|, 0);
  }

  /** The same backtester without commission. */
  function Uncharged(p: PortfolioBacktester): (q: PortfolioBacktester)
    requires Valid(p)
    ensures Valid(q) && q.commissionBps == 0.0 && q.prices == p.prices && q.pairs == p.pairs
  {
    p.(commissionBps := 0.0)
  }

  /**
   * A commission never raises a portfolio return: with a non-negative rate,
   * every row is at most the uncharged row.
   */
  lemma CommissionNeverHelps(p: PortfolioBacktester, matrix: seq<seq<real>>, columns: seq<string>, t: nat)
    requires Valid(p) && |matrix| == |p.prices| && t < |p.prices|
    requires forall u :: 0 <= u < |matrix| ==> |matrix[u]| == |columns|
    ensures PortfolioReturns(p, matrix, columns)[t] <= PortfolioReturns(Uncharged(p), matrix, columns)[t]
  {
    TurnoverBounds(matrix, |columns|, t);
  }

  /** Returns do not increase with the commission rate. */
  lemma CommissionMonotone(p: PortfolioBacktester, bps2: real, matrix: seq<seq<real>>, columns: seq<string>, t: nat)
    requires Valid(p) && p.commissionBps <= bps2 && |matrix| == |p.prices| && t < |p.prices|
    requires forall u :: 0 <= u < |matrix| ==> |matrix[u]| == |columns|
    ensures Valid(p.(commissionBps := bps2))
    ensures PortfolioReturns(p.(commissionBps := bps2), matrix, columns)[t] <= PortfolioReturns(p, matrix, columns)[t]
  {
    var q := p.(commissionBps := bps2);
    var positions := Lag(matrix, |columns|);
    assert PortfolioTurnover(positions, t) >= 0.0 by {
      TurnoverBounds(matrix, |columns|, t);
    }
    assert NetReturn(q.prices, q.pairs, bps2, positions, columns, t)
           <= NetReturn(p.prices, p.pairs, p.commissionBps, positions, columns, t) by {
      NetReturnMonotone(p.prices, p.pairs, p.commissionBps, bps2, positions, columns, t);
    }
  }

  /** One row's return does not increase with the commission rate, on a non-negative turnover. */
  lemma NetReturnMonotone(prices: seq<(int, Row)>, pairs: seq<(string, string)>, bps1: real, bps2: real,
                          positions: seq<Row>, columns: seq<string>, t: nat)
    requires Shaped(prices, pairs) && |positions| == |prices| && t < |prices|
    requires forall u :: 0 <= u < |positions| ==> |positions[u]| == |columns|
    requires 0.0 <= bps1 <= bps2 && PortfolioTurnover(positions, t) >= 0.0
    ensures NetReturn(prices, pairs, bps2, positions, columns, t) <= NetReturn(prices, pairs, bps1, positions, columns, t)
  {
    var turnover := PortfolioTurnover(positions, t);
    ProductMonotone(turnover, bps1 / 10000.0, bps2 / 10000.0);
    assert Cost(turnover, bps1) <= Cost(turnover, bps2);
  }

  /**
   * In static mode the commission changes nothing: the positions never move,
   * so the charged returns equal the uncharged ones.
   */
  lemma StaticCommissionIrrelevant(p: PortfolioBacktester, t: nat)
    requires Valid(p) && t < |p.prices|
    ensures var matrix := StaticWeights(|p.prices|, TargetRow(p.symbols, p.weights));
            PortfolioReturns(p, matrix, p.symbols)[t] == PortfolioReturns(Uncharged(p), matrix, p.symbols)[t]
  {
    StaticTurnoverZero(|p.prices|, TargetRow(p.symbols, p.weights), t);
  }
}
