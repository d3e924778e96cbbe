# qlib core in Dafny

This project models the core of `qlib`, a small Python toolkit for backtesting. It covers:

- `DataLoader.load`, which fetches OHLCV price data from a CSV file, a URL or yfinance and cleans it.
- Four factors: momentum, SMA crossover, Wilder RSI and MACD. Each turns a close-price series into a signal.
- `Backtester`, a single-asset backtester. It runs a signal against a price series.
- `PortfolioBacktester`, a multi-asset backtester. It takes static weights that are rebalanced on a calendar, or per-row signal weights.
- Three return metrics: Sharpe, Sortino and maximum drawdown.

The pandas objects are pure values:

- A series is `seq<Option<real>>`, with `None` standing for NaN.
- An index is a sequence of integer timestamps.
- A data frame is a datatype holding its column labels, its index and its rows.

Outside effects become parameters:

- `read_csv`, the yfinance module and its `download`, and the date parser are fields of a `Sources` value.
- `np.sqrt` is a function parameter that must behave like a square root.
- The resample calendar is a monotone bucket function on timestamps.

Two parts of the source change state step by step, and they are imperative here:

- `_build_rebalance_weights` fills a weight matrix held in an `array` in place.
- The loop of `load` is a `while` loop.

Each method is proved equal to a specification function. The properties are then proved about that function.

Modules follow the source files:

| module | file | models |
|---|---|---|
| `Base` | `base.dfy` | `Option`, `Result`, the Python exceptions and an argument that may have the wrong type |
| `SeriesOps` | `series_ops.dfy` | the pandas column operations shared by the core (`shift`, `pct_change`, `diff`, `clip`, `fillna`, `sort_index`, skipna sums) |
| `Ewm` | `ewm.dfy` | `ewm(alpha=…, min_periods=…, adjust=False).mean()` |
| `Engine` | `engine.dfy` | `qlib/backtesting/engine.py` |
| `Portfolio` | `portfolio.dfy` | `qlib/backtesting/portfolio.py` |
| `Momentum`, `Sma`, `Rsi`, `Macd` | `momentum.dfy`, `sma.dfy`, `rsi.dfy`, `macd.dfy` | `qlib/factors/*.py` |
| `Metrics` | `metrics.dfy` | `qlib/metrics/returns.py` |
| `Loader` | `loader.dfy` | `qlib/data/loader.py` |

## Model

| member | source | states |
|---|---|---|
| SeriesOps.Shift | qlib/backtesting/engine.py:38 | `shift(k)`: the length is kept, the first `k` rows are NaN, and row `i` is row `i - k` of the input. |
| SeriesOps.PctChange | qlib/factors/momentum.py:53 | `pct_change(k)`: NaN for the first `k` rows; after that `x[i] / x[i-k] - 1`, NaN when either value is NaN or the base is zero. |
| SeriesOps.Diff | qlib/backtesting/engine.py:43 | `diff()`: NaN at row 0; after that the difference of consecutive values, NaN when either is NaN. |
| SeriesOps.FillNa | qlib/backtesting/engine.py:43 | `fillna(v)`: every NaN becomes `v`, and every defined value is kept. |
| SeriesOps.Cost | qlib/backtesting/engine.py:44 | The commission of a period, `turnover * bps / 10000`, is never negative for a non-negative turnover and rate. |
| SeriesOps.SortByKeyCorrect | qlib/backtesting/engine.py:25 | `sort_index()` yields the same pairs (a multiset equality), in non-decreasing timestamp order, and strictly increasing when the timestamps are distinct. |
| SeriesOps.SortByKeyPermutation | qlib/backtesting/engine.py:25 | Sorting by timestamp is a permutation of the pairs. |
| SeriesOps.SortByKeySorted | qlib/backtesting/engine.py:25 | Sorting by timestamp gives non-decreasing timestamps. |
| SeriesOps.SortByKeyStrict | qlib/backtesting/engine.py:25 | With distinct timestamps the sorted order is strict. |
| SeriesOps.SortByKeyPayloads | qlib/backtesting/portfolio.py:39 | Sorting rows by timestamp keeps the multiset of rows. |
| SeriesOps.InsertSorted | qlib/backtesting/engine.py:25 | Inserting one pair into a sorted sequence keeps it sorted (the step of the sort). |
| SeriesOps.InsertMultiset | qlib/backtesting/engine.py:25 | Inserting a pair adds exactly that pair to the multiset. |
| SeriesOps.AbsSumZero | qlib/backtesting/portfolio.py:86 | A sum of absolute values is zero exactly when every entry is zero. |
| SeriesOps.SumAppend | qlib/backtesting/portfolio.py:82 | A row sum splits over a concatenation. |
| Engine.NewBacktester | qlib/backtesting/engine.py:9-27 | The four checks raise their TypeError or ValueError in source order. The constructor succeeds exactly when none fires. The stored prices are then a strictly sorted permutation of the input, with the bound and the rate stored as given. |
| Engine.InnerJoinRows | qlib/backtesting/engine.py:34 | Every row of `align(join="inner")` is a price row whose timestamp the signal also has, and it carries the signal's value. |
| Engine.InnerJoinComplete | qlib/backtesting/engine.py:34 | Every price timestamp that the signal shares appears in the join. |
| Engine.InnerJoinSorted | qlib/backtesting/engine.py:34 | On sorted prices the joined timestamps strictly increase. |
| Engine.Positions | qlib/backtesting/engine.py:38 | The position is NaN on row 0 and is the previous signal clamped to `[-max, max]` afterwards, so it never exceeds the bound. |
| Engine.Turnover | qlib/backtesting/engine.py:43 | Turnover is the absolute change of position and 0 where that change is undefined. It is never negative and is 0 on rows 0 and 1. |
| Engine.RawPnl | qlib/backtesting/engine.py:39-40 | The raw return of each row is the position times the simple price return. |
| Engine.Charge | qlib/backtesting/engine.py:44-45 | The commission is subtracted row by row, and NaN stays NaN. |
| Engine.FirstPeriodsUncharged | qlib/backtesting/engine.py:38-45 | The first strategy return is always NaN, and rows 0 and 1 are never charged. |
| Engine.ChargeNeverHelps | qlib/backtesting/engine.py:44-45 | Charging a non-negative turnover never raises a defined return. |
| Engine.ChargeMonotone | qlib/backtesting/engine.py:44-45 | A higher rate charges at least as much. |
| Engine.CommissionNeverHelps | qlib/backtesting/engine.py:42-45 | With a non-negative rate every defined strategy return is at most the uncharged one, which is then defined too. |
| Engine.CommissionMonotone | qlib/backtesting/engine.py:42-45 | Strategy returns do not increase with the commission rate. |
| Engine.Run | qlib/backtesting/engine.py:29-48 | For a signal with strictly increasing timestamps: a non-Series signal raises TypeError. A ValueError is raised exactly when the signal and the prices share no timestamp. Otherwise the result is named `strategy_returns`, and its index is exactly the shared timestamps, strictly increasing. |
| Engine.ValueAtKey | qlib/backtesting/engine.py:34 | With distinct timestamps the lookup by timestamp finds the value stored there. |
| Engine.TurnoverAt | qlib/backtesting/engine.py:38-43 | The turnover column at row `k` equals the direct turnover formula on the signals one and two rows back. |
| Engine.PnlAt | qlib/backtesting/engine.py:38-45 | The column pipeline of `run` at row `k` equals the closed per-period return formula. |
| Engine.JoinedColumns | qlib/backtesting/engine.py:34 | The joined signal and price columns hold, at each row, the signal's and the prices' values for that row's timestamp. |
| Engine.RunValue | qlib/backtesting/engine.py:34-48 | A successful run is the return pipeline applied to the columns of the inner join. |
| Engine.JoinedReference | qlib/backtesting/engine.py:34-45 | The pipeline over the joined columns equals the per-period formula applied to the input values. |
| Engine.RunMatchesReference | qlib/backtesting/engine.py:29-48 | Every value of `run` is the reference formula on the signal and the prices at its own shared timestamp and the previous one or two. |
| Portfolio.Unique | qlib/backtesting/portfolio.py:44 | `unique()` returns each label once, in order of first appearance. |
| Portfolio.UniqueCorrect | qlib/backtesting/portfolio.py:44 | `unique()` holds no label twice, covers exactly the labels of the input, and keeps first-appearance order. |
| Portfolio.EqualWeights | qlib/backtesting/portfolio.py:47-50 | The default weight of every symbol is `1 / n`. |
| Portfolio.EqualWeightsSumToOne | qlib/backtesting/portfolio.py:47-50 | The default weights of distinct symbols sum to 1. |
| Portfolio.NewPortfolio | qlib/backtesting/portfolio.py:11-52 | The four checks raise in source order, and the constructor succeeds exactly when none fires. The stored prices are a sorted permutation of the rows. The symbols are the unique first-level labels, and there is at least one. The weights are the given map, or equal weights. |
| Portfolio.SortedRowsShape | qlib/backtesting/portfolio.py:39 | Sorting the rows keeps every row's width. |
| Portfolio.UncheckedWeights | qlib/backtesting/portfolio.py:51-52 | Any weights map is accepted and stored unchanged, even one that omits symbols or names symbols the prices lack. |
| Portfolio.DatesUpTo | qlib/backtesting/portfolio.py:102-104 | A timestamp is a rebalance date when it opens a new calendar bucket. |
| Portfolio.DatesStartWithFirst | qlib/backtesting/portfolio.py:102-104 | The first timestamp is always the first rebalance date. |
| Portfolio.DatesIncreasing | qlib/backtesting/portfolio.py:102-104 | Rebalance dates strictly increase. |
| Portfolio.DatesAreFirstOfBucket | qlib/backtesting/portfolio.py:102-104 | On a sorted index and a monotone calendar, a timestamp is a rebalance date exactly when no earlier timestamp shares its bucket. This is `resample(freq).first()`. |
| Portfolio.OneDatePerBucket | qlib/backtesting/portfolio.py:102-104 | No two rebalance dates share a bucket. |
| Portfolio.EveryBucketHasADate | qlib/backtesting/portfolio.py:102-104 | Every bucket that holds a timestamp has a rebalance date. |
| Portfolio.BuildRebalanceWeights | qlib/backtesting/portfolio.py:93-115 | The array built in place ends with every row equal to the target weights, with a missing symbol as 0. This holds for every calendar. |
| Portfolio.FilledTargets | qlib/backtesting/portfolio.py:113 | `fillna(0.0)` turns rows that all hold the target with zeros as NaN back into the target weights on every row. |
| Portfolio.SetRebalanceRows | qlib/backtesting/portfolio.py:107-109 | After the loop, row `t` is the target exactly when its timestamp is a rebalance date, and all zeros otherwise. Row 0 is the target. |
| Portfolio.ReplaceZeros | qlib/backtesting/portfolio.py:112 | `replace(0.0, nan)` replaces every row by its old value with each 0.0 turned into NaN. So zero rows become NaN rows, and target rows become the target with its zeros as NaN. |
| Portfolio.ForwardFill | qlib/backtesting/portfolio.py:113 | `ffill()` fills every row from row 0, so all rows become the cleared target. |
| Portfolio.FillFromCleared | qlib/backtesting/portfolio.py:113 | Forward-filling a NaN row or a cleared row from a cleared row gives the cleared row. |
| Portfolio.NormalizeRow | qlib/backtesting/portfolio.py:73 | A signal row is divided by its skipna absolute sum, and NaN becomes 0. A zero total gives a zero row. |
| Portfolio.AbsSumOfDivided | qlib/backtesting/portfolio.py:73 | Dividing a row by `c > 0` divides its absolute sum by `c`. |
| Portfolio.NormalizedExposure | qlib/backtesting/portfolio.py:59-73 | A normalised row has gross exposure exactly 1 when the signal row has a nonzero entry, and is all zeros otherwise. |
| Portfolio.HeldRow | qlib/backtesting/portfolio.py:74 | After `reindex(...).ffill().fillna(0)`, a row has the signal width and is all zeros or one of the normalised rows. |
| Portfolio.HeldRowLatest | qlib/backtesting/portfolio.py:74 | Row `t` is the normalised row of the latest row at or before `t` whose timestamp has a signal, and all zeros when no such row exists. |
| Portfolio.SignalWeights | qlib/backtesting/portfolio.py:71-74 | The signal weight matrix has one row per price timestamp. |
| Portfolio.SignalWeightsExposure | qlib/backtesting/portfolio.py:71-74 | Every row of the signal weight matrix has gross exposure 1 or is all zeros. |
| Portfolio.CloseColumns | qlib/backtesting/portfolio.py:67 | `xs("close", level=1)` keeps exactly the columns whose field is `close`, in column order. |
| Portfolio.Lag | qlib/backtesting/portfolio.py:79 | `shift(1)`: row 0 holds no position, and every later row holds the previous row's weights. |
| Portfolio.Exposures | qlib/backtesting/portfolio.py:82 | There is one product per close column. The definition multiplies the position in the column's symbol by its return, aligned by symbol, and gives NaN when either is NaN. |
| Portfolio.PortfolioReturns | qlib/backtesting/portfolio.py:79-89 | There is one portfolio return per price row. |
| Portfolio.Run | qlib/backtesting/portfolio.py:54-91 | `run` raises KeyError exactly when no column is a close price. Otherwise the result is named `portfolio_returns` and is indexed by the sorted price timestamps. Its values come from the signal weights when signals are given and from `BuildRebalanceWeights` otherwise. |
| Portfolio.SortedTimestamps | qlib/backtesting/portfolio.py:39 | The timestamps of strictly sorted rows strictly increase. |
| Portfolio.TurnoverBounds | qlib/backtesting/portfolio.py:86 | Portfolio turnover is never negative and is 0 on the first two rows. |
| Portfolio.StaticTurnoverZero | qlib/backtesting/portfolio.py:76-86 | With the same weights on every row, turnover is 0 on every row. |
| Portfolio.ReturnsStartAtZero | qlib/backtesting/portfolio.py:79-82 | The first portfolio return is 0.0, not NaN, because the skipna row sum of an all-NaN row is 0. |
| Portfolio.Uncharged | qlib/backtesting/portfolio.py:85 | The same backtester with a zero commission rate. |
| Portfolio.CommissionNeverHelps | qlib/backtesting/portfolio.py:85-88 | With a non-negative rate, every portfolio return is at most the uncharged one. |
| Portfolio.CommissionMonotone | qlib/backtesting/portfolio.py:85-88 | Raising the commission rate never raises a portfolio return. |
| Portfolio.NetReturnMonotone | qlib/backtesting/portfolio.py:85-88 | On a non-negative turnover, one row's return does not increase with the rate. |
| Portfolio.StaticCommissionIrrelevant | qlib/backtesting/portfolio.py:76-88 | In static mode the commission changes nothing: the charged returns equal the uncharged ones. |
| Ewm.Blend | qlib/factors/rsi.py:62 | One smoothing step lies between the previous average and the new observation. |
| Ewm.EwmAfter | qlib/factors/macd.py:143-145 | The EWM of a series with `k` leading NaN: the first `k` outputs are NaN, and output `k + i` is the recursion started at the first defined value, masked until `min_periods` observations exist. |
| Ewm.EwmMean | qlib/factors/rsi.py:62-63 | The EWM of a fully observed series is the `adjust=False` recursion masked for the first `min_periods - 1` rows. |
| Ewm.SpanAlpha | qlib/factors/macd.py:134-135 | The smoothing factor of `span=n`, `alpha = 2 / (n + 1)`, lies in (0, 1]. |
| Ewm.SpanAlphaDecreasing | qlib/factors/macd.py:134-135 | The longer slow span smooths with a strictly smaller alpha than the fast span. |
| Ewm.EmaBounds | qlib/factors/rsi.py:58-63 | Every smoothed value lies between the smallest and largest observation so far. |
| Ewm.EmaPositive | qlib/factors/rsi.py:62-63 | Non-negative observations give a non-negative average, and a positive latest observation gives a positive one. |
| Ewm.EmaNegate | qlib/factors/rsi.py:62-63 | Negating the observations negates the average. |
| Ewm.EmaLagOrder | qlib/factors/macd.py:134-135 | On a strictly increasing series the average trails the observation, and a larger alpha trails it by less. |
| Ewm.FastAboveSlow | qlib/factors/macd.py:134-139 | On a strictly increasing series the faster average is above the slower one from row 1 on. |
| Ewm.FastBelowSlow | qlib/factors/macd.py:134-139 | On a strictly decreasing series the faster average is below the slower one from row 1 on. |
| Momentum.New | qlib/factors/momentum.py:35-37 | The ValueError is raised exactly when the lookback is non-positive. An accepted factor stores the lookback. |
| Momentum.DefaultsAccepted | qlib/factors/momentum.py:27 | The default lookback 20 is accepted. |
| Momentum.Compute | qlib/factors/momentum.py:50-56 | The result is named `momentum` and keeps the index. It is NaN for the first `lookback` rows, then `(close[t] - close[t-lb]) / close[t-lb]` where both are defined and the base is nonzero. |
| Momentum.ChangeOverBase | qlib/factors/momentum.py:17-19 | `x / b - 1` equals `(x - b) / b`, the docstring's formula. |
| Momentum.SignOfMomentum | qlib/factors/momentum.py:21-24 | On positive prices the momentum is positive, negative or zero exactly as the close rose, fell or stayed over the lookback. |
| Sma.New | qlib/factors/sma.py:42-47 | Non-positive windows raise first, then `fast >= slow` raises. Otherwise the windows are stored. |
| Sma.DefaultsAccepted | qlib/factors/sma.py:32 | The default windows 10 and 30 are accepted. |
| Sma.Rolling | qlib/factors/sma.py:63-64 | The rolling mean is NaN until a full window exists or while the window holds a NaN, and is the window's mean otherwise. |
| Sma.Compute | qlib/factors/sma.py:60-70 | The signal is `fast_ma - slow_ma`, named `sma_crossover`, on the close's index. |
| Sma.WindowSum | qlib/factors/sma.py:63-64 | On a fully observed close the window sum is the plain sum of the last `w` prices. |
| Sma.Warmup | qlib/factors/sma.py:56-64 | The signal is NaN for the first `slow - 1` rows for any close. On a fully observed close it is defined from row `slow - 1` on and equals the difference of the two window means. |
| Sma.UndefinedBeforeSlowWindow | qlib/factors/sma.py:62-64 | Without a full slow window of observations the signal is NaN. |
| Sma.ConstantCloseIsFlat | qlib/factors/sma.py:66-67 | A constant close gives a zero signal wherever the signal is defined. |
| Sma.RisingCloseIsPositive | qlib/factors/sma.py:63-67 | A strictly rising close gives a positive signal wherever it is defined. |
| Sma.FastMeanAbove | qlib/factors/sma.py:13-14 | On a rising series the mean of the last `fast` prices exceeds the mean of the last `slow`. |
| Sma.WindowSums | qlib/factors/sma.py:63-64 | On a rising series the older part of the window sums below, and the recent part at least, its count times the value at the split. |
| Sma.MeanOrder | qlib/factors/sma.py:63-67 | Adding older values, all below the recent ones, to the recent values lowers the mean. |
| Rsi.New | qlib/factors/rsi.py:36-38 | The ValueError is raised exactly when the period is non-positive. An accepted factor stores the period. |
| Rsi.DefaultsAccepted | qlib/factors/rsi.py:28 | The default period 14 is accepted. |
| Rsi.Gains | qlib/factors/rsi.py:55 | Gains are the positive moves, with 0 elsewhere, including at NaN moves. |
| Rsi.Losses | qlib/factors/rsi.py:56 | Losses are the negated negative moves, with 0 elsewhere, including at NaN moves. |
| Rsi.Alpha | qlib/factors/rsi.py:61 | Wilder's alpha is `1 / period`, in (0, 1]. |
| Rsi.AverageGain | qlib/factors/rsi.py:62 | `avg_gain` is the EWM of the gains with `alpha = 1 / period` and `min_periods = period`. |
| Rsi.AverageLoss | qlib/factors/rsi.py:63 | `avg_loss` is the EWM of the losses with `alpha = 1 / period` and `min_periods = period`. |
| Rsi.Compute | qlib/factors/rsi.py:51-76 | The output is named `rsi` and has the close's index and one value per close. The definition maps the two averages at every row through `Index`. Its values are stated by `Rsi.Characterization`. |
| Rsi.SplitMoves | qlib/factors/rsi.py:52-56 | Gains and losses are non-negative, at most one is nonzero per row, both are 0 at row 0, and their difference is the move wherever the move is defined. |
| Rsi.AveragesWarmup | qlib/factors/rsi.py:58-63 | Both averages are NaN exactly on the first `period - 1` rows and are never negative. |
| Rsi.IndexFormula | qlib/factors/rsi.py:67-73 | On non-negative averages that are not both 0 the index is `100 * g / (g + l)`, and on two zeros it is 50. |
| Rsi.IndexBounds | qlib/factors/rsi.py:48 | On non-negative averages that are not both 0, the index lies in [0, 100]. |
| Rsi.Characterization | qlib/factors/rsi.py:47-76 | At row `t` the output is NaN exactly for `t < period - 1`. After that it is 50 where both averages are 0, and `100 * g / (g + l)` otherwise, which lies in [0, 100]. |
| Rsi.RisingMoves | qlib/factors/rsi.py:52-56 | On a strictly rising close every move after row 0 is a pure gain. |
| Rsi.FallingMoves | qlib/factors/rsi.py:52-56 | On a strictly falling close every move after row 0 is a pure loss. |
| Rsi.RisingCloseIsHundred | qlib/factors/rsi.py:67-68 | On a strictly rising close every defined value from row 1 on is 100. |
| Rsi.FallingCloseIsZero | qlib/factors/rsi.py:67-68 | On a strictly falling close every defined value from row 1 on is 0. |
| Macd.New | qlib/factors/macd.py:107-114 | Any non-positive period raises first, then `fast >= slow` raises. Otherwise the periods are stored. |
| Macd.DefaultsAccepted | qlib/factors/macd.py:93-98 | The default periods 12, 26 and 9 are accepted. |
| Macd.LineTail | qlib/factors/macd.py:134-139 | The defined part of the line is `fast - slow` from row `slow - 1` on. |
| Macd.Compute | qlib/factors/macd.py:129-152 | The three series are named `macd`, `signal` and `histogram`, share the close's index and have one value per close. The definition takes the line as the difference of the masked fast and slow EWMs, the signal as the masked span EWM of the line from its first defined row, and the histogram as line minus signal. Their values are stated by `Macd.LineShape`, `Macd.SignalWarmup` and `Macd.HistogramIsGap`. |
| Macd.ToFrame | qlib/factors/macd.py:39-53 | `to_frame` has the columns `macd`, `signal` and `histogram`, in that order, on the shared index. |
| Macd.LineShape | qlib/factors/macd.py:137-139 | The line is NaN for exactly the first `slow - 1` rows and is `fast_ema - slow_ema` after that. |
| Macd.SignalWarmup | qlib/factors/macd.py:142-145 | The signal is NaN for exactly the first `slow + signal_period - 2` rows. |
| Macd.HistogramIsGap | qlib/factors/macd.py:148-149 | The histogram is defined exactly where the signal is, and there it equals line minus signal. |
| Macd.UptrendPositive | qlib/factors/macd.py:63-64 | A strictly rising close gives a positive line wherever the line is defined. |
| Macd.DowntrendNegative | qlib/factors/macd.py:63-65 | A strictly falling close gives a negative line wherever the line is defined. |
| Macd.UnmaskedLine | tests/test_macd.py:64-68 | The expected line in the MACD test is the two EWMs without `min_periods`. |
| Macd.UnmaskedLineDiffers | tests/test_macd.py:64-72 | The test's expected line is 0.0 on row 0, but the code masks that row because `slow > 1`. |
| Macd.UnmaskedSignal | tests/test_macd.py:84 | The expected signal in the MACD test is the EWM of the code's line without `min_periods`. |
| Macd.UnmaskedSignalDiffers | tests/test_macd.py:84-88 | When `signal_period > 1` and the close has at least `slow` rows, the test's expected signal on row `slow - 1` is the line's first defined value, but the code masks that row. |
| Metrics.DropNa | qlib/metrics/returns.py:19 | `dropna()` never lengthens the series. |
| Metrics.DropNaDefined | qlib/metrics/returns.py:19 | A value is kept by `dropna()` exactly when it occurs defined in the series. |
| Metrics.VarianceZero | qlib/metrics/returns.py:11-12 | The sample variance is non-negative, and zero exactly when all values are equal. |
| Metrics.AtMeanIffEqual | qlib/metrics/returns.py:11-12 | Every value equals the mean exactly when all values are equal. |
| Metrics.SharpeUndefined | qlib/metrics/returns.py:7-14 | For a root-like `sqrt`, `sharpe` is NaN exactly when the series is empty, fewer than two returns are defined, all defined returns are equal, or the annualization is negative. |
| Metrics.SortinoUndefined | qlib/metrics/returns.py:17-27 | For a root-like `sqrt`, `sortino` is NaN exactly when no return is defined, no defined return is negative, or the annualization is negative. |
| Metrics.SortinoDefinedOnSample | tests/test_metrics_returns.py:19-27 | On the test's five returns `sortino` is defined. |
| Metrics.Growth | qlib/metrics/returns.py:34 | `1 + rets`, with NaN kept. |
| Metrics.CumProd | qlib/metrics/returns.py:34 | `cumprod()` is, at each defined row, the product of the defined values so far. NaN stays NaN. |
| Metrics.CumMax | qlib/metrics/returns.py:35 | `cummax()` is, at each defined row, the largest defined value so far. NaN stays NaN. |
| Metrics.MinDefined | qlib/metrics/returns.py:37 | The skipna `min()` is a defined value at or below every defined value, and is NaN only when none is defined. |
| Metrics.Drawdowns | qlib/metrics/returns.py:36 | There is one drawdown per row. The definition is `(c - p) / p`, and NaN where either is NaN or the peak is 0. Its range is stated by `Metrics.DrawdownInRange` and `Metrics.DrawdownAt`. |
| Metrics.PeakAtLeastCurve | qlib/metrics/returns.py:35 | The running peak is defined wherever the curve is, and is never below it. |
| Metrics.CurvePositive | qlib/metrics/returns.py:34 | When every return is above -1, every defined point of the compounded curve is positive. |
| Metrics.DrawdownInRange | qlib/metrics/returns.py:36 | A positive point at or below a positive peak has its drawdown in (-1, 0]. |
| Metrics.DrawdownAt | qlib/metrics/returns.py:34-36 | On a row with a return, the drawdown is defined and lies in (-1, 0]. |
| Metrics.DrawdownBounded | qlib/metrics/returns.py:30-37 | When every return is above -1, `max_drawdown` is NaN exactly when no return is defined, and lies in (-1, 0] otherwise. |
| Metrics.ProductAtLeastOne | qlib/metrics/returns.py:34 | With growth factors of at least 1, the curve never falls below 1. |
| Metrics.ProductGrowing | qlib/metrics/returns.py:34 | With growth factors of at least 1, a longer prefix compounds to at least as much. |
| Metrics.AtPeak | qlib/metrics/returns.py:34-35 | With growth factors of at least 1, each defined point of the curve is its own peak. |
| Metrics.NoLossDrawdowns | qlib/metrics/returns.py:34-36 | With non-negative returns the drawdown is 0 wherever a return is defined. |
| Metrics.NoLossNoDrawdown | qlib/metrics/returns.py:30-37 | With non-negative returns and at least one defined, `max_drawdown` is 0. |
| Loader.LeadingSpaces | qlib/data/loader.py:150 | The count of leading whitespace characters: all of them are whitespace, and the next character is not. |
| Loader.TrailingSpaces | qlib/data/loader.py:150 | The count of trailing whitespace characters: all of them are whitespace, and the character before them is not. |
| Loader.StripSpan | qlib/data/loader.py:150 | `strip()` keeps one contiguous stretch of the text that neither starts nor ends with whitespace, and removes only whitespace around it. |
| Loader.StripEmpty | qlib/data/loader.py:150-152 | `strip()` is empty exactly when the text is all whitespace. |
| Loader.StripUnchanged | qlib/data/loader.py:119 | A text that neither starts nor ends with whitespace is its own `strip()`. |
| Loader.StripIdempotent | qlib/data/loader.py:150 | Stripping twice is stripping once. |
| Loader.LowerChar | qlib/data/loader.py:119 | `lower()` maps `A`-`Z` to `a`-`z` and keeps every other character. |
| Loader.Lower | qlib/data/loader.py:119 | `lower()` keeps the length and maps each character. |
| Loader.FirstNonBlank | qlib/data/loader.py:146-152 | The loop's stopping position: every entry before it is `None` or blank after `strip()`, and the entry at it is not. |
| Loader.FirstNonEmpty | qlib/data/loader.py:146-153 | The label is `""` exactly when every entry is blank. Otherwise it is the stripped first non-blank entry. |
| Loader.FirstNonEmptyLabelStripped | qlib/data/loader.py:144-154 | A tuple's label is already stripped and is never blank unless all entries are. A plain label is returned unchanged. |
| Loader.FlattenColumns | qlib/data/loader.py:128-142 | A multi-level header becomes the first non-blank label of each column. A flat header, the index and the rows are kept. |
| Loader.FlattenedNamesStripped | qlib/data/loader.py:136-141 | Each name of a flattened header is its own `strip()`. |
| Loader.ToDatetime | qlib/data/loader.py:161-172 | `to_datetime` turns a missing value into NaT and raises the parser's ValueError on the first value it rejects. Otherwise each value is parsed at its own position. |
| Loader.FindName | qlib/data/loader.py:164-171 | The position of the first name satisfying the test, or none when no name does. |
| Loader.ChooseDateSource | qlib/data/loader.py:160-176 | The priority order is an index named `datetime`, then a column named `datetime`, then the first column whose lower-cased name contains `date`, else an error. |
| Loader.EnsureDatetimeIndex | qlib/data/loader.py:156-176 | Each branch's result: the index parsed in place; the `datetime` column moved into the index; or the date-like column kept and a parsed copy made the index. Otherwise the "must include a datetime column or index" ValueError. Parse errors propagate. |
| Loader.NormalizedNames | qlib/data/loader.py:119 | Each name is stripped and then lower-cased. |
| Loader.MissingNames | qlib/data/loader.py:122 | The required keys absent from the names, in schema order. |
| Loader.Matches | qlib/data/loader.py:126 | All positions holding a key, in increasing order, and nothing else. |
| Loader.Selection | qlib/data/loader.py:126 | `normalized[required]` selects only positions whose name is a required key. |
| Loader.StandardizeColumns | qlib/data/loader.py:116-126 | A ValueError listing the missing names is raised exactly when a required name is missing. Otherwise the result keeps the rows and timestamps, has only required columns and holds all five of them. Each row's cells are the original cells at the positions `Selection` picks from the lowercased names. |
| Loader.MatchesOnce | qlib/data/loader.py:126 | A key held by exactly one column is selected at exactly that column. |
| Loader.SelectionCovers | qlib/data/loader.py:126 | When every key is among the names, each key is held at some selected position. |
| Loader.SelectCovers | qlib/data/loader.py:126 | When every key is among the names, the selected frame has a column for each key. |
| Loader.SelectionOnce | qlib/data/loader.py:126 | When each key is held once, the selection has one position per key, in key order. |
| Loader.StandardizedSchema | qlib/data/loader.py:116-126 | When each required name is held by exactly one normalized column, the columns are exactly `open, high, low, close, volume`. |
| Loader.SelectedColumns | qlib/data/loader.py:126 | Selecting keys that are each held once gives exactly those keys, in order, as the column names. |
| Loader.SortByDate | qlib/data/loader.py:178-181 | `sort_index()` gives the same entries (a permutation) with ascending timestamps and NaT last. |
| Loader.SortedDates | qlib/data/loader.py:181 | Pairs sorted by the NaT-last key carry their timestamps in ascending order. |
| Loader.DropNas | qlib/data/loader.py:183-186 | `dropna()` keeps, in order, exactly the entries whose row has no missing value. |
| Loader.DropNasAscending | qlib/data/loader.py:185-186 | Dropping rows keeps the timestamps ascending. |
| Loader.Clean | qlib/data/loader.py:105-114 | The five steps run in source order. A frame that comes out has only schema columns, all five of them, no missing value and ascending dates. Errors come from the first step that raises. |
| Loader.KeptShaped | qlib/data/loader.py:186 | Rows kept by `dropna()` are complete and keep their width. |
| Loader.ReadCsvSource | qlib/data/loader.py:94-103 | No frame when the source is unreadable or the frame is empty. The frame when it parsed and is not empty. Any other exception escapes unchanged. |
| Loader.NatText | qlib/data/loader.py:92 | The decimal label of a `RangeIndex` row is non-empty. |
| Loader.ResetIndex | qlib/data/loader.py:92 | `reset_index()` puts the old index as a new first column of every row, adds one column to the width, and leaves the index unnamed. |
| Loader.FromYFinance | qlib/data/loader.py:69-92 | No frame for an empty symbol. ImportError with the source's message when yfinance is absent. The exception of `download` when it raises. No frame for an empty download. Otherwise the download with its index reset. |
| Loader.Getters | qlib/data/loader.py:31-36 | The getters are the file if truthy, then the URL if truthy, then yfinance last. |
| Loader.Attempt | qlib/data/loader.py:41-52 | One loop turn that finishes with a frame has cleaned a frame the getter really returned. |
| Loader.Load | qlib/data/loader.py:13-57 | The imperative loop with `last_error` returns exactly the fallback specification `Loaded`. |
| Loader.LoadPrefersFilepath | qlib/data/loader.py:31-49 | A usable CSV file wins over the URL and yfinance. |
| Loader.LoadUsesUrl | qlib/data/loader.py:31-52 | When the file is absent or skipped, a usable URL is taken before yfinance. |
| Loader.UrlFinishes | qlib/data/loader.py:40-52 | Once the file is absent or skipped, the load ends with what the URL getter finishes with. |
| Loader.AttemptFinishes | qlib/data/loader.py:46-49 | A getter whose frame cleans finishes the loop with the cleaned frame. |
| Loader.FinishFirst | qlib/data/loader.py:40-49 | A first getter that finishes decides the loop. |
| Loader.FallbackSkip | qlib/data/loader.py:43-52 | A skipped getter passes control to the next one with its error recorded. |
| Loader.FallbackFinish | qlib/data/loader.py:46-49 | A getter whose frame cleans ends the loop with the cleaned frame. |
| Loader.LoadFallsBackToYFinance | qlib/data/loader.py:31-52 | When the file and the URL are absent or skipped, a usable download is cleaned and returned. |
| Loader.LoadDownloadRaises | qlib/data/loader.py:40-57 | When the file and the URL are absent or skipped and `download` raises, an ImportError is chained to the "could not fetch data" ValueError, and any other exception escapes `load` unchained. |
| Loader.FallbackSkips | qlib/data/loader.py:38-52 | Getters that are all skipped only pass on the last recorded error. |
| Loader.LastRecordedShift | qlib/data/loader.py:43-52 | Recording the first getter's error and then scanning the rest finds the same last error. |
| Loader.LoadFailure | qlib/data/loader.py:54-57 | When every source is skipped, `load` raises the "could not fetch data" ValueError whose cause is the last recorded error, or none. |
| Loader.LoadWithoutYFinance | qlib/data/loader.py:40-57 | An unreadable file and URL with no yfinance raise "could not fetch data" caused by the ImportError. |
| Loader.FallbackOk | qlib/data/loader.py:40-52 | Whatever the loop returns normally is the cleaned frame of one of its sources. |
| Loader.FallbackErr | qlib/data/loader.py:40-57 | What the loop raises is one of two things. When every getter is skipped, it is the "could not fetch data" ValueError chained to the last error recorded, or to the error recorded before the loop when none is. Otherwise it is an exception other than ImportError, unchained, that a getter raises after every getter before it was skipped. |
| Loader.LoadedIsClean | qlib/data/loader.py:27-29 | A frame that `load` returns has only OHLCV columns, all five of them, no missing value and ascending dates. |
| Loader.NormalizeWord | qlib/data/loader.py:119 | A name without surrounding whitespace normalizes to its lower-case form. |
| Loader.SampleName | qlib/data/loader.py:119 | The sample header's `Date,Open,High,Low,Close,Volume` normalize to `date,open,…,volume`. |
| Loader.SampleDateName | qlib/data/loader.py:169 | The sample's `Date` column is a date-like column. |
| Loader.DateColumnFileCleans | qlib/data/loader.py:105-114 | Take a CSV frame with these properties: no index name, a first column mentioning a date, no column named `datetime`, each schema name held once, complete rows and dates the parser accepts. It cleans to exactly the OHLCV columns and keeps every row. |
| Loader.DateColumnIndexed | qlib/data/loader.py:169-174 | A date-like first column becomes the index and stays a column. |
| Loader.AllComplete | qlib/data/loader.py:186 | Rearranged complete rows lose none to `dropna()`. |

## Left out

- The `Factor` base class (`qlib/factors/base.py`) is an abstract interface with no logic. Each factor is a module with `New` and `Compute`.
- `qlib/factors/volatility.py` is not part of this model.
- I/O is a parameter of the `Sources` value:
  - `pd.read_csv` on a path or URL is `Sources.readCsv`, and its outcome is an unreadable source, a parsed frame, or another exception.
  - `importlib.import_module("yfinance")` and `yf.download` are `Sources.yfinance`.
  - `pd.to_datetime`'s per-cell parsing is `Sources.parse`.
- `np.sqrt` is a parameter that must behave like a square root (`RootLike`). Only its sign and zero behaviour are used.
- Floating point: arithmetic is exact real arithmetic. IEEE rounding, infinities and overflow are not modelled. A division that would give an infinity (a zero base in `pct_change`, a zero peak) gives NaN.
- `SeriesOps.PctChange`: pandas' deprecated default pad fill of NaN gaps before `pct_change` is not modelled, so a NaN input makes the neighbouring changes NaN.
- Ewm.EwmAfter: pandas' `ignore_na=False` weighting of interior NaN inside an EWM is not modelled. The EWM is exact for a fully observed series, and for a series whose NaN are all leading, as the MACD line is.
- Macd.Compute: a close series with NaN values is not covered, only a fully observed close.
- Portfolio.DatesUpTo: pandas' calendar anchors (`"ME"`, `"W"`, `"QE"`, …) are a monotone bucket function from timestamps. The bucket labels are not modelled, because only the first timestamp of each bucket is used.
- Duplicate timestamps in the price data are excluded by requires, as the backtesters' lookups by label assume. Duplicate column pairs in a price frame are excluded the same way.
- Portfolio.Run: signal frames with repeated timestamps or repeated column labels are excluded by `SignalsWellShaped`. The ValueError that `reindex` raises on repeated timestamps (`qlib/backtesting/portfolio.py:74`) is not modelled, and neither is pandas' handling of repeated signal columns.
- Engine.Run: the signal's timestamps must also be strictly increasing. For a signal with repeated or unordered timestamps, pandas' inner join keeps the duplicate rows or follows the signal's order; that case is not modelled.
- Momentum.Compute, Sma.Compute, Rsi.Compute, Macd.Compute take the close series directly. The KeyError that `data["close"]` raises on a frame without a `close` column (`qlib/factors/momentum.py:50`, `qlib/factors/sma.py:60`, `qlib/factors/rsi.py:51`, `qlib/factors/macd.py:129`) is not modelled.
- Loader.LowerChar: `str.lower()` is modelled on ASCII letters only. Unicode case mapping is left out.
- Loader.SortByDate: pandas' sort stability among equal timestamps is not stated. The result is stated as a sorted permutation.
- Loader.NatText: `reset_index` labels rows with integers. Here they are their decimal text, because a raw index holds text labels.
- Loader.Attempt: the exceptions that `read_csv` (`CsvOutcome.Raises`) and `download` (an `Err` result) raise are opaque `Error` values. Their own causes are not modelled.
- Loader.DateColumnFileCleans is stated for any frame that meets its conditions. A concrete sample file is covered only through `SampleName` and `SampleDateName`.
- Loader.ChooseDateSource, Loader.EnsureDatetimeIndex: a frame with a repeated `datetime` or date-like column name takes the first such position. In pandas, `frame[name]` returns a frame there and `pd.to_datetime` raises ValueError (`qlib/data/loader.py:165-172`). `read_csv` renames repeated headers, so the real sources never produce such a frame.
- Column names that are not strings are left out, so the AttributeError that `col.lower()` would raise on one is left out too.
- Portfolio.Run: the error for a price frame with no `close` field is the KeyError that `xs` raises. Its message text is not modelled.
- Type checks on non-pandas arguments are modelled with an `Arg` value. Only the wrong-kind case is distinguished.

## Notes on the source

- `tests/test_portfolio.py:186-209` expects the constructor to reject weights that omit a symbol or name a symbol the prices lack. `qlib/backtesting/portfolio.py:51-52` stores any map unchanged. `Portfolio.UncheckedWeights` states the code's behaviour.
- `qlib/factors/sma.py:57-58` says the first `slow` rows are NaN. `rolling(slow, min_periods=slow)` defines row `slow - 1`, so only `slow - 1` rows are NaN (`Sma.Warmup`).
- `qlib/factors/rsi.py:48-49` says the first `period` rows are NaN. `ewm(min_periods=period)` defines row `period - 1` (`Rsi.AveragesWarmup`).
- `tests/test_macd.py:64-72` and `84-88` build their expected values without `min_periods`, while the code masks the warm-up rows. The expected line differs from the code on row 0 (`Macd.UnmaskedLineDiffers`). The expected signal is the EWM of the code's line, so it is defined from row `slow - 1` on. The code masks it up to row `slow + signal_period - 3`, so the two differ on row `slow - 1` whenever `signal_period > 1` (`Macd.UnmaskedSignalDiffers`).
- `tests/test_metrics_returns.py:19-27` expects NaN when the downside `std()` of the single negative return is NaN. The code defines the downside deviation over all returns, which has a value on that sample (`Metrics.SortinoDefinedOnSample`).
