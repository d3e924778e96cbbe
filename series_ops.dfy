/**
 * The pandas building blocks the core chains together, on columns whose
 * entries are `None` where pandas holds NaN: elementwise arithmetic that
 * propagates NaN, `shift`, `pct_change`, `diff`, `fillna`, NaN-skipping sums,
 * and `sort_index` as a sort of (timestamp, row) pairs.
 */
module SeriesOps {
  import opened Base

  /** One column: the value at each row, `None` for NaN. */
  type Values = seq<Option<real>>

  /** A pandas Series: its name, its timestamps and one value per timestamp. */
  datatype Series = Series(name: string, index: seq<int>, values: Values)

  predicate StrictlyIncreasing(ts: seq<int>) {
    forall i, j :: 0 <= i < j < |ts| ==> ts[i] < ts[j]
  }

  /** A strictly increasing run of reals (an uptrend). */
  predicate Rising(xs: seq<real>) {
    forall i, j :: 0 <= i < j < |xs| ==> xs[i] < xs[j]
  }

  /** A strictly decreasing run of reals (a downtrend). */
  predicate Falling(xs: seq<real>) {
    forall i, j :: 0 <= i < j < |xs| ==> xs[i] > xs[j]
  }

  predicate Distinct<T(==)>(s: seq<T>) {
    forall i, j :: 0 <= i < j < |s| ==> s[i] != s[j]
  }

  // ---------------------------------------------------------------------
  // Elementwise arithmetic: NaN in, NaN out.

  function Mul(a: Option<real>, b: Option<real>): Option<real> {
    if a.Some? && b.Some? then Some(a.value * b.value) else None
  }

  function Sub(a: Option<real>, b: Option<real>): Option<real> {
    if a.Some? && b.Some? then Some(a.value - b.value) else None
  }

  function AbsOpt(a: Option<real>): Option<real> {
    if a.Some? then Some(Abs(a.value)) else None
  }

  /** `Series.clip(lo, hi)` on one entry; NaN stays NaN. */
  function Clip(a: Option<real>, lo: real, hi: real): Option<real> {
    if a.Some? then Some(Max(lo, Min(a.value, hi))) else None
  }

  /** `x / base - 1`; a zero base (an infinite or NaN quotient in pandas) is undefined. */
  function PctAt(x: Option<real>, base: Option<real>): Option<real> {
    if x.Some? && base.Some? && base.value != 0.0 then Some(x.value / base.value - 1.0) else None
  }

  /** A column of `n` NaNs. */
  function Nones(n: nat): (r: Values)
    ensures |r| == n && forall i :: 0 <= i < n ==> r[i] == None
  {
    seq(n, _ => None)
  }

  // ---------------------------------------------------------------------
  // Whole-column operations.

  /** `s.shift(k)`: every value moves `k` rows later; the first `k` rows become NaN. */
  function Shift(s: Values, k: nat): (r: Values)
    ensures |r| == |s|
    ensures forall i :: 0 <= i < |s| ==> r[i] == if i < k then None else s[i - k]
  {
    if k >= |s| then Nones(|s|) else Nones(k) + s[..|s| - k]
  }

  /** `s.pct_change(k)` without pandas' fill of NaN gaps: `s / s.shift(k) - 1`. */
  function PctChange(s: Values, k: nat): (r: Values)
    ensures |r| == |s|
    ensures forall i {:trigger r[i]} :: 0 <= i < |s| ==> r[i] == if i < k then None else PctAt(s[i], s[i - k])
  {
    var prev := Shift(s, k);
    seq(|s|, i requires 0 <= i < |s| => PctAt(s[i], prev[i]))
  }

  /** `s.diff()`: `s - s.shift(1)`. */
  function Diff(s: Values): (r: Values)
    ensures |r| == |s|
    ensures forall i {:trigger r[i]} :: 0 <= i < |s| ==> r[i] == if i == 0 then None else Sub(s[i], s[i - 1])
  {
    var prev := Shift(s, 1);
    var r := seq(|s|, i requires 0 <= i < |s| => Sub(s[i], prev[i]));
    assert forall i {:trigger r[i]} :: 0 <= i < |s| ==> r[i] == if i == 0 then None else Sub(s[i], s[i - 1]) by {
      forall i | 0 <= i < |s| ensures r[i] == if i == 0 then None else Sub(s[i], s[i - 1]) {
        assert prev[i] == if i < 1 then None else s[i - 1];
      }
    }
    r
  }

  /** `s.fillna(v)`. */
  function FillNa(s: Values, v: real): (r: seq<real>)
    ensures |r| == |s|
    ensures forall i :: 0 <= i < |s| ==> r[i] == if s[i].Some? then s[i].value else v
  {
    seq(|s|, i requires 0 <= i < |s| => if s[i].Some? then s[i].value else v)
  }

  /** Lifts a column without NaN into the column type. */
  function Defined(s: seq<real>): (r: Values)
    ensures |r| == |s| && forall i :: 0 <= i < |s| ==> r[i] == Some(s[i])
  {
    seq(|s|, i requires 0 <= i < |s| => Some(s[i]))
  }

  function MulAll(a: Values, b: Values): (r: Values)
    requires |a| == |b|
    ensures |r| == |a| && forall i :: 0 <= i < |a| ==> r[i] == Mul(a[i], b[i])
  {
    seq(|a|, i requires 0 <= i < |a| => Mul(a[i], b[i]))
  }

  function SubAll(a: Values, b: Values): (r: Values)
    requires |a| == |b|
    ensures |r| == |a| && forall i :: 0 <= i < |a| ==> r[i] == Sub(a[i], b[i])
  {
    seq(|a|, i requires 0 <= i < |a| => Sub(a[i], b[i]))
  }

  function AbsAll(a: Values): (r: Values)
    ensures |r| == |a| && forall i :: 0 <= i < |a| ==> r[i] == AbsOpt(a[i])
  {
    seq(|a|, i requires 0 <= i < |a| => AbsOpt(a[i]))
  }

  function ClipAll(a: Values, lo: real, hi: real): (r: Values)
    ensures |r| == |a| && forall i :: 0 <= i < |a| ==> r[i] == Clip(a[i], lo, hi)
  {
    seq(|a|, i requires 0 <= i < |a| => Clip(a[i], lo, hi))
  }

  function Scale(a: seq<real>, c: real): (r: seq<real>)
    ensures |r| == |a| && forall i :: 0 <= i < |a| ==> r[i] == a[i] * c
  {
    seq(|a|, i requires 0 <= i < |a| => a[i] * c)
  }

  // ---------------------------------------------------------------------
  // Sums.

  /** The sum of a column of reals. */
  function Sum(xs: seq<real>): real {
    if xs == [] then 0.0 else xs[0] + Sum(xs[1..])
  }

  /** pandas `sum()` with `skipna=True`: NaN entries count as absent; no entries sum to 0. */
  function SumDefined(s: Values): real {
    if s == [] then 0.0 else (if s[0].Some? then s[0].value else 0.0) + SumDefined(s[1..])
  }

  /** A column of `n` copies of `c` sums to `n * c`. */
  lemma {:induction false} SumConstant(xs: seq<real>, c: real)
    requires forall i :: 0 <= i < |xs| ==> xs[i] == c
    ensures Sum(xs) == (|xs| as real) * c
  {
    if xs != [] {
      assert forall i :: 0 <= i < |xs| - 1 ==> xs[1..][i] == xs[i + 1];
      SumConstant(xs[1..], c);
    }
  }

  /** Summing a concatenation sums the parts. */
  lemma {:induction false} SumAppend(xs: seq<real>, ys: seq<real>)
    ensures Sum(xs + ys) == Sum(xs) + Sum(ys)
  {
    if xs == [] {
      assert xs + ys == ys;
    } else {
      assert (xs + ys)[0] == xs[0] && (xs + ys)[1..] == xs[1..] + ys;
      SumAppend(xs[1..], ys);
    }
  }

  /** The sum of the absolute values of a column of reals. */
  function AbsSum(xs: seq<real>): real {
    if xs == [] then 0.0 else Abs(xs[0]) + AbsSum(xs[1..])
  }

  lemma {:induction false} AbsSumNonNegative(xs: seq<real>)
    ensures AbsSum(xs) >= 0.0
  {
    if xs != [] { AbsSumNonNegative(xs[1..]); }
  }

  /** Every entry of `xs` is zero exactly when `Σ|x|` is zero. */
  lemma {:induction false} AbsSumZero(xs: seq<real>)
    ensures AbsSum(xs) == 0.0 <==> forall i :: 0 <= i < |xs| ==> xs[i] == 0.0
  {
    if xs != [] {
      AbsSumZero(xs[1..]);
      AbsSumNonNegative(xs[1..]);
      assert forall i :: 0 <= i < |xs| - 1 ==> xs[1..][i] == xs[i + 1];
    }
  }

  /** A column of zeros sums to zero. */
  lemma {:induction false} SumZeros(xs: seq<real>)
    requires forall i :: 0 <= i < |xs| ==> xs[i] == 0.0
    ensures Sum(xs) == 0.0 && AbsSum(xs) == 0.0
  {
    if xs != [] {
      forall i | 0 <= i < |xs| - 1 ensures xs[1..][i] == 0.0 { assert xs[1..][i] == xs[i + 1]; }
      SumZeros(xs[1..]);
    }
  }

  // ---------------------------------------------------------------------
  // Commission.

  /** The commission of one period: `turnover * (bps / 10 000)`, never negative for a non-negative rate. */
  function Cost(turnover: real, commissionBps: real): (r: real)
    ensures turnover >= 0.0 && commissionBps >= 0.0 ==> r >= 0.0
  {
    NonNegativeProductIf(turnover, commissionBps / 10000.0);
    turnover * (commissionBps / 10000.0)
  }

  lemma NonNegativeProductIf(a: real, b: real)
    ensures a >= 0.0 && b >= 0.0 ==> a * b >= 0.0
  {
    if a >= 0.0 && b >= 0.0 { NonNegativeProduct(a, b); }
  }

  lemma NonNegativeProduct(a: real, b: real)
    requires a >= 0.0 && b >= 0.0
    ensures a * b >= 0.0
  {
  }

  /** A quotient is the number that multiplies back to the dividend. */
  lemma DivUnique(x: real, b: real, y: real)
    requires b != 0.0 && y * b == x
    ensures x / b == y
  {
  }

  /** Multiplying by a positive factor keeps a strict inequality. */
  lemma StrictScale(q: real, a: real, b: real)
    requires q > 0.0 && a < b
    ensures q * a < q * b
  {
  }

  /** A positive factor can be cancelled from a strict inequality. */
  lemma CancelPositive(x: real, y: real, a: real)
    requires a > 0.0 && x * a < y * a
    ensures x < y
  {
  }

  lemma ProductMonotone(a: real, b: real, c: real)
    requires a >= 0.0 && b <= c
    ensures a * b <= a * c
  {
    NonNegativeProduct(a, c - b);
    assert a * (c - b) == a * c - a * b;
  }

  // ---------------------------------------------------------------------
  // Lookup by timestamp.

  /** Whether `t` is a timestamp of `s`. */
  predicate HasKey<T>(s: seq<(int, T)>, t: int) {
    exists i :: 0 <= i < |s| && s[i].0 == t
  }

  /** The payload of the first pair with timestamp `t`. */
  function PayloadAt<T>(s: seq<(int, T)>, t: int): (r: T)
    requires HasKey(s, t)
    ensures exists i :: 0 <= i < |s| && s[i] == (t, r)
  {
    if s[0].0 == t then s[0].1
    else
      assert HasKey(s[1..], t) by {
        var i :| 0 <= i < |s| && s[i].0 == t;
        assert s[1..][i - 1] == s[i];
      }
      var r := PayloadAt(s[1..], t);
      assert exists i :: 0 <= i < |s| && s[i] == (t, r) by {
        var i :| 0 <= i < |s[1..]| && s[1..][i] == (t, r);
        assert s[i + 1] == (t, r);
      }
      r
  }

  // ---------------------------------------------------------------------
  // `sort_index`: a sort of (timestamp, payload) pairs by timestamp.

  predicate SortedByKey<T>(s: seq<(int, T)>) {
    forall i, j :: 0 <= i < j < |s| ==> s[i].0 <= s[j].0
  }

  predicate StrictlySortedByKey<T>(s: seq<(int, T)>) {
    forall i, j :: 0 <= i < j < |s| ==> s[i].0 < s[j].0
  }

  predicate KeysDistinct<T>(s: seq<(int, T)>) {
    forall i, j :: 0 <= i < j < |s| ==> s[i].0 != s[j].0
  }

  /** The timestamps of a sequence of pairs. */
  function Keys<T>(s: seq<(int, T)>): (r: seq<int>)
    ensures |r| == |s| && forall i :: 0 <= i < |s| ==> r[i] == s[i].0
  {
    seq(|s|, i requires 0 <= i < |s| => s[i].0)
  }

  /** The payloads of a sequence of pairs. */
  function Payloads<T>(s: seq<(int, T)>): (r: seq<T>)
    ensures |r| == |s| && forall i :: 0 <= i < |s| ==> r[i] == s[i].1
  {
    seq(|s|, i requires 0 <= i < |s| => s[i].1)
  }

  /** Inserts `x` before the first pair whose timestamp is not smaller. */
  function Insert<T>(x: (int, T), s: seq<(int, T)>): (r: seq<(int, T)>)
    ensures |r| == |s| + 1
  {
    if s == [] then [x]
    else if x.0 <= s[0].0 then [x] + s
    else [s[0]] + Insert(x, s[1..])
  }

  lemma {:induction false} InsertMultiset<T>(x: (int, T), s: seq<(int, T)>)
    ensures multiset(Insert(x, s)) == multiset(s) + multiset{x}
  {
    if s != [] && x.0 > s[0].0 {
      InsertMultiset(x, s[1..]);
      assert s == [s[0]] + s[1..];
    }
  }

  /** Every pair of `Insert(x, s)` is `x` or a pair of `s`. */
  lemma InsertMembers<T>(x: (int, T), s: seq<(int, T)>, k: int)
    requires 0 <= k < |Insert(x, s)|
    ensures Insert(x, s)[k] == x || Insert(x, s)[k] in s
  {
    InsertMultiset(x, s);
    assert Insert(x, s)[k] in multiset(Insert(x, s));
  }

  lemma {:induction false} InsertSorted<T>(x: (int, T), s: seq<(int, T)>)
    requires SortedByKey(s)
    ensures SortedByKey(Insert(x, s))
  {
    if s != [] && x.0 > s[0].0 {
      InsertSorted(x, s[1..]);
      var r := Insert(x, s[1..]);
      forall k | 0 <= k < |r| ensures s[0].0 <= r[k].0 {
        InsertMembers(x, s[1..], k);
      }
    }
  }

  lemma {:induction false} InsertStrict<T>(x: (int, T), s: seq<(int, T)>)
    requires StrictlySortedByKey(s)
    requires forall j :: 0 <= j < |s| ==> s[j].0 != x.0
    ensures StrictlySortedByKey(Insert(x, s))
  {
    if s != [] && x.0 > s[0].0 {
      InsertStrict(x, s[1..]);
      var r := Insert(x, s[1..]);
      forall k | 0 <= k < |r| ensures s[0].0 < r[k].0 {
        InsertMembers(x, s[1..], k);
      }
    }
  }

  /** `sort_index()`: insertion sort on the timestamp. */
  function SortByKey<T>(s: seq<(int, T)>): (r: seq<(int, T)>)
    ensures |r| == |s|
  {
    if s == [] then [] else Insert(s[0], SortByKey(s[1..]))
  }

  /** The sorted pairs are the input pairs. */
  lemma {:induction false} SortByKeyPermutation<T>(s: seq<(int, T)>)
    ensures multiset(SortByKey(s)) == multiset(s)
  {
    if s != [] {
      SortByKeyPermutation(s[1..]);
      InsertMultiset(s[0], SortByKey(s[1..]));
      assert s == [s[0]] + s[1..];
    }
  }

  /** They come out in timestamp order. */
  lemma {:induction false} SortByKeySorted<T>(s: seq<(int, T)>)
    ensures SortedByKey(SortByKey(s))
  {
    if s != [] {
      SortByKeySorted(s[1..]);
      InsertSorted(s[0], SortByKey(s[1..]));
    }
  }

  /** With distinct timestamps that order is strict. */
  lemma {:induction false} SortByKeyStrict<T>(s: seq<(int, T)>)
    requires KeysDistinct(s)
    ensures StrictlySortedByKey(SortByKey(s))
  {
    if s != [] {
      var rest := SortByKey(s[1..]);
      assert KeysDistinct(s[1..]) by {
        forall i, j | 0 <= i < j < |s[1..]| ensures s[1..][i].0 != s[1..][j].0 {
          assert s[1..][i] == s[i + 1] && s[1..][j] == s[j + 1];
        }
      }
      SortByKeyStrict(s[1..]);
      SortByKeyPermutation(s[1..]);
      forall k | 0 <= k < |rest| ensures rest[k].0 != s[0].0 {
        assert rest[k] in multiset(rest);
        var j :| 0 <= j < |s[1..]| && s[1..][j] == rest[k];
        assert s[j + 1] == rest[k];
      }
      InsertStrict(s[0], rest);
    }
  }

  /** Sorting by timestamp: ordered, a permutation, strictly ordered for distinct timestamps. */
  lemma SortByKeyCorrect<T>(s: seq<(int, T)>)
    ensures SortedByKey(SortByKey(s))
    ensures multiset(SortByKey(s)) == multiset(s)
    ensures KeysDistinct(s) ==> StrictlySortedByKey(SortByKey(s))
  {
    SortByKeyPermutation(s);
    SortByKeySorted(s);
    if KeysDistinct(s) { SortByKeyStrict(s); }
  }

  /** Inserting a pair adds its payload to the payloads. */
  lemma {:induction false} InsertPayloads<T>(x: (int, T), s: seq<(int, T)>)
    ensures multiset(Payloads(Insert(x, s))) == multiset(Payloads(s)) + multiset{x.1}
  {
    if s == [] {
      assert Payloads([x]) == [x.1];
    } else if x.0 <= s[0].0 {
      assert Payloads([x] + s) == [x.1] + Payloads(s);
    } else {
      InsertPayloads(x, s[1..]);
      assert Payloads([s[0]] + Insert(x, s[1..])) == [s[0].1] + Payloads(Insert(x, s[1..]));
      assert Payloads(s) == [s[0].1] + Payloads(s[1..]);
    }
  }

  /** Sorting keeps the payloads, as a multiset. */
  lemma {:induction false} SortByKeyPayloads<T>(s: seq<(int, T)>)
    ensures multiset(Payloads(SortByKey(s))) == multiset(Payloads(s))
  {
    if s != [] {
      SortByKeyPayloads(s[1..]);
      InsertPayloads(s[0], SortByKey(s[1..]));
      assert Payloads(s) == [s[0].1] + Payloads(s[1..]);
    }
  }
}
