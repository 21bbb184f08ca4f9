/**
  The gateway's risk metrics: one pass over the equity curve, after reversing
  the newest-first query result in place.
*/
module RiskMetrics {
  import opened Reals
  import opened Statistics

  /** A row as the query returns it; any number may be NULL. */
  datatype StoredRow = StoredRow(time: int, equity: Option<real>, vol: Option<real>, sharpe: Option<real>,
                                 turnover: Option<real>, fee: Option<real>)

  datatype Point = Point(time: int, equity: real, vol: Option<real>, sharpe: Option<real>, turnover: real, fee: real)

  datatype Metrics = Metrics(asOf: Option<int>, vol: Option<real>, sharpe: Option<real>, realizedSharpe: real,
                             maxDrawdown: real, avgTurnover: real, avgFeeDrag: real, observations: nat)

  const NO_METRICS: Metrics := Metrics(None, None, None, 0.0, 0.0, 0.0, 0.0, 0)
  const STD_THRESHOLD: real := 0.000000000001

  function ValueOrZero(v: Option<real>): real {
    if v.Some? then v.value else 0.0
  }

  function ToPoint(r: StoredRow): Point {
    Point(r.time, ValueOrZero(r.equity), r.vol, r.sharpe, ValueOrZero(r.turnover), ValueOrZero(r.fee))
  }

  function Points(rows: seq<StoredRow>): (ps: seq<Point>)
    ensures |ps| == |rows|
  {
    seq(|rows|, i requires 0 <= i < |rows| => ToPoint(rows[i]))
  }

  function Reversed<T>(s: seq<T>): (r: seq<T>)
    ensures |r| == |s|
  {
    seq(|s|, i requires 0 <= i < |s| => s[|s| - 1 - i])
  }

  function Equities(ps: seq<Point>): (es: seq<real>)
    ensures |es| == |ps|
  {
    seq(|ps|, i requires 0 <= i < |ps| => ps[i].equity)
  }

  // ---------------------------------------------------------------- what the loop accumulates

  /** The running peak after the first k values. */
  function Peak(es: seq<real>, k: nat): real
    requires 0 < |es| && k <= |es|
  {
    if k == 0 then es[0] else
      var p := Peak(es, k - 1);
      if es[k - 1] > p then es[k - 1] else p
  }

  function Fall(peak: real, e: real): real
    requires peak > 0.0
  {
    (peak - e) / peak
  }

  /** The largest fall from the running peak within the first k values. */
  function Drawdown(es: seq<real>, k: nat): real
    requires 0 < |es| && k <= |es|
  {
    if k == 0 then 0.0 else
      var d, p := Drawdown(es, k - 1), Peak(es, k);
      if p > 0.0 && Fall(p, es[k - 1]) > d then Fall(p, es[k - 1]) else d
  }

  function TurnoverSum(ps: seq<Point>, k: nat): real
    requires k <= |ps|
  {
    if k == 0 then 0.0 else TurnoverSum(ps, k - 1) + ps[k - 1].turnover
  }

  function FeeDragSum(ps: seq<Point>, k: nat): real
    requires k <= |ps|
  {
    if k == 0 then 0.0 else
      FeeDragSum(ps, k - 1) + if ps[k - 1].equity > 0.0 then ps[k - 1].fee / ps[k - 1].equity else 0.0
  }

  /** The simple returns between consecutive values whose first is positive. */
  function Returns(es: seq<real>, k: nat): seq<real>
    requires k <= |es|
  {
    if k < 2 then []
    else if es[k - 2] > 0.0 then Returns(es, k - 1) + [es[k - 1] / es[k - 2] - 1.0]
    else Returns(es, k - 1)
  }

  function MeanOrZero(xs: seq<real>): real {
    if |xs| == 0 then 0.0 else Mean(xs)
  }

  /** The root of the sample variance, without any guard. */
  function StdDevOf(xs: seq<real>, sqrt: real -> real): real {
    if |xs| < 2 then 0.0 else sqrt(Variance(xs))
  }

  function RealizedSharpe(rets: seq<real>, sqrt: real -> real): real {
    if |rets| > 1 && StdDevOf(rets, sqrt) > STD_THRESHOLD then MeanOrZero(rets) / StdDevOf(rets, sqrt) else 0.0
  }

  function MetricsOf(ps: seq<Point>, sqrt: real -> real): Metrics {
    if |ps| == 0 then NO_METRICS else
      var n, latest := |ps|, ps[|ps| - 1];
      var es := Equities(ps);
      Metrics(Some(latest.time), latest.vol, latest.sharpe, RealizedSharpe(Returns(es, n), sqrt), Drawdown(es, n),
              TurnoverSum(ps, n) / n as real, FeeDragSum(ps, n) / n as real, n)
  }

  // ---------------------------------------------------------------- the code

  method Average(values: seq<real>) returns (m: real)
    ensures m == MeanOrZero(values)
  {
    if |values| == 0 {
      return 0.0;
    }
    var total := 0.0;
    for i := 0 to |values|
      invariant total == Sum(values[..i])
    {
      SumPush(values, i, values[i]);
      total := total + values[i];
    }
    assert values[..|values|] == values;
    return total / |values| as real;
  }

  lemma SumPush(ds: seq<real>, i: nat, x: real)
    requires i < |ds| && ds[i] == x
    ensures Sum(ds[..i + 1]) == Sum(ds[..i]) + x
  {
    assert ds[..i + 1] == ds[..i] + [x];
    SumAppend(ds[..i], [x]);
  }

  method AddSquaredDeviations(values: seq<real>, mean: real) returns (sum: real)
    ensures sum == SumSquaredDeviations(values, mean)
  {
    sum := 0.0;
    for i := 0 to |values|
      invariant sum == SumSquaredDeviations(values[..i], mean)
    {
      var d := values[i] - mean;
      PushDeviation(values[..i], values[i], mean);
      assert values[..i + 1] == values[..i] + [values[i]];
      sum := sum + d * d;
    }
    assert values[..|values|] == values;
  }

  method StdDev(values: seq<real>, sqrt: real -> real) returns (s: real)
    ensures s == StdDevOf(values, sqrt)
  {
    hide Mean, SumSquaredDeviations;
    if |values| < 2 {
      return 0.0;
    }
    var mean := Average(values);
    var sum := AddSquaredDeviations(values, mean);
    var variance := sum / (|values| - 1) as real;
    VarianceNonNegative(values);
    if variance < 0.0 {
      return 0.0;
    }
    return sqrt(variance);
  }

  method ReverseInPlace(series: array<Point>)
    modifies series
    ensures series[..] == Reversed(old(series[..]))
  {
    var left, right := 0, series.Length - 1;
    while left < right
      invariant 0 <= left <= series.Length && left + right == series.Length - 1 && left <= right + 1
      invariant forall k :: 0 <= k < series.Length ==>
        series[k] == if k < left || k > right then old(series[series.Length - 1 - k]) else old(series[k])
    {
      series[left], series[right] := series[right], series[left];
      left, right := left + 1, right - 1;
    }
    assert forall k :: 0 <= k < series.Length ==> series[k] == old(series[series.Length - 1 - k]);
  }

  /** The loop over the series in time order. */
  method Accumulate(series: array<Point>)
    returns (rets: seq<real>, maxDrawdown: real, turnoverSum: real, feeDragSum: real)
    requires series.Length > 0
    ensures var ps, es, n := series[..], Equities(series[..]), series.Length;
      && rets == Returns(es, n) && maxDrawdown == Drawdown(es, n)
      && turnoverSum == TurnoverSum(ps, n) && feeDragSum == FeeDragSum(ps, n)
  {
    ghost var ps := series[..];
    ghost var es := Equities(ps);
    rets := [];
    var peak := series[0].equity;
    maxDrawdown, turnoverSum, feeDragSum := 0.0, 0.0, 0.0;
    for i := 0 to series.Length
      invariant peak == Peak(es, i) && maxDrawdown == Drawdown(es, i)
      invariant turnoverSum == TurnoverSum(ps, i) && feeDragSum == FeeDragSum(ps, i)
      invariant rets == Returns(es, i)
    {
      var eq := series[i].equity;
      assert eq == es[i] && ps[i] == series[i];
      if eq > peak {
        peak := eq;
      }
      if peak > 0.0 {
        var dd := (peak - eq) / peak;
        if dd > maxDrawdown {
          maxDrawdown := dd;
        }
      }
      turnoverSum := turnoverSum + series[i].turnover;
      if eq > 0.0 {
        feeDragSum := feeDragSum + series[i].fee / eq;
      }
      if i > 0 && series[i - 1].equity > 0.0 {
        assert series[i - 1].equity == es[i - 1];
        rets := rets + [eq / series[i - 1].equity - 1.0];
      }
    }
  }

  method ComputeRealizedSharpe(rets: seq<real>, sqrt: real -> real) returns (s: real)
    ensures s == RealizedSharpe(rets, sqrt)
  {
    hide MeanOrZero, StdDevOf;
    s := 0.0;
    if |rets| > 1 {
      var mean := Average(rets);
      var std := StdDev(rets, sqrt);
      if std > STD_THRESHOLD {
        s := mean / std;
      }
    }
  }

  /** rows: newest first, as the query orders them. */
  method ComputeRiskMetrics(rows: seq<StoredRow>, sqrt: real -> real) returns (m: Metrics)
    ensures m == MetricsOf(Reversed(Points(rows)), sqrt)
    ensures m.observations == |rows|
    ensures |rows| == 0 ==> m == NO_METRICS
    ensures |rows| > 0 ==> m.asOf == Some(rows[0].time) && m.vol == rows[0].vol && m.sharpe == rows[0].sharpe
  {
    hide RealizedSharpe, Returns, Drawdown, TurnoverSum, FeeDragSum;
    if |rows| == 0 {
      return NO_METRICS;
    }
    var series := new Point[|rows|];
    forall i | 0 <= i < |rows| {
      series[i] := ToPoint(rows[i]);
    }
    assert series[..] == Points(rows);
    ReverseInPlace(series);
    var rets, maxDrawdown, turnoverSum, feeDragSum := Accumulate(series);
    var realizedSharpe := ComputeRealizedSharpe(rets, sqrt);
    var n, latest := series.Length, series[series.Length - 1];
    return Metrics(Some(latest.time), latest.vol, latest.sharpe, realizedSharpe, maxDrawdown,
                   turnoverSum / n as real, feeDragSum / n as real, n);
  }

  // ---------------------------------------------------------------- what is reported, from the rows

  /** The turnovers of the rows, a missing one counted as 0. */
  ghost predicate AreTurnovers(xs: seq<real>, rows: seq<StoredRow>) {
    |xs| == |rows| && forall i :: 0 <= i < |rows| ==> xs[i] == if rows[i].turnover.Some? then rows[i].turnover.value else 0.0
  }

  /** x is the share of the equity of a row that went to fees: x equity = fee, and 0 unless the equity is positive. */
  ghost predicate IsFeeShare(x: real, row: StoredRow) {
    if row.equity.Some? && row.equity.value > 0.0
    then x * row.equity.value == (if row.fee.Some? then row.fee.value else 0.0) else x == 0.0
  }

  ghost predicate AreFeeShares(xs: seq<real>, rows: seq<StoredRow>) {
    |xs| == |rows| && forall i :: 0 <= i < |rows| ==> IsFeeShare(xs[i], rows[i])
  }

  lemma {:induction false} SumReversed(xs: seq<real>)
    ensures Sum(Reversed(xs)) == Sum(xs)
  {
    if |xs| != 0 {
      var n := |xs| - 1;
      SumReversed(xs[..n]);
      assert Reversed(xs) == [xs[n]] + Reversed(xs[..n]);
      SumPush(xs, n, xs[n]);
      assert xs[..n + 1] == xs;
      assert Reversed(xs)[1..] == Reversed(xs[..n]);
    }
  }

  lemma {:induction false} TurnoversAdd(ps: seq<Point>, xs: seq<real>, k: nat)
    requires k <= |ps| == |xs| && forall i :: 0 <= i < |ps| ==> ps[i].turnover == xs[i]
    ensures TurnoverSum(ps, k) == Sum(xs[..k])
  {
    if k != 0 {
      TurnoversAdd(ps, xs, k - 1);
      SumPush(xs, k - 1, xs[k - 1]);
    }
  }

  /** The share the loop adds for a point. */
  ghost predicate IsDrag(x: real, p: Point) {
    if p.equity > 0.0 then x * p.equity == p.fee else x == 0.0
  }

  lemma DragIs(x: real, p: Point)
    requires IsDrag(x, p)
    ensures x == if p.equity > 0.0 then p.fee / p.equity else 0.0
  {
    if p.equity > 0.0 {
      var q := p.fee / p.equity;
      assert q * p.equity == p.fee;
      CancelOrder(p.equity, q, x);
    }
  }

  lemma {:induction false} DragsAdd(ps: seq<Point>, xs: seq<real>, k: nat)
    requires k <= |ps| == |xs| && forall i :: 0 <= i < |ps| ==> IsDrag(xs[i], ps[i])
    ensures FeeDragSum(ps, k) == Sum(xs[..k])
  {
    hide IsDrag;
    if k != 0 {
      DragsAdd(ps, xs, k - 1);
      SumPush(xs, k - 1, xs[k - 1]);
      DragIs(xs[k - 1], ps[k - 1]);
    }
  }

  lemma TurnoversOfRows(rows: seq<StoredRow>, xs: seq<real>)
    requires AreTurnovers(xs, rows)
    ensures TurnoverSum(Reversed(Points(rows)), |rows|) == Sum(xs)
  {
    SumReversed(xs);
    var ps, ys := Reversed(Points(rows)), Reversed(xs);
    assert ys[..|rows|] == ys;
    TurnoversAdd(ps, ys, |rows|);
  }

  lemma FeeSharesOfRows(rows: seq<StoredRow>, xs: seq<real>)
    requires AreFeeShares(xs, rows)
    ensures FeeDragSum(Reversed(Points(rows)), |rows|) == Sum(xs)
  {
    SumReversed(xs);
    var ps, ys := Reversed(Points(rows)), Reversed(xs);
    assert ys[..|rows|] == ys;
    forall i | 0 <= i < |ps| ensures IsDrag(ys[i], ps[i]) {
      assert IsFeeShare(xs[|rows| - 1 - i], rows[|rows| - 1 - i]);
      FeeShareIsDrag(ys[i], rows[|rows| - 1 - i]);
    }
    hide IsDrag, Points, Reversed;
    DragsAdd(ps, ys, |rows|);
  }

  lemma FeeShareIsDrag(x: real, row: StoredRow)
    requires IsFeeShare(x, row)
    ensures IsDrag(x, ToPoint(row))
  {
  }

  lemma MetricsAre(rows: seq<StoredRow>, sqrt: real -> real)
    requires |rows| > 0
    ensures var ps, m := Reversed(Points(rows)), MetricsOf(Reversed(Points(rows)), sqrt);
      && m.avgTurnover == Quotient(TurnoverSum(ps, |rows|), |rows| as real)
      && m.avgFeeDrag == Quotient(FeeDragSum(ps, |rows|), |rows| as real)
      && m.realizedSharpe == RealizedSharpe(Returns(Equities(ps), |rows|), sqrt)
  {
    hide TurnoverSum, FeeDragSum, RealizedSharpe, Drawdown, Points, Reversed, Returns;
  }

  /** The reported averages times the number of rows are the sums over the rows. */
  lemma AveragesOfRows(rows: seq<StoredRow>, sqrt: real -> real, turnovers: seq<real>, shares: seq<real>)
    requires |rows| > 0 && AreTurnovers(turnovers, rows) && AreFeeShares(shares, rows)
    ensures var m := MetricsOf(Reversed(Points(rows)), sqrt);
      m.avgTurnover * |rows| as real == Sum(turnovers) && m.avgFeeDrag * |rows| as real == Sum(shares)
  {
    hide *;
    MetricsAre(rows, sqrt);
    TurnoversOfRows(rows, turnovers);
    FeeSharesOfRows(rows, shares);
  }

  /** s^2 variance = mean^2, with the sign of the mean; 0 if the variance is at most 1e-24. */
  ghost predicate IsSharpe(s: real, mean: real, variance: real) {
    if variance > 0.000000000000000000000001 then s * s * variance == mean * mean && s * mean >= 0.0 else s == 0.0
  }

  lemma SharpeScalars(s: real, d: real, mean: real, variance: real)
    requires d > STD_THRESHOLD && d * d == variance && s == Quotient(mean, d)
    ensures IsSharpe(s, mean, variance)
  {
    assert (d - STD_THRESHOLD) * (d + STD_THRESHOLD) == d * d - STD_THRESHOLD * STD_THRESHOLD;
    PositiveProduct(d - STD_THRESHOLD, d + STD_THRESHOLD);
    assert s * s * (d * d) == (s * d) * (s * d);
    SquareNonNegative(s);
    ProductNonNegative(s * s, d);
    assert s * mean == s * s * d;
  }

  lemma SmallDeviation(d: real, variance: real)
    requires 0.0 <= d <= STD_THRESHOLD && d * d == variance
    ensures variance <= 0.000000000000000000000001
  {
    ProductNonNegative(STD_THRESHOLD - d, STD_THRESHOLD + d);
    assert (STD_THRESHOLD - d) * (STD_THRESHOLD + d) == STD_THRESHOLD * STD_THRESHOLD - d * d;
  }

  /** The realised Sharpe ratio of two returns or more, without a root. */
  lemma RealizedSharpeIs(rets: seq<real>, sqrt: real -> real)
    requires |rets| >= 2 && IsSqrt(sqrt)
    ensures IsSharpe(RealizedSharpe(rets, sqrt), Mean(rets), Variance(rets))
  {
    VarianceNonNegative(rets);
    var v, d, m := Variance(rets), StdDevOf(rets, sqrt), Mean(rets);
    hide Variance, Mean;
    assert d * d == v && d >= 0.0;
    hide StdDevOf, IsSqrt, IsSharpe;
    if d > STD_THRESHOLD {
      SharpeScalars(RealizedSharpe(rets, sqrt), d, m, v);
    } else {
      SmallDeviation(d, v);
      NoSharpe(m, v);
    }
  }

  lemma NoSharpe(mean: real, variance: real)
    requires variance <= 0.000000000000000000000001
    ensures IsSharpe(0.0, mean, variance)
  {
  }

  // ---------------------------------------------------------------- drawdown, the quadratic definition

  /** d is the largest fall (e[i] - e[j]) / e[i] over i <= j < k with e[i] > 0, or 0 if there is none. */
  ghost predicate IsMaxDrawdown(es: seq<real>, k: nat, d: real)
    requires k <= |es|
  {
    && (forall i, j :: 0 <= i <= j < k && es[i] > 0.0 ==> Fall(es[i], es[j]) <= d)
    && (d == 0.0 || exists i, j :: 0 <= i <= j < k && es[i] > 0.0 && Fall(es[i], es[j]) == d)
    && d >= 0.0
  }

  lemma {:induction false} PeakIsMaximum(es: seq<real>, k: nat)
    requires 0 < k <= |es|
    ensures forall i :: 0 <= i < k ==> es[i] <= Peak(es, k)
    ensures exists i :: 0 <= i < k && es[i] == Peak(es, k)
  {
    if k > 1 {
      PeakIsMaximum(es, k - 1);
      if es[k - 1] <= Peak(es, k - 1) {
        var i :| 0 <= i < k - 1 && es[i] == Peak(es, k - 1);
        assert es[i] == Peak(es, k);
      } else {
        assert es[k - 1] == Peak(es, k);
      }
    } else {
      assert es[0] == Peak(es, 1);
    }
  }

  lemma FallIsOneMinus(p: real, e: real)
    requires p > 0.0
    ensures Fall(p, e) == 1.0 - e / p
  {
    var q, r := (p - e) / p, e / p;
    assert q * p == p - e && r * p == e;
    assert (q + r) * p == q * p + r * p;
    CancelOrder(p, q + r, 1.0);
  }

  /** The fall to a non-negative value is largest from the highest peak, and at most 1. */
  lemma FallMonotone(a: real, p: real, e: real)
    requires 0.0 < a <= p && e >= 0.0
    ensures Fall(a, e) <= Fall(p, e) <= 1.0
  {
    var x, y := e / a, e / p;
    assert x * a == e && y * p == e;
    QuotientNonNegative(e, a);
    QuotientNonNegative(e, p);
    ProductNonNegative(x, p - a);
    assert x * (p - a) == x * p - x * a;
    CancelOrder(p, y, x);
    FallIsOneMinus(a, e);
    FallIsOneMinus(p, e);
  }

  /**
    For every non-negative equity curve the one-pass loop computes the quadratic
    definition of the maximum drawdown, and it lies in [0, 1].
  */
  lemma {:induction false} DrawdownIsQuadratic(es: seq<real>, k: nat)
    requires 0 < |es| && k <= |es| && NonNegative(es)
    ensures IsMaxDrawdown(es, k, Drawdown(es, k))
    ensures Drawdown(es, k) <= 1.0
  {
    hide Fall;
    if k > 0 {
      DrawdownIsQuadratic(es, k - 1);
      var d, d', p := Drawdown(es, k - 1), Drawdown(es, k), Peak(es, k);
      PeakIsMaximum(es, k);
      if p > 0.0 {
        FallMonotone(p, p, es[k - 1]);
      }
      forall i, j | 0 <= i <= j < k && es[i] > 0.0 ensures Fall(es[i], es[j]) <= d' {
        if j == k - 1 {
          FallMonotone(es[i], p, es[j]);
        }
      }
      if d' != d {
        var i :| 0 <= i < k && es[i] == p;
        assert es[i] > 0.0 && Fall(es[i], es[k - 1]) == d';
      } else if d != 0.0 {
        var i, j :| 0 <= i <= j < k - 1 && es[i] > 0.0 && Fall(es[i], es[j]) == d;
        assert es[i] > 0.0 && Fall(es[i], es[j]) == d';
      }
    }
  }

  lemma MaxDrawdownUnique(es: seq<real>, k: nat, d: real, d': real)
    requires k <= |es| && IsMaxDrawdown(es, k, d) && IsMaxDrawdown(es, k, d')
    ensures d == d'
  {
    hide Fall;
  }

  /** On a curve that goes negative the loop no longer computes the quadratic definition. */
  lemma NegativeEquityBreaksIt()
    ensures var es := [1.0, 2.0, -1.0]; !IsMaxDrawdown(es, 3, Drawdown(es, 3))
  {
    var es := [1.0, 2.0, -1.0];
    assert Peak(es, 1) == 1.0 && Peak(es, 2) == 2.0 && Peak(es, 3) == 2.0;
    assert Drawdown(es, 1) == 0.0 && Drawdown(es, 2) == 0.0 && Drawdown(es, 3) == 1.5;
    assert Fall(es[0], es[2]) == 2.0;
  }

  /** Every value of es' is c times the one of es. */
  ghost predicate IsScaled(c: real, es: seq<real>, es': seq<real>) {
    |es'| == |es| && forall i :: 0 <= i < |es| ==> es'[i] == c * es[i]
  }

  lemma {:induction false} PeakScale(c: real, es: seq<real>, es': seq<real>, k: nat)
    requires c > 0.0 && 0 < |es| && k <= |es| && IsScaled(c, es, es')
    ensures Peak(es', k) == c * Peak(es, k)
  {
    if k > 0 {
      PeakScale(c, es, es', k - 1);
      PeakStep(es, k);
      PeakStep(es', k);
      ScaledAt(c, es, es', k - 1);
      hide *;
      PeakScalars(c, es[k - 1], Peak(es, k - 1), Peak(es, k), es'[k - 1], Peak(es', k - 1), Peak(es', k));
    }
  }

  lemma ScaledAt(c: real, es: seq<real>, es': seq<real>, i: nat)
    requires IsScaled(c, es, es') && i < |es|
    ensures i < |es'| && es'[i] == c * es[i]
  {
  }

  lemma PeakScalars(c: real, x: real, q: real, p: real, x': real, q': real, p': real)
    requires c > 0.0 && x' == c * x && q' == c * q
    requires p == (if x > q then x else q) && p' == (if x' > q' then x' else q')
    ensures p' == c * p
  {
    ScaledOrder(c, x, q);
  }

  lemma PeakStep(es: seq<real>, k: nat)
    requires 0 < k <= |es|
    ensures Peak(es, k) == if es[k - 1] > Peak(es, k - 1) then es[k - 1] else Peak(es, k - 1)
  {
  }

  lemma ScaledOrder(c: real, x: real, y: real)
    requires c > 0.0
    ensures c * x > c * y <==> x > y
  {
    CancelOrder(c, x, y);
    CancelOrder(c, y, x);
  }

  lemma FallScale(c: real, p: real, e: real)
    requires c > 0.0 && p > 0.0
    ensures c * p > 0.0 && Fall(c * p, c * e) == Fall(p, e)
  {
    PositiveProduct(c, p);
    var q, r := Fall(p, e), Fall(c * p, c * e);
    assert q * p == p - e;
    assert r * (c * p) == c * p - c * e;
    assert q * (c * p) == c * (q * p);
    CancelOrder(c * p, q, r);
  }

  /** Rescaling every equity by c > 0 leaves the drawdown unchanged. */
  lemma {:induction false} DrawdownScaleInvariant(c: real, es: seq<real>, es': seq<real>, k: nat)
    requires c > 0.0 && 0 < |es| && k <= |es| && IsScaled(c, es, es')
    ensures Drawdown(es', k) == Drawdown(es, k)
  {
    if k > 0 {
      DrawdownScaleInvariant(c, es, es', k - 1);
      hide Fall, Peak, IsScaled;
      FallsAgree(c, es, es', k);
    }
  }

  lemma FallsAgree(c: real, es: seq<real>, es': seq<real>, k: nat)
    requires c > 0.0 && 0 < k <= |es| && IsScaled(c, es, es')
    ensures Peak(es', k) > 0.0 <==> Peak(es, k) > 0.0
    ensures Peak(es, k) > 0.0 ==> Fall(Peak(es', k), es'[k - 1]) == Fall(Peak(es, k), es[k - 1])
  {
    hide Fall, IsScaled;
    PeakScale(c, es, es', k);
    ScaledAt(c, es, es', k - 1);
    FallScaleCases(c, Peak(es, k), es[k - 1], Peak(es', k), es'[k - 1]);
  }

  lemma FallScaleCases(c: real, p: real, e: real, p': real, e': real)
    requires c > 0.0 && p' == c * p && e' == c * e
    ensures p' > 0.0 <==> p > 0.0
    ensures p > 0.0 ==> Fall(p', e') == Fall(p, e)
  {
    ScaledOrder(c, p, 0.0);
    if p > 0.0 {
      FallScale(c, p, e);
    }
  }

  // ---------------------------------------------------------------- returns telescope

  ghost predicate AllPositive(es: seq<real>) {
    forall i :: 0 <= i < |es| ==> es[i] > 0.0
  }

  function Compound(rets: seq<real>): real {
    if |rets| == 0 then 1.0 else Compound(rets[..|rets| - 1]) * (1.0 + rets[|rets| - 1])
  }

  /** Over positive equities the returns compound to last / first. */
  lemma {:induction false} ReturnsTelescope(es: seq<real>, k: nat)
    requires 0 < k <= |es| && AllPositive(es)
    ensures |Returns(es, k)| == k - 1
    ensures es[0] * Compound(Returns(es, k)) == es[k - 1]
  {
    if k > 1 {
      ReturnsTelescope(es, k - 1);
      var rest, r := Returns(es, k - 1), es[k - 1] / es[k - 2] - 1.0;
      CompoundAppend(rest, r);
      TelescopeStep(es[0], Compound(rest), es[k - 2], es[k - 1]);
      assert Returns(es, k) == rest + [r];
    }
  }

  /** How many of the first k values are positive. */
  function CountPositive(es: seq<real>, k: nat): (n: nat)
    requires k <= |es|
    ensures n <= k
  {
    if k == 0 then 0 else CountPositive(es, k - 1) + if es[k - 1] > 0.0 then 1 else 0
  }

  /**
    On any curve there is one return for each value but the last that is
    positive, in order, and it leads from that value to the next.
  */
  lemma {:induction false} ReturnsAre(es: seq<real>, k: nat, i: nat)
    requires i + 1 < k <= |es|
    ensures |Returns(es, k)| == CountPositive(es, k - 1)
    ensures es[i] > 0.0 ==> var n := CountPositive(es, i);
      n < |Returns(es, k)| && es[i] * (1.0 + Returns(es, k)[n]) == es[i + 1]
  {
    CountUpTo(es, i, k - 1);
    var last := k - 2;
    if i < last {
      ReturnsAre(es, k - 1, i);
    } else {
      ReturnsCount(es, k - 1);
    }
    if es[last] > 0.0 {
      var q := es[k - 1] / es[last];
      assert q * es[last] == es[k - 1];
      assert Returns(es, k) == Returns(es, k - 1) + [q - 1.0];
    }
  }

  lemma {:induction false} ReturnsCount(es: seq<real>, k: nat)
    requires 0 < k <= |es|
    ensures |Returns(es, k)| == CountPositive(es, k - 1)
  {
    if k > 1 {
      ReturnsCount(es, k - 1);
    }
  }

  lemma {:induction false} CountUpTo(es: seq<real>, i: nat, k: nat)
    requires i < k <= |es|
    ensures CountPositive(es, i) + (if es[i] > 0.0 then 1 else 0) <= CountPositive(es, k)
  {
    if i < k - 1 {
      CountUpTo(es, i, k - 1);
    }
  }

  lemma CompoundAppend(rest: seq<real>, r: real)
    ensures Compound(rest + [r]) == Compound(rest) * (1.0 + r)
  {
    assert (rest + [r])[..|rest|] == rest;
  }

  lemma TelescopeStep(first: real, c: real, a: real, b: real)
    requires a > 0.0 && first * c == a
    ensures first * (c * (1.0 + (b / a - 1.0))) == b
  {
    var q := b / a;
    assert q * a == b;
    assert first * (c * q) == (first * c) * q;
  }
}
