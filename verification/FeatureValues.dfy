/**
  What the columns of the last row are, in terms of the prices and volumes of
  the window: each is fixed by an equation over the candles.
*/
module FeatureValues {
  import opened Reals
  import opened Statistics
  import opened Features

  // ---------------------------------------------------------------- pointwise columns

  /** Each pointwise column solves its equation at every row but the first, given a divisor that is not 0. */
  lemma PointwiseColumns(df: Frame, num: Numerics, t: nat)
    requires num.Ok() && 0 < t < |df|
    ensures df[t].close != 0.0 ==>
      var x := ColumnOf(df, num, HlRange)[t]; x.Finite? && x.value * df[t].close == df[t].high - df[t].low
    ensures df[t - 1].volume != 0.0 ==>
      var x := ColumnOf(df, num, VolumeRoc)[t]; x.Finite? && (1.0 + x.value) * df[t - 1].volume == df[t].volume
    ensures ColumnOf(df, num, LogReturn)[t].Finite? ==>
      var x, r := ColumnOf(df, num, SquaredReturn)[t], ColumnOf(df, num, LogReturn)[t]; x == Finite(r.value * r.value)
  {
    RatioSolves(df[t].high - df[t].low, df[t].close);
    RatioSolves(df[t].volume, df[t - 1].volume);
    hide Ratio, LogOfRatio;
  }

  lemma RatioSolves(a: real, b: real)
    ensures b != 0.0 ==> Ratio(a, b).Finite? && Ratio(a, b).value * b == a
  {
  }

  // ---------------------------------------------------------------- the window of the last row

  /** x is the log of a / b. */
  ghost predicate IsLogRatio(x: real, a: real, b: real, ln: real -> real) {
    b != 0.0 && x == ln(a / b)
  }

  /** The log returns of the last |rs| candles. */
  ghost predicate AreLogReturns(rs: seq<real>, df: Frame, ln: real -> real) {
    |rs| < |df| && forall k :: 0 <= k < |rs| ==>
      IsLogRatio(rs[k], df[|df| - |rs| + k].close, df[|df| - |rs| + k - 1].close, ln)
  }

  /** ln(high / low) of the last |ls| candles. */
  ghost predicate AreLogRanges(ls: seq<real>, df: Frame, ln: real -> real) {
    |ls| <= |df| && forall k :: 0 <= k < |ls| ==>
      IsLogRatio(ls[k], df[|df| - |ls| + k].high, df[|df| - |ls| + k].low, ln)
  }

  ghost predicate AreVolumes(vs: seq<real>, df: Frame) {
    |vs| <= |df| && forall k :: 0 <= k < |vs| ==> vs[k] == df[|df| - |vs| + k].volume
  }

  /** A rolling column whose window holds the given numbers. */
  lemma RollingWindow(xs: Column, vs: seq<real>, agg: seq<real> -> Cell)
    requires 0 < |vs| <= |xs| && forall k :: 0 <= k < |vs| ==> xs[|xs| - |vs| + k] == Finite(vs[k])
    ensures Rolling(xs, |vs|, agg)[|xs| - 1] == agg(vs)
  {
    var window := xs[|xs| - |vs|..|xs|];
    forall k | 0 <= k < |vs| ensures window[k] == Finite(vs[k]) {
      assert window[k] == xs[|xs| - |vs| + k];
    }
    assert AllFinite(window) && Values(window) == vs;
    assert |xs| - 1 + 1 - |vs| == |xs| - |vs|;
  }

  lemma ReturnsAre(df: Frame, num: Numerics, rs: seq<real>)
    requires PositivePrices(df) && AreLogReturns(rs, df, num.ln)
    ensures forall k :: 0 <= k < |rs| ==> Returns(df, num)[|df| - |rs| + k] == Finite(rs[k])
  {
    forall k | 0 <= k < |rs| ensures Returns(df, num)[|df| - |rs| + k] == Finite(rs[k]) {
      var t := |df| - |rs| + k;
      assert IsLogRatio(rs[k], df[t].close, df[t - 1].close, num.ln);
      PositiveRatio(df[t].close, df[t - 1].close, num.ln);
    }
  }

  lemma SquaresAre(df: Frame, num: Numerics, rs: seq<real>, qs: seq<real>)
    requires PositivePrices(df) && AreLogReturns(rs, df, num.ln) && AreSquares(qs, rs)
    ensures forall k :: 0 <= k < |qs| ==> SquaredReturns(df, num)[|df| - |qs| + k] == Finite(qs[k])
  {
    ReturnsAre(df, num, rs);
    hide ReturnAt, AreLogReturns;
    forall k | 0 <= k < |qs| ensures SquaredReturns(df, num)[|df| - |qs| + k] == Finite(qs[k]) {
      assert Returns(df, num)[|df| - |rs| + k] == Finite(rs[k]);
    }
  }

  lemma RangesAre(df: Frame, num: Numerics, ls: seq<real>, qs: seq<real>)
    requires PositivePrices(df) && AreLogRanges(ls, df, num.ln) && AreSquares(qs, ls)
    ensures forall k :: 0 <= k < |qs| ==> SquaredLogRanges(df, num)[|df| - |qs| + k] == Finite(qs[k])
  {
    forall k | 0 <= k < |qs| ensures SquaredLogRanges(df, num)[|df| - |qs| + k] == Finite(qs[k]) {
      var t := |df| - |ls| + k;
      assert IsLogRatio(ls[k], df[t].high, df[t].low, num.ln);
      PositiveRatio(df[t].high, df[t].low, num.ln);
    }
  }

  ghost predicate AreSquares(qs: seq<real>, xs: seq<real>) {
    |qs| == |xs| && forall k :: 0 <= k < |xs| ==> IsSquare(qs[k], xs[k])
  }

  function Squares(xs: seq<real>): (qs: seq<real>)
    ensures AreSquares(qs, xs)
  {
    seq(|xs|, k requires 0 <= k < |xs| => xs[k] * xs[k])
  }

  lemma {:induction false} SumOfTheSquares(qs: seq<real>, xs: seq<real>)
    requires AreSquares(qs, xs)
    ensures Sum(qs) == SumOfSquares(xs)
  {
    if |xs| != 0 {
      assert IsSquare(qs[0], xs[0]);
      SumOfTheSquares(qs[1..], xs[1..]);
    }
  }

  // ---------------------------------------------------------------- the return columns

  /** w mean = sum, (w - 1) std^2 = sum of squared deviations, rv^2 = sum of squares. */
  ghost predicate FitReturns(mean: real, std: real, rv: real, rs: seq<real>) {
    && mean * |rs| as real == Sum(rs)
    && std * std * (|rs| - 1) as real == SumSquaredDeviations(rs, mean)
    && rv * rv == SumOfSquares(rs)
    && std >= 0.0 && rv >= 0.0
  }

  /**
    Over a window of two candles or more at positive prices, the return columns
    of the last row are the mean, the sample deviation, the root sum of squares,
    the skewness and the kurtosis of the log returns of the last w candles.
  */
  lemma ReturnColumns(df: Frame, num: Numerics, rs: seq<real>) returns (mean: real, std: real, rv: real)
    requires num.Ok() && IsSqrt(num.sqrt) && PositivePrices(df) && |rs| >= 2 && AreLogReturns(rs, df, num.ln)
    ensures ColumnOf(df, num, RetMean(|rs|))[|df| - 1] == Finite(mean)
    ensures ColumnOf(df, num, RetStd(|rs|))[|df| - 1] == Finite(std)
    ensures ColumnOf(df, num, RealizedVol(|rs|))[|df| - 1] == Finite(rv)
    ensures FitReturns(mean, std, rv, rs)
    ensures ColumnOf(df, num, RetSkew(|rs|))[|df| - 1] == num.skew(rs)
    ensures ColumnOf(df, num, RetKurt(|rs|))[|df| - 1] == num.kurt(rs)
  {
    hide *;
    ReturnWindows(df, num, rs);
    mean := MeanAggregate(rs);
    std := StdAggregate(num, rs, mean);
    rv := RootSumAggregate(num, rs);
    FitsReturns(mean, std, rv, rs, Sum(rs), SumSquaredDeviations(rs, mean), SumOfSquares(rs), |rs| as real);
  }

  lemma ReturnWindows(df: Frame, num: Numerics, rs: seq<real>)
    requires num.Ok() && PositivePrices(df) && |rs| >= 2 && AreLogReturns(rs, df, num.ln)
    ensures ColumnOf(df, num, RetMean(|rs|))[|df| - 1] == MeanOf()(rs)
    ensures ColumnOf(df, num, RetStd(|rs|))[|df| - 1] == StdOf(num)(rs)
    ensures ColumnOf(df, num, RealizedVol(|rs|))[|df| - 1] == RootSumOf(num)(Squares(rs))
    ensures ColumnOf(df, num, RetSkew(|rs|))[|df| - 1] == num.skew(rs)
    ensures ColumnOf(df, num, RetKurt(|rs|))[|df| - 1] == num.kurt(rs)
  {
    assert |rs| < |df|;
    ReturnsAre(df, num, rs);
    SquaresAre(df, num, rs, Squares(rs));
    hide Returns, SquaredReturns, Rolling, MeanOf, StdOf, RootSumOf, Squares, AreLogReturns, PositivePrices, AreSquares;
    ReturnWindow(df, num, rs, MeanOf());
    ReturnWindow(df, num, rs, StdOf(num));
    ReturnWindow(df, num, rs, num.skew);
    ReturnWindow(df, num, rs, num.kurt);
    RollingWindow(SquaredReturns(df, num), Squares(rs), RootSumOf(num));
  }

  lemma ReturnWindow(df: Frame, num: Numerics, rs: seq<real>, agg: seq<real> -> Cell)
    requires 0 < |rs| < |df| && forall k :: 0 <= k < |rs| ==> Returns(df, num)[|df| - |rs| + k] == Finite(rs[k])
    ensures Rolling(Returns(df, num), |rs|, agg)[|df| - 1] == agg(rs)
  {
    hide Returns, Rolling;
    RollingWindow(Returns(df, num), rs, agg);
  }

  lemma FitsReturns(mean: real, std: real, rv: real, rs: seq<real>, sum: real, d: real, q: real, n: real)
    requires sum == Sum(rs) && d == SumSquaredDeviations(rs, mean) && q == SumOfSquares(rs) && n == |rs| as real
    requires IsFraction(mean, n, sum) && IsFraction(std * std, n - 1.0, d) && IsSquare(q, rv) && std >= 0.0 && rv >= 0.0
    ensures FitReturns(mean, std, rv, rs)
  {
    hide Sum, SumSquaredDeviations, SumOfSquares;
  }

  lemma MeanAggregate(rs: seq<real>) returns (mean: real)
    requires |rs| > 0
    ensures MeanOf()(rs) == Finite(mean) && IsFraction(mean, |rs| as real, Sum(rs)) && mean == Mean(rs)
  {
    mean := Mean(rs);
    var n := |rs| as real;
    assert mean == Quotient(Sum(rs), n);
    hide Sum, Mean;
  }

  lemma StdAggregate(num: Numerics, rs: seq<real>, mean: real) returns (std: real)
    requires IsSqrt(num.sqrt) && |rs| >= 2 && mean == Mean(rs)
    ensures StdOf(num)(rs) == Finite(std) && std >= 0.0
    ensures IsFraction(std * std, |rs| as real - 1.0, SumSquaredDeviations(rs, mean))
  {
    VarianceNonNegative(rs);
    var v, d := Variance(rs), SumSquaredDeviations(rs, mean);
    VarianceParts(rs, v, mean, |rs| as real, (|rs| - 1) as real, Sum(rs), d);
    hide Variance, Mean, SumSquaredDeviations, Sum, IsSqrt;
    std := num.sqrt(v);
    RootSquared(num.sqrt, v, std);
    FractionOfRoot(std, v, |rs| as real - 1.0, d);
  }

  lemma FractionOfRoot(r: real, v: real, n: real, d: real)
    requires r * r == v && v * n == d
    ensures IsFraction(r * r, n, d)
  {
  }

  lemma RootSumAggregate(num: Numerics, rs: seq<real>) returns (rv: real)
    requires IsSqrt(num.sqrt)
    ensures RootSumOf(num)(Squares(rs)) == Finite(rv) && rv >= 0.0 && IsSquare(SumOfSquares(rs), rv)
  {
    SumOfSquaresNonNegative(rs);
    SumOfTheSquares(Squares(rs), rs);
    hide Sum, SumOfSquares, Squares, IsSqrt;
    rv := num.sqrt(SumOfSquares(rs));
    RootSquared(num.sqrt, SumOfSquares(rs), rv);
  }

  // ---------------------------------------------------------------- the other windows

  /** (4 ln 2) w pv^2 = sum of squared ln(high / low) */
  ghost predicate FitsParkinson(pv: real, ln2: real, ls: seq<real>) {
    pv >= 0.0 && (4.0 * ln2) * (|ls| as real * (pv * pv)) == SumOfSquares(ls)
  }

  lemma ParkinsonScalars(pv: real, ln2: real, w: real, q: real, x: real, mean: real)
    requires IsFraction(mean, w, q) && IsFraction(x, 4.0 * ln2, mean) && pv * pv == x
    ensures (4.0 * ln2) * (w * (pv * pv)) == q
  {
    assert (4.0 * ln2) * (w * x) == (x * (4.0 * ln2)) * w;
  }

  /** The Parkinson volatility of the last row over the log ranges of the window. */
  lemma ParkinsonColumn(df: Frame, num: Numerics, ls: seq<real>) returns (pv: real)
    requires num.Ok() && IsSqrt(num.sqrt) && PositivePrices(df) && |ls| > 0 && AreLogRanges(ls, df, num.ln)
    ensures ColumnOf(df, num, ParkinsonVol(|ls|))[|df| - 1] == Finite(pv) && FitsParkinson(pv, num.ln(2.0), ls)
  {
    ParkinsonWindow(df, num, ls);
    hide *;
    SumOfTheSquares(Squares(ls), ls);
    var mean, x := ParkinsonMean(num, Squares(ls), SumOfSquares(ls));
    pv := num.sqrt(x);
    SumOfSquaresNonNegative(ls);
    FitsRoot(num.sqrt, num.ln(2.0), |ls| as real, SumOfSquares(ls), x, mean, pv, ls);
  }

  lemma ParkinsonWindow(df: Frame, num: Numerics, ls: seq<real>)
    requires num.Ok() && PositivePrices(df) && |ls| > 0 && AreLogRanges(ls, df, num.ln)
    ensures |df| > 0 && ColumnOf(df, num, ParkinsonVol(|ls|))[|df| - 1] == ParkinsonOf(num)(Squares(ls))
  {
    var qs := Squares(ls);
    RangesAre(df, num, ls, qs);
    hide SquaredLogRanges, Rolling, PositivePrices, Squares, ParkinsonOf;
    RollingWindow(SquaredLogRanges(df, num), qs, ParkinsonOf(num));
  }

  lemma ParkinsonMean(num: Numerics, qs: seq<real>, q: real) returns (mean: real, x: real)
    requires num.Ok() && |qs| > 0 && q == Sum(qs)
    ensures num.ln(2.0) > 0.0 && IsFraction(mean, |qs| as real, q) && IsFraction(x, 4.0 * num.ln(2.0), mean)
    ensures ParkinsonOf(num)(qs) == Finite(num.sqrt(x))
  {
    var n := |qs| as real;
    mean := Mean(qs);
    assert mean == Quotient(Sum(qs), n);
    hide Mean, Sum;
    x := mean / (4.0 * num.ln(2.0));
  }

  lemma FitsRoot(sqrt: real -> real, ln2: real, w: real, q: real, x: real, mean: real, pv: real, ls: seq<real>)
    requires IsSqrt(sqrt) && ln2 > 0.0 && w == |ls| as real && w > 0.0 && q == SumOfSquares(ls) && q >= 0.0
    requires IsFraction(mean, w, q) && IsFraction(x, 4.0 * ln2, mean) && pv == sqrt(x)
    ensures FitsParkinson(pv, ln2, ls)
  {
    hide SumOfSquares, IsSqrt, IsFraction;
    NonNegativeDividend(mean, w, q);
    NonNegativeDividend(x, 4.0 * ln2, mean);
    RootSquared(sqrt, x, pv);
    ParkinsonScalars(pv, ln2, w, q, x, mean);
  }

  lemma NonNegativeDividend(x: real, t: real, y: real)
    requires t > 0.0 && IsFraction(x, t, y) && y >= 0.0
    ensures x >= 0.0
  {
  }

  /** The mean volume of the last row times the window is the volume of the window. */
  lemma VolumeColumn(df: Frame, num: Numerics, vs: seq<real>) returns (mean: real)
    requires num.Ok() && |vs| > 0 && AreVolumes(vs, df)
    ensures ColumnOf(df, num, VolumeMean(|vs|))[|df| - 1] == Finite(mean) && IsFraction(mean, |vs| as real, Sum(vs))
  {
    VolumeWindow(df, num, vs);
    hide *;
    mean := MeanAggregate(vs);
  }

  lemma VolumeWindow(df: Frame, num: Numerics, vs: seq<real>)
    requires num.Ok() && |vs| > 0 && AreVolumes(vs, df)
    ensures |df| > 0 && ColumnOf(df, num, VolumeMean(|vs|))[|df| - 1] == MeanOf()(vs)
  {
    hide MeanOf, Rolling;
    RollingWindow(Volumes(df), vs, MeanOf());
  }

  // ---------------------------------------------------------------- which columns there are

  predicate IsPointwise(col: Col) {
    col.LogReturn? || col.SquaredReturn? || col.VolumeRoc? || col.HlRange?
  }

  /** The pointwise columns, and every rolling column for every window: nothing else, nothing left out. */
  lemma {:induction false} ColumnsPresent(windows: seq<nat>, col: Col)
    ensures col in AllCols(windows) <==> IsPointwise(col) || WindowOf(col) in windows
  {
    if |windows| != 0 {
      var n := |windows| - 1;
      ColumnsPresent(windows[..n], col);
      assert windows == windows[..n] + [windows[n]];
      hide AllCols;
    }
  }
}
