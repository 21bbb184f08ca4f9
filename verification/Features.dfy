/**
  The feature columns of a candle frame and the row the consumer stores: the
  last entry of every column.
*/
module Features {
  import opened Reals
  import opened Statistics

  /** The key of a candle, a feature row and a forecast. */
  datatype Key = Key(symbol: string, time: int)

  datatype Candle = Candle(symbol: string, time: int, open: real, high: real, low: real, close: real, volume: real)

  /** Rows in index order. */
  type Frame = seq<Candle>

  /** A floating-point entry: NaN, an infinity, or a number. NaN is stored as SQL NULL, an infinity as it is. */
  datatype Cell = Undefined | Infinite(positive: bool) | Finite(value: real)

  type Column = seq<Cell>

  /** The functions of the numeric libraries; only ln(2) > 0 is assumed of them. */
  datatype Numerics = Numerics(ln: real -> real, sqrt: real -> real,
                               skew: seq<real> -> Cell, kurt: seq<real> -> Cell)
  {
    predicate Ok() {
      ln(2.0) > 0.0
    }
  }

  datatype Col =
    | LogReturn | SquaredReturn | VolumeRoc | HlRange
    | RetMean(w: nat) | RetStd(w: nat) | RealizedVol(w: nat) | ParkinsonVol(w: nat)
    | RetSkew(w: nat) | RetKurt(w: nat) | VolumeMean(w: nat)

  // ---------------------------------------------------------------- pointwise columns

  /** a / b */
  function Ratio(a: real, b: real): Cell {
    if b != 0.0 then Finite(a / b) else if a == 0.0 then Undefined else Infinite(a > 0.0)
  }

  function Log(x: Cell, ln: real -> real): Cell {
    match x
    case Undefined => Undefined
    case Infinite(positive) => if positive then x else Undefined
    case Finite(v) => if v > 0.0 then Finite(ln(v)) else if v == 0.0 then Infinite(false) else Undefined
  }

  /** log(a / b) */
  function LogOfRatio(a: real, b: real, ln: real -> real): Cell {
    Log(Ratio(a, b), ln)
  }

  function Square(x: Cell): Cell {
    match x
    case Undefined => Undefined
    case Infinite(_) => Infinite(true)
    case Finite(v) => Finite(v * v)
  }

  /** log(close / close.shift(1)) at row t. */
  function ReturnAt(df: Frame, num: Numerics, t: nat): Cell
    requires t < |df|
  {
    if t == 0 then Undefined else LogOfRatio(df[t].close, df[t - 1].close, num.ln)
  }

  function MinusOne(x: Cell): Cell {
    if x.Finite? then Finite(x.value - 1.0) else x
  }

  /** volume.pct_change() at row t. */
  function VolumeRocAt(df: Frame, t: nat): Cell
    requires t < |df|
  {
    if t == 0 then Undefined else MinusOne(Ratio(df[t].volume, df[t - 1].volume))
  }

  function HlRangeAt(df: Frame, t: nat): Cell
    requires t < |df|
  {
    Ratio(df[t].high - df[t].low, df[t].close)
  }

  function Returns(df: Frame, num: Numerics): (c: Column)
    ensures |c| == |df|
  {
    seq(|df|, t requires 0 <= t < |df| => ReturnAt(df, num, t))
  }

  function SquaredReturns(df: Frame, num: Numerics): (c: Column)
    ensures |c| == |df|
  {
    seq(|df|, t requires 0 <= t < |df| => Square(ReturnAt(df, num, t)))
  }

  function SquaredLogRanges(df: Frame, num: Numerics): (c: Column)
    ensures |c| == |df|
  {
    seq(|df|, t requires 0 <= t < |df| => Square(LogOfRatio(df[t].high, df[t].low, num.ln)))
  }

  function Volumes(df: Frame): (c: Column)
    ensures |c| == |df|
  {
    seq(|df|, t requires 0 <= t < |df| => Finite(df[t].volume))
  }

  function VolumeRocs(df: Frame): (c: Column)
    ensures |c| == |df|
  {
    seq(|df|, t requires 0 <= t < |df| => VolumeRocAt(df, t))
  }

  function HlRanges(df: Frame): (c: Column)
    ensures |c| == |df|
  {
    seq(|df|, t requires 0 <= t < |df| => HlRangeAt(df, t))
  }

  // ---------------------------------------------------------------- rolling windows

  predicate AllFinite(xs: Column) {
    forall i :: 0 <= i < |xs| ==> xs[i].Finite?
  }

  function Values(xs: Column): (vs: seq<real>)
    requires AllFinite(xs)
    ensures |vs| == |xs|
  {
    seq(|xs|, i requires 0 <= i < |xs| => xs[i].value)
  }

  /** rolling(w).agg() at row t: undefined unless the last w values exist and are finite; pandas takes infinities for NaN. */
  function RollingAt(xs: Column, w: nat, agg: seq<real> -> Cell, t: nat): Cell
    requires t < |xs|
  {
    if w == 0 || t + 1 < w || !AllFinite(xs[t + 1 - w..t + 1]) then Undefined else agg(Values(xs[t + 1 - w..t + 1]))
  }

  function Rolling(xs: Column, w: nat, agg: seq<real> -> Cell): (c: Column)
    ensures |c| == |xs|
  {
    seq(|xs|, t requires 0 <= t < |xs| => RollingAt(xs, w, agg, t))
  }

  function MeanOrNaN(vs: seq<real>): Cell {
    if |vs| == 0 then Undefined else Finite(Mean(vs))
  }

  function RootOf(num: Numerics, x: Cell): Cell {
    if x.Finite? then Finite(num.sqrt(x.value)) else Undefined
  }

  function VarianceOrNaN(vs: seq<real>): Cell {
    if |vs| < 2 then Undefined else Finite(Variance(vs))
  }

  function MeanOf(): seq<real> -> Cell {
    (vs: seq<real>) => MeanOrNaN(vs)
  }

  function StdOf(num: Numerics): seq<real> -> Cell {
    (vs: seq<real>) => RootOf(num, VarianceOrNaN(vs))
  }

  function RootSumOf(num: Numerics): seq<real> -> Cell {
    (vs: seq<real>) => Finite(num.sqrt(Sum(vs)))
  }

  /** The root of mean / (4 ln 2). */
  function ParkinsonOf(num: Numerics): seq<real> -> Cell
    requires num.Ok()
  {
    var scale := 4.0 * num.ln(2.0);
    (vs: seq<real>) => if scale != 0.0 && |vs| > 0 then Finite(num.sqrt(Mean(vs) / scale)) else Undefined
  }

  // ---------------------------------------------------------------- the columns

  function ColumnOf(df: Frame, num: Numerics, col: Col): (c: Column)
    requires num.Ok()
    ensures |c| == |df|
  {
    match col
    case LogReturn => Returns(df, num)
    case SquaredReturn => SquaredReturns(df, num)
    case VolumeRoc => VolumeRocs(df)
    case HlRange => HlRanges(df)
    case RetMean(w) => Rolling(Returns(df, num), w, MeanOf())
    case RetStd(w) => Rolling(Returns(df, num), w, StdOf(num))
    case RealizedVol(w) => Rolling(SquaredReturns(df, num), w, RootSumOf(num))
    case ParkinsonVol(w) => Rolling(SquaredLogRanges(df, num), w, ParkinsonOf(num))
    case RetSkew(w) => Rolling(Returns(df, num), w, num.skew)
    case RetKurt(w) => Rolling(Returns(df, num), w, num.kurt)
    case VolumeMean(w) => Rolling(Volumes(df), w, MeanOf())
  }

  function BaseCols(): set<Col> {
    {LogReturn, SquaredReturn, VolumeRoc, HlRange}
  }

  function WindowCols(w: nat): set<Col> {
    {RetMean(w), RetStd(w), RealizedVol(w), ParkinsonVol(w), RetSkew(w), RetKurt(w), VolumeMean(w)}
  }

  function AllCols(windows: seq<nat>): set<Col> {
    if |windows| == 0 then BaseCols() else AllCols(windows[..|windows| - 1]) + WindowCols(windows[|windows| - 1])
  }

  /** Columns are added window by window. */
  method ComputeFeatures(df: Frame, num: Numerics, windows: seq<nat>) returns (feats: map<Col, Column>)
    requires num.Ok()
    ensures feats == map col | col in AllCols(windows) :: ColumnOf(df, num, col)
  {
    hide ColumnOf;
    feats := map col | col in BaseCols() :: ColumnOf(df, num, col);
    for i := 0 to |windows|
      invariant feats == map col | col in AllCols(windows[..i]) :: ColumnOf(df, num, col)
    {
      var w := windows[i];
      assert windows[..i + 1][..i] == windows[..i];
      feats := feats[RetMean(w) := ColumnOf(df, num, RetMean(w))];
      feats := feats[RetStd(w) := ColumnOf(df, num, RetStd(w))];
      feats := feats[RealizedVol(w) := ColumnOf(df, num, RealizedVol(w))];
      feats := feats[ParkinsonVol(w) := ColumnOf(df, num, ParkinsonVol(w))];
      feats := feats[RetSkew(w) := ColumnOf(df, num, RetSkew(w))];
      feats := feats[RetKurt(w) := ColumnOf(df, num, RetKurt(w))];
      feats := feats[VolumeMean(w) := ColumnOf(df, num, VolumeMean(w))];
    }
    assert windows[..|windows|] == windows;
  }

  type FeatureRow = map<Col, Cell>

  /** The last row of all columns. */
  function LatestRow(df: Frame, num: Numerics, windows: seq<nat>): FeatureRow
    requires num.Ok() && |df| > 0
  {
    map col | col in AllCols(windows) :: ColumnOf(df, num, col)[|df| - 1]
  }

  method LatestFeatureRow(df: Frame, num: Numerics, windows: seq<nat>) returns (row: FeatureRow)
    requires num.Ok() && |df| > 0
    ensures row == LatestRow(df, num, windows)
  {
    var feats := ComputeFeatures(df, num, windows);
    row := map col | col in feats :: feats[col][|df| - 1];
  }

  // ---------------------------------------------------------------- the last row needs only a suffix

  function MaxWindow(windows: seq<nat>): (m: nat)
    ensures forall i :: 0 <= i < |windows| ==> windows[i] <= m
  {
    if |windows| == 0 then 0 else
      var m := MaxWindow(windows[..|windows| - 1]);
      if windows[|windows| - 1] > m then windows[|windows| - 1] else m
  }

  function WindowOf(col: Col): nat {
    match col
    case LogReturn | SquaredReturn | VolumeRoc | HlRange => 0
    case RetMean(w) => w
    case RetStd(w) => w
    case RealizedVol(w) => w
    case ParkinsonVol(w) => w
    case RetSkew(w) => w
    case RetKurt(w) => w
    case VolumeMean(w) => w
  }

  lemma {:induction false} ColsAreBounded(windows: seq<nat>, col: Col)
    requires col in AllCols(windows)
    ensures WindowOf(col) <= MaxWindow(windows)
  {
    if |windows| != 0 && col in AllCols(windows[..|windows| - 1]) {
      ColsAreBounded(windows[..|windows| - 1], col);
    }
  }

  /** Columns that agree from row k + 1 on have the same rolling value at the end. */
  lemma RollingOfSuffix(xs: Column, ys: Column, k: nat, w: nat, agg: seq<real> -> Cell)
    requires |xs| == k + |ys| && |ys| > w
    requires forall t :: 0 < t < |ys| ==> xs[k + t] == ys[t]
    ensures Rolling(xs, w, agg)[|xs| - 1] == Rolling(ys, w, agg)[|ys| - 1]
  {
    assert xs[|xs| - w..|xs|] == ys[|ys| - w..|ys|];
  }

  ghost predicate EntriesAgree(df: Frame, d: Frame, num: Numerics, k: nat, t: nat)
    requires t < |d| && k + t < |df|
  {
    && ReturnAt(df, num, k + t) == ReturnAt(d, num, t)
    && VolumeRocAt(df, k + t) == VolumeRocAt(d, t)
    && HlRangeAt(df, k + t) == HlRangeAt(d, t)
    && df[k + t] == d[t]
  }

  lemma EntriesOfSuffix(df: Frame, k: nat, num: Numerics, t: nat)
    requires k <= |df| && 0 < t < |df| - k
    ensures EntriesAgree(df, df[k..], num, k, t)
  {
    assert df[k..][t] == df[k + t] && df[k..][t - 1] == df[k + t - 1];
    hide LogOfRatio;
  }

  /** Every pointwise column of the suffix agrees with the full one from its second row on. */
  lemma ColumnsOfSuffix(df: Frame, k: nat, num: Numerics)
    requires k <= |df|
    ensures var d := df[k..]; forall t :: 0 < t < |d| ==>
      && Returns(df, num)[k + t] == Returns(d, num)[t]
      && SquaredReturns(df, num)[k + t] == SquaredReturns(d, num)[t]
      && SquaredLogRanges(df, num)[k + t] == SquaredLogRanges(d, num)[t]
      && Volumes(df)[k + t] == Volumes(d)[t]
      && VolumeRocs(df)[k + t] == VolumeRocs(d)[t]
      && HlRanges(df)[k + t] == HlRanges(d)[t]
  {
    var d := df[k..];
    hide LogOfRatio;
    forall t | 0 < t < |d| ensures EntriesAgree(df, d, num, k, t) {
      EntriesOfSuffix(df, k, num, t);
    }
    hide ReturnAt, VolumeRocAt, HlRangeAt, Square;
  }

  /**
    Dropping any number of leading candles leaves the last entry of a column
    unchanged, as long as one candle more than the window (and two) remain.
  */
  lemma LastEntryOfSuffix(df: Frame, k: nat, num: Numerics, col: Col)
    requires num.Ok() && k + 2 <= |df| && k + WindowOf(col) + 1 <= |df|
    ensures ColumnOf(df[k..], num, col)[|df| - k - 1] == ColumnOf(df, num, col)[|df| - 1]
  {
    hide Returns, SquaredReturns, SquaredLogRanges, Volumes, VolumeRocs, HlRanges,
      Rolling, ParkinsonOf, RootSumOf, StdOf, MeanOf;
    match col {
      case LogReturn => ColumnsOfSuffix(df, k, num);
      case SquaredReturn => ColumnsOfSuffix(df, k, num);
      case VolumeRoc => ColumnsOfSuffix(df, k, num);
      case HlRange => ColumnsOfSuffix(df, k, num);
      case RetMean(w) => RollingReturns(df, k, num, w, MeanOf());
      case RetStd(w) => RollingReturns(df, k, num, w, StdOf(num));
      case RealizedVol(w) => RollingOthers(df, k, num, w);
      case ParkinsonVol(w) => RollingOthers(df, k, num, w);
      case RetSkew(w) => RollingReturns(df, k, num, w, num.skew);
      case RetKurt(w) => RollingReturns(df, k, num, w, num.kurt);
      case VolumeMean(w) => RollingOthers(df, k, num, w);
    }
  }

  lemma RollingReturns(df: Frame, k: nat, num: Numerics, w: nat, agg: seq<real> -> Cell)
    requires k + w + 1 <= |df|
    ensures Rolling(Returns(df[k..], num), w, agg)[|df| - k - 1] == Rolling(Returns(df, num), w, agg)[|df| - 1]
  {
    ColumnsOfSuffix(df, k, num);
    hide Returns, Rolling;
    RollingOfSuffix(Returns(df, num), Returns(df[k..], num), k, w, agg);
  }

  lemma RollingOthers(df: Frame, k: nat, num: Numerics, w: nat)
    requires num.Ok() && k + w + 1 <= |df|
    ensures Rolling(SquaredReturns(df[k..], num), w, RootSumOf(num))[|df| - k - 1]
         == Rolling(SquaredReturns(df, num), w, RootSumOf(num))[|df| - 1]
    ensures Rolling(SquaredLogRanges(df[k..], num), w, ParkinsonOf(num))[|df| - k - 1]
         == Rolling(SquaredLogRanges(df, num), w, ParkinsonOf(num))[|df| - 1]
    ensures Rolling(Volumes(df[k..]), w, MeanOf())[|df| - k - 1] == Rolling(Volumes(df), w, MeanOf())[|df| - 1]
  {
    hide SquaredReturns, SquaredLogRanges, Volumes, Rolling, RootSumOf, ParkinsonOf, MeanOf;
    ColumnsOfSuffix(df, k, num);
    RollingOfSuffix(SquaredReturns(df, num), SquaredReturns(df[k..], num), k, w, RootSumOf(num));
    RollingOfSuffix(SquaredLogRanges(df, num), SquaredLogRanges(df[k..], num), k, w, ParkinsonOf(num));
    RollingOfSuffix(Volumes(df), Volumes(df[k..]), k, w, MeanOf());
  }

  lemma ColEntryOfSuffix(df: Frame, k: nat, num: Numerics, windows: seq<nat>, col: Col)
    requires num.Ok() && k + MaxWindow(windows) + 2 <= |df| && col in AllCols(windows)
    ensures ColumnOf(df[k..], num, col)[|df| - k - 1] == ColumnOf(df, num, col)[|df| - 1]
  {
    hide ColumnOf;
    ColsAreBounded(windows, col);
    hide *;
    LastEntryOfSuffix(df, k, num, col);
  }

  lemma LatestRowOfSuffix(df: Frame, k: nat, num: Numerics, windows: seq<nat>)
    requires num.Ok() && k + MaxWindow(windows) + 2 <= |df|
    ensures LatestRow(df[k..], num, windows) == LatestRow(df, num, windows)
  {
    hide ColumnOf, AllCols, MaxWindow, Numerics.Ok;
    forall col | col in AllCols(windows)
      ensures ColumnOf(df[k..], num, col)[|df| - k - 1] == ColumnOf(df, num, col)[|df| - 1]
    {
      ColEntryOfSuffix(df, k, num, windows, col);
    }
  }

  // ---------------------------------------------------------------- nothing undefined inside a window

  ghost predicate PositivePrices(df: Frame) {
    forall t :: 0 <= t < |df| ==> df[t].close > 0.0 && df[t].high > 0.0 && df[t].low > 0.0
  }

  lemma RatioOfPositive(a: real, b: real)
    requires b > 0.0
    ensures a / b > 0.0 <==> a > 0.0
  {
    var q := a / b;
    assert q * b == a;
  }

  lemma PositiveRatio(a: real, b: real, ln: real -> real)
    requires a > 0.0 && b > 0.0
    ensures LogOfRatio(a, b, ln) == Finite(ln(a / b))
  {
    assert a / b > 0.0;
  }

  /**
    With positive prices and a candle more than the window, every return in the
    window is defined, so the rolling means, realised and Parkinson
    volatilities and mean volume of the last row are all present.
  */
  lemma WindowIsDefined(df: Frame, num: Numerics, w: nat)
    requires num.Ok() && PositivePrices(df) && 0 < w < |df|
    ensures AllFinite(Returns(df, num)[|df| - w..])
    ensures forall col :: col in {RetMean(w), RealizedVol(w), ParkinsonVol(w), VolumeMean(w)} ==>
      ColumnOf(df, num, col)[|df| - 1].Finite?
  {
    EntriesAreFinite(df, num);
    WindowAggregates(num, w);
    hide *;
    WindowReturns(df, num, w);
    WindowEntries(df, num, w);
    WindowColumns(df, num, w);
  }

  lemma WindowReturns(df: Frame, num: Numerics, w: nat)
    requires 0 < w < |df| && forall t :: 0 < t < |df| ==> Returns(df, num)[t].Finite?
    ensures AllFinite(Returns(df, num)[|df| - w..])
  {
    hide Returns;
  }

  lemma WindowEntries(df: Frame, num: Numerics, w: nat)
    requires num.Ok() && 0 < w < |df|
    requires forall t :: 0 < t < |df| ==> Returns(df, num)[t].Finite? && SquaredReturns(df, num)[t].Finite?
    requires forall t :: 0 <= t < |df| ==> SquaredLogRanges(df, num)[t].Finite?
    requires forall vs: seq<real> :: |vs| == w ==>
      MeanOf()(vs).Finite? && RootSumOf(num)(vs).Finite? && ParkinsonOf(num)(vs).Finite?
    ensures Rolling(Returns(df, num), w, MeanOf())[|df| - 1].Finite?
    ensures Rolling(SquaredReturns(df, num), w, RootSumOf(num))[|df| - 1].Finite?
    ensures Rolling(SquaredLogRanges(df, num), w, ParkinsonOf(num))[|df| - 1].Finite?
    ensures Rolling(Volumes(df), w, MeanOf())[|df| - 1].Finite?
  {
    hide Returns, SquaredReturns, SquaredLogRanges, MeanOf, RootSumOf, ParkinsonOf, Rolling;
    WindowEntry(Returns(df, num), w, MeanOf());
    WindowEntry(SquaredReturns(df, num), w, RootSumOf(num));
    WindowEntry(SquaredLogRanges(df, num), w, ParkinsonOf(num));
    WindowEntry(Volumes(df), w, MeanOf());
  }

  lemma WindowColumns(df: Frame, num: Numerics, w: nat)
    requires num.Ok() && |df| > 0
    requires Rolling(Returns(df, num), w, MeanOf())[|df| - 1].Finite?
    requires Rolling(SquaredReturns(df, num), w, RootSumOf(num))[|df| - 1].Finite?
    requires Rolling(SquaredLogRanges(df, num), w, ParkinsonOf(num))[|df| - 1].Finite?
    requires Rolling(Volumes(df), w, MeanOf())[|df| - 1].Finite?
    ensures forall col :: col in {RetMean(w), RealizedVol(w), ParkinsonVol(w), VolumeMean(w)} ==>
      ColumnOf(df, num, col)[|df| - 1].Finite?
  {
    hide Returns, SquaredReturns, SquaredLogRanges, Volumes, MeanOf, RootSumOf, ParkinsonOf, Rolling;
  }

  lemma EntriesAreFinite(df: Frame, num: Numerics)
    requires PositivePrices(df)
    ensures forall t :: 0 < t < |df| ==> Returns(df, num)[t].Finite? && SquaredReturns(df, num)[t].Finite?
    ensures forall t :: 0 <= t < |df| ==> SquaredLogRanges(df, num)[t].Finite?
  {
    forall t | 0 < t < |df| ensures ReturnAt(df, num, t).Finite? {
      PositiveRatio(df[t].close, df[t - 1].close, num.ln);
    }
    forall t | 0 <= t < |df| ensures SquaredLogRanges(df, num)[t].Finite? {
      PositiveRatio(df[t].high, df[t].low, num.ln);
    }
  }

  /** Over a full window of numbers, the mean, the root of the sum and the Parkinson estimate are numbers. */
  lemma WindowAggregates(num: Numerics, w: nat)
    requires num.Ok() && w > 0
    ensures forall vs: seq<real> :: |vs| == w ==>
      MeanOf()(vs).Finite? && RootSumOf(num)(vs).Finite? && ParkinsonOf(num)(vs).Finite?
  {
    hide Mean, Sum;
  }

  lemma WindowEntry(xs: Column, w: nat, agg: seq<real> -> Cell)
    requires 0 < w <= |xs| && forall t :: |xs| - w <= t < |xs| ==> xs[t].Finite?
    requires forall vs: seq<real> :: |vs| == w ==> agg(vs).Finite?
    ensures Rolling(xs, w, agg)[|xs| - 1].Finite?
  {
    assert AllFinite(xs[|xs| - w..|xs|]);
    var vs := Values(xs[|xs| - w..|xs|]);
  }

  // ---------------------------------------------------------------- what the return columns mean

  ghost predicate IsLog(ln: real -> real) {
    forall a, b :: a > 0.0 && b > 0.0 ==> ln(a * b) == ln(a) + ln(b)
  }

  lemma RatioChain(a: real, b: real, c: real)
    requires a > 0.0 && b > 0.0 && c > 0.0
    ensures b / a > 0.0 && c / b > 0.0 && c / a > 0.0
    ensures (b / a) * (c / b) == c / a
  {
    var p, q, r := b / a, c / b, c / a;
    assert p * a == b && q * b == c && r * a == c;
    assert (p * q) * a == q * (p * a);
    CancelOrder(a, p * q, r);
  }

  lemma LogOfChain(ln: real -> real, a: real, b: real, c: real)
    requires IsLog(ln) && a > 0.0 && b > 0.0 && c > 0.0
    ensures b / a > 0.0 && c / b > 0.0 && c / a > 0.0
    ensures ln(c / a) == ln(b / a) + ln(c / b)
  {
    RatioChain(a, b, c);
    LogOfProduct(ln, b / a, c / b, c / a);
  }

  lemma LogOfProduct(ln: real -> real, p: real, q: real, r: real)
    requires IsLog(ln) && p > 0.0 && q > 0.0 && p * q == r
    ensures ln(r) == ln(p) + ln(q)
  {
  }

  lemma LogOfOne(ln: real -> real)
    requires IsLog(ln)
    ensures ln(1.0) == 0.0
  {
    assert ln(1.0 * 1.0) == ln(1.0) + ln(1.0);
  }

  /** The returns of rows lo + 1 to hi add up to the log of the price ratio over them. */
  lemma {:induction false} ReturnsTelescope(df: Frame, num: Numerics, lo: nat, hi: nat)
    requires PositivePrices(df) && IsLog(num.ln) && lo <= hi < |df|
    ensures AllFinite(Returns(df, num)[lo + 1..hi + 1])
    ensures df[hi].close / df[lo].close > 0.0
    ensures Sum(Values(Returns(df, num)[lo + 1..hi + 1])) == num.ln(df[hi].close / df[lo].close)
    decreases hi - lo
  {
    var window := Returns(df, num)[lo + 1..hi + 1];
    if lo == hi {
      SelfRatio(df[lo].close);
      LogOfOne(num.ln);
    } else {
      ReturnsTelescope(df, num, lo + 1, hi);
      LogOfChain(num.ln, df[lo].close, df[lo + 1].close, df[hi].close);
      PositiveRatio(df[lo + 1].close, df[lo].close, num.ln);
      hide LogOfRatio, IsLog;
      var rest := Returns(df, num)[lo + 2..hi + 1];
      assert window == [ReturnAt(df, num, lo + 1)] + rest;
      assert Values(window)[1..] == Values(rest);
    }
  }

  lemma SelfRatio(a: real)
    requires a > 0.0
    ensures a / a == 1.0
  {
  }

  /** ret_mean over w rows is the log of the price ratio across them, divided by w. */
  lemma RetMeanIsLogRatio(df: Frame, num: Numerics, w: nat)
    requires num.Ok() && PositivePrices(df) && IsLog(num.ln) && 0 < w < |df|
    ensures df[|df| - 1].close / df[|df| - 1 - w].close > 0.0
    ensures ColumnOf(df, num, RetMean(w))[|df| - 1]
         == Finite(num.ln(df[|df| - 1].close / df[|df| - 1 - w].close) / w as real)
  {
    var n := |df|;
    ReturnsTelescope(df, num, n - 1 - w, n - 1);
    hide LogOfRatio, IsLog, Sum, Returns;
    assert n - 1 - w + 1 == n - w && n - 1 + 1 == n;
  }

  function RootSumSquares(num: Numerics, vs: seq<real>): real {
    num.sqrt(SumOfSquares(vs))
  }

  lemma {:induction false} SumOfSquaredValues(xs: Column, ys: Column)
    requires |xs| == |ys| && AllFinite(xs)
    requires forall i :: 0 <= i < |xs| ==> ys[i] == Square(xs[i])
    ensures AllFinite(ys) && Sum(Values(ys)) == SumOfSquares(Values(xs))
  {
    if |xs| != 0 {
      SumOfSquaredValues(xs[1..], ys[1..]);
      assert Values(xs)[1..] == Values(xs[1..]) && Values(ys)[1..] == Values(ys[1..]);
    }
  }

  ghost predicate Decomposes(rv: real, std: real, mean: real, n1: real, n: real) {
    IsDecomposed(rv * rv, std * std, mean, n1, n)
  }

  /**
    The return columns of one row fit together: realised volatility squared is
    (w - 1) times the squared standard deviation plus w times the squared mean.
  */
  lemma RealizedVolDecomposition(df: Frame, num: Numerics, w: nat, rv: real, std: real, mean: real)
    requires num.Ok() && IsSqrt(num.sqrt) && PositivePrices(df) && 2 <= w < |df|
    requires ColumnOf(df, num, RealizedVol(w))[|df| - 1] == Finite(rv)
    requires ColumnOf(df, num, RetStd(w))[|df| - 1] == Finite(std)
    requires ColumnOf(df, num, RetMean(w))[|df| - 1] == Finite(mean)
    ensures Decomposes(rv, std, mean, (w - 1) as real, w as real)
  {
    var vs := LastReturns(df, num, w);
    LastColumns(df, num, w, vs, rv, std, mean);
    hide *;
    RootsFit(vs, num, rv, std, mean, (w - 1) as real, w as real);
  }

  lemma LastColumns(df: Frame, num: Numerics, w: nat, vs: seq<real>, rv: real, std: real, mean: real)
    requires num.Ok() && PositivePrices(df) && 2 <= w < |df| && vs == LastReturns(df, num, w)
    requires ColumnOf(df, num, RealizedVol(w))[|df| - 1] == Finite(rv)
    requires ColumnOf(df, num, RetStd(w))[|df| - 1] == Finite(std)
    requires ColumnOf(df, num, RetMean(w))[|df| - 1] == Finite(mean)
    ensures rv == RootSumSquares(num, vs) && RootOf(num, VarianceOrNaN(vs)) == Finite(std) && MeanOrNaN(vs) == Finite(mean)
  {
    hide ColumnOf, LastReturns, PositivePrices, RootSumSquares, RootOf, MeanOrNaN, VarianceOrNaN;
    LastRealizedVol(df, num, w);
    LastStdAndMean(df, num, w);
  }

  /** The last w returns, all defined. */
  function LastReturns(df: Frame, num: Numerics, w: nat): (vs: seq<real>)
    requires num.Ok() && PositivePrices(df) && 0 < w < |df|
    ensures |vs| == w
  {
    WindowIsDefined(df, num, w);
    Values(Returns(df, num)[|df| - w..])
  }

  lemma LastRealizedVol(df: Frame, num: Numerics, w: nat)
    requires num.Ok() && PositivePrices(df) && 0 < w < |df|
    ensures ColumnOf(df, num, RealizedVol(w))[|df| - 1] == Finite(RootSumSquares(num, LastReturns(df, num, w)))
  {
    var n := |df|;
    WindowIsDefined(df, num, w);
    hide SquaredReturns, Square, Sum, SumOfSquares;
    var xs, ys := Returns(df, num)[n - w..], SquaredReturns(df, num)[n - w..n];
    SquaredWindow(df, num, n - w);
    hide Returns;
    SumOfSquaredValues(xs, ys);
    assert n - 1 + 1 - w == n - w;
  }

  lemma SquaredWindow(df: Frame, num: Numerics, from: nat)
    requires from <= |df|
    ensures var xs, ys := Returns(df, num)[from..], SquaredReturns(df, num)[from..|df|];
      forall i :: 0 <= i < |xs| ==> ys[i] == Square(xs[i])
  {
    hide ReturnAt, Square;
  }

  lemma LastStdAndMean(df: Frame, num: Numerics, w: nat)
    requires num.Ok() && PositivePrices(df) && 0 < w < |df|
    ensures ColumnOf(df, num, RetStd(w))[|df| - 1] == RootOf(num, VarianceOrNaN(LastReturns(df, num, w)))
    ensures ColumnOf(df, num, RetMean(w))[|df| - 1] == MeanOrNaN(LastReturns(df, num, w))
  {
    var n := |df|;
    WindowIsDefined(df, num, w);
    hide Returns, VarianceOrNaN, MeanOrNaN;
    assert Returns(df, num)[n - 1 + 1 - w..n - 1 + 1] == Returns(df, num)[n - w..];
  }

  lemma RootsFit(vs: seq<real>, num: Numerics, rv: real, std: real, mean: real, n1: real, n: real)
    requires |vs| >= 2 && IsSqrt(num.sqrt) && n == |vs| as real && n1 == (|vs| - 1) as real
    requires rv == RootSumSquares(num, vs)
    requires RootOf(num, VarianceOrNaN(vs)) == Finite(std) && MeanOrNaN(vs) == Finite(mean)
    ensures Decomposes(rv, std, mean, n1, n)
  {
    SumOfSquaresNonNegative(vs);
    var q := SumOfSquares(vs);
    var variance := Variance(vs);
    VarianceNonNegative(vs);
    VarianceDecomposition(vs, variance, mean, n, n1, q);
    hide SumOfSquares, Variance, Mean;
    assert std == num.sqrt(variance);
    hide RootOf;
    RootSquared(num.sqrt, q, rv);
    RootSquared(num.sqrt, variance, std);
  }

  lemma RootSquared(sqrt: real -> real, x: real, r: real)
    requires IsSqrt(sqrt) && x >= 0.0 && r == sqrt(x)
    ensures r * r == x && r >= 0.0
  {
  }
}
