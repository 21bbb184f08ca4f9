/**
  Forward realised-volatility labels: index arithmetic over a price series, and
  what the label of a price does not depend on.
*/
module Labels {
  import opened Reals
  import opened Features

  // ---------------------------------------------------------------- sums with NaN and infinities

  /** x + y: NaN absorbs everything, an infinity everything but NaN and the opposite infinity. */
  function Add(x: Cell, y: Cell): Cell {
    match (x, y)
    case (Undefined, _) => Undefined
    case (_, Undefined) => Undefined
    case (Infinite(p), Infinite(q)) => if p == q then x else Undefined
    case (Infinite(_), Finite(_)) => x
    case (Finite(_), Infinite(_)) => y
    case (Finite(a), Finite(b)) => Finite(a + b)
  }

  function SumCells(xs: Column): Cell {
    if |xs| == 0 then Finite(0.0) else Add(xs[0], SumCells(xs[1..]))
  }

  function Root(x: Cell, sqrt: real -> real): Cell {
    if x.Finite? then Finite(sqrt(x.value)) else x
  }

  // ---------------------------------------------------------------- the labels

  /** The squared log returns; the first entry is undefined. */
  function SquaredAt(close: seq<real>, ln: real -> real, t: nat): Cell
    requires t < |close|
  {
    if t == 0 then Undefined else Square(LogOfRatio(close[t], close[t - 1], ln))
  }

  function Squared(close: seq<real>, ln: real -> real): (c: Column)
    ensures |c| == |close|
  {
    seq(|close|, t requires 0 <= t < |close| => SquaredAt(close, ln, t))
  }

  predicate AnyNaN(xs: Column) {
    exists i :: 0 <= i < |xs| && xs[i].Undefined?
  }

  /** The root of the sum of the next window squared returns, undefined if one is NaN or missing. */
  function LabelAt(close: seq<real>, window: nat, ln: real -> real, sqrt: real -> real, i: nat): Cell
    requires i < |close|
  {
    if i + window >= |close| then Undefined else
      var forward := Squared(close, ln)[i + 1..i + 1 + window];
      if AnyNaN(forward) then Undefined else Root(SumCells(forward), sqrt)
  }

  function LabelSeries(close: seq<real>, window: nat, ln: real -> real, sqrt: real -> real): (c: Column)
    ensures |c| == |close|
  {
    seq(|close|, i requires 0 <= i < |close| => LabelAt(close, window, ln, sqrt, i))
  }

  /** The loop of the code over a preallocated result. */
  method ComputeForwardRealizedVol(close: seq<real>, window: nat, ln: real -> real, sqrt: real -> real)
    returns (result: array<Cell>)
    ensures fresh(result) && result[..] == LabelSeries(close, window, ln, sqrt)
  {
    hide SquaredAt, AnyNaN, SumCells, Root;
    var squared := Squared(close, ln);
    result := new Cell[|squared|](_ => Undefined);
    var i := 0;
    while i < |squared| - window
      invariant 0 <= i && (i <= |squared| - window || i == 0)
      invariant forall k :: 0 <= k < result.Length ==>
        result[k] == if k < i then LabelAt(close, window, ln, sqrt, k) else Undefined
    {
      var forward := squared[i + 1..i + 1 + window];
      if !AnyNaN(forward) {
        result[i] := Root(SumCells(forward), sqrt);
      }
      i := i + 1;
    }
  }

  // ---------------------------------------------------------------- what a label does not depend on

  /** Dropping earlier prices shifts the labels and changes none: the first return is never used. */
  lemma LabelOfSuffix(close: seq<real>, k: nat, window: nat, ln: real -> real, sqrt: real -> real, i: nat)
    requires k + i < |close|
    ensures LabelAt(close[k..], window, ln, sqrt, i) == LabelAt(close, window, ln, sqrt, k + i)
  {
    var d := close[k..];
    if i + window < |d| {
      assert Squared(d, ln)[i + 1..i + 1 + window] == Squared(close, ln)[k + i + 1..k + i + 1 + window];
    }
  }

  /** Appending later prices changes no label whose window was already complete. */
  lemma LabelOfExtension(close: seq<real>, more: seq<real>, window: nat, ln: real -> real, sqrt: real -> real, i: nat)
    requires i + window < |close|
    ensures LabelAt(close + more, window, ln, sqrt, i) == LabelAt(close, window, ln, sqrt, i)
  {
    assert Squared(close + more, ln)[i + 1..i + 1 + window] == Squared(close, ln)[i + 1..i + 1 + window];
  }

  /** The forward sum of squared returns a label is the root of. */
  function ForwardSum(close: seq<real>, window: nat, ln: real -> real, i: nat): Cell
    requires i + window < |close|
  {
    SumCells(Squared(close, ln)[i + 1..i + 1 + window])
  }

  ghost predicate IsSquareCell(x: Cell) {
    x.Undefined? || x == Infinite(true) || (x.Finite? && x.value >= 0.0)
  }

  lemma SquaredIsSquare(close: seq<real>, ln: real -> real)
    ensures forall t :: 0 <= t < |close| ==> IsSquareCell(Squared(close, ln)[t])
  {
    forall t | 0 <= t < |close| ensures IsSquareCell(Squared(close, ln)[t]) {
      if t > 0 {
        SquareIsSquare(LogOfRatio(close[t], close[t - 1], ln));
      }
    }
  }

  lemma SquareIsSquare(x: Cell)
    ensures IsSquareCell(Square(x))
  {
    if x.Finite? {
      SquareNonNegative(x.value);
    }
  }

  lemma {:induction false} SumOfSquareCells(xs: Column)
    requires forall i :: 0 <= i < |xs| ==> IsSquareCell(xs[i])
    ensures IsSquareCell(SumCells(xs)) && (SumCells(xs).Undefined? <==> AnyNaN(xs))
  {
    if |xs| != 0 {
      SumOfSquareCells(xs[1..]);
      assert forall i :: 0 < i < |xs| ==> xs[i] == xs[1..][i - 1];
    }
  }

  /** So a label is the root of its forward sum, and undefined exactly when that is. */
  lemma LabelIsRoot(close: seq<real>, window: nat, ln: real -> real, sqrt: real -> real, i: nat)
    requires i + window < |close|
    ensures LabelAt(close, window, ln, sqrt, i) == Root(ForwardSum(close, window, ln, i), sqrt)
    ensures IsSquareCell(ForwardSum(close, window, ln, i))
  {
    SquaredIsSquare(close, ln);
    hide IsSquareCell;
    SumOfSquareCells(Squared(close, ln)[i + 1..i + 1 + window]);
  }

  lemma {:induction false} SumOfFinite(xs: Column)
    ensures SumCells(xs).Finite? <==> AllFinite(xs)
    ensures AllFinite(xs) ==> SumCells(xs) == Finite(Sum(Values(xs)))
  {
    if |xs| != 0 {
      SumOfFinite(xs[1..]);
      assert forall i :: 0 < i < |xs| ==> xs[i] == xs[1..][i - 1];
      if AllFinite(xs) {
        assert Values(xs)[1..] == Values(xs[1..]);
      }
    }
  }

  /**
    The two services agree: the forward label of a price is the realised
    volatility feature of the candle window rows later, unless it is infinite -
    there the rolling window gives NaN and the label loop does not.
  */
  lemma LabelIsFutureRealizedVol(df: Frame, num: Numerics, window: nat, i: nat)
    requires num.Ok() && window > 0 && i + window < |df|
    ensures var close := seq(|df|, t requires 0 <= t < |df| => df[t].close);
      var forward := LabelAt(close, window, num.ln, num.sqrt, i);
      var feature := ColumnOf(df, num, RealizedVol(window))[i + window];
      if forward.Infinite? then feature.Undefined? else forward == feature
  {
    var close := seq(|df|, t requires 0 <= t < |df| => df[t].close);
    assert Squared(close, num.ln) == SquaredReturns(df, num);
    assert i + window + 1 - window == i + 1;
    var squares := Squared(close, num.ln)[i + 1..i + 1 + window];
    LabelIsRoot(close, window, num.ln, num.sqrt, i);
    SumOfFinite(squares);
    assert ColumnOf(df, num, RealizedVol(window))[i + window]
        == RollingAt(SquaredReturns(df, num), window, RootSumOf(num), i + window);
  }
}
