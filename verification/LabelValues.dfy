/**
  What a label is, in terms of the prices of its window: when it is a number,
  which number, and what a price of zero does to it.
*/
module LabelValues {
  import opened Reals
  import opened Statistics
  import opened Features
  import opened FeatureValues
  import opened Labels

  ghost predicate NoNegativePrice(close: seq<real>) {
    forall t :: 0 <= t < |close| ==> close[t] >= 0.0
  }

  /** The later prices a label needs are there. */
  predicate IsComplete(close: seq<real>, window: nat, i: nat) {
    i + window < |close|
  }

  predicate BothZero(close: seq<real>, t: int) {
    0 < t < |close| && close[t - 1] == 0.0 && close[t] == 0.0
  }

  predicate BothPositive(close: seq<real>, t: int) {
    0 < t < |close| && close[t - 1] > 0.0 && close[t] > 0.0
  }

  lemma SquaredCases(close: seq<real>, ln: real -> real, t: nat)
    requires 0 < t < |close| && NoNegativePrice(close)
    ensures SquaredAt(close, ln, t).Undefined? <==> BothZero(close, t)
    ensures SquaredAt(close, ln, t).Finite? <==> BothPositive(close, t)
    ensures SquaredAt(close, ln, t) != Infinite(false)
  {
    RatioSign(close[t], close[t - 1]);
    hide Ratio;
  }

  lemma RatioSign(a: real, b: real)
    requires a >= 0.0 && b >= 0.0
    ensures b == 0.0 ==> Ratio(a, b) == if a == 0.0 then Undefined else Infinite(true)
    ensures b > 0.0 ==> Ratio(a, b).Finite? && (if a > 0.0 then Ratio(a, b).value > 0.0 else Ratio(a, b).value == 0.0)
  {
  }

  /**
    On prices that are not negative a label is undefined exactly when its window
    is not complete or has two zeros in a row; a number exactly when all prices
    it needs are positive; and plus infinity otherwise.
  */
  lemma LabelCases(close: seq<real>, window: nat, ln: real -> real, sqrt: real -> real, i: nat)
    requires i < |close| && NoNegativePrice(close)
    ensures var x := LabelAt(close, window, ln, sqrt, i);
      && (x.Undefined? <==> !IsComplete(close, window, i) || exists t :: i < t <= i + window && BothZero(close, t))
      && (x.Finite? <==> IsComplete(close, window, i) && forall t :: i < t <= i + window ==> BothPositive(close, t))
      && x != Infinite(false)
  {
    if IsComplete(close, window, i) {
      LabelIsRoot(close, window, ln, sqrt, i);
      var xs := Squared(close, ln)[i + 1..i + 1 + window];
      SumOfFinite(xs);
      SquaredIsSquare(close, ln);
      SumOfSquareCells(xs);
      forall t | i < t <= i + window
        ensures xs[t - i - 1].Undefined? <==> BothZero(close, t)
        ensures xs[t - i - 1].Finite? <==> BothPositive(close, t)
      {
        SquaredCases(close, ln, t);
      }
      hide LabelAt, SumCells, BothZero, BothPositive, SquaredAt, Squared, NoNegativePrice;
      WindowCases(close, xs, window, i);
    }
  }

  lemma WindowCases(close: seq<real>, xs: Column, window: nat, i: nat)
    requires |xs| == window
    requires forall t :: i < t <= i + window ==>
      && (xs[t - i - 1].Undefined? <==> BothZero(close, t)) && (xs[t - i - 1].Finite? <==> BothPositive(close, t))
    ensures AnyNaN(xs) <==> exists t :: i < t <= i + window && BothZero(close, t)
    ensures AllFinite(xs) <==> forall t :: i < t <= i + window ==> BothPositive(close, t)
  {
    hide BothZero, BothPositive;
    forall k | 0 <= k < |xs|
      ensures xs[k].Undefined? <==> BothZero(close, k + i + 1)
      ensures xs[k].Finite? <==> BothPositive(close, k + i + 1)
    {
      assert xs[k] == xs[(k + i + 1) - i - 1];
    }
  }

  /** The log returns after price i. */
  ghost predicate AreForwardReturns(rs: seq<real>, close: seq<real>, i: nat, ln: real -> real) {
    i + |rs| < |close| && forall k :: 0 <= k < |rs| ==> IsLogRatio(rs[k], close[i + k + 1], close[i + k], ln)
  }

  /** At positive prices a label is the root of the sum of the squares of the next window log returns. */
  lemma LabelValue(close: seq<real>, ln: real -> real, sqrt: real -> real, i: nat, rs: seq<real>) returns (x: real)
    requires AreForwardReturns(rs, close, i, ln) && IsSqrt(sqrt)
    requires forall t :: i < t <= i + |rs| ==> BothPositive(close, t)
    ensures LabelAt(close, |rs|, ln, sqrt, i) == Finite(x) && x >= 0.0 && x * x == SumOfSquares(rs)
  {
    LabelIsRoot(close, |rs|, ln, sqrt, i);
    var xs := Squared(close, ln)[i + 1..i + 1 + |rs|];
    ForwardSquares(close, ln, i, rs, xs);
    SumOfFinite(xs);
    SumOfTheSquares(Squares(rs), rs);
    SumOfSquaresNonNegative(rs);
    x := sqrt(SumOfSquares(rs));
    hide LabelAt, SumCells, Squared, AreForwardReturns, BothPositive, SumOfSquares, Sum, Squares, IsSqrt;
    RootSquared(sqrt, SumOfSquares(rs), x);
  }

  lemma ForwardSquares(close: seq<real>, ln: real -> real, i: nat, rs: seq<real>, xs: Column)
    requires AreForwardReturns(rs, close, i, ln) && xs == Squared(close, ln)[i + 1..i + 1 + |rs|]
    requires forall t :: i < t <= i + |rs| ==> BothPositive(close, t)
    ensures AllFinite(xs) && Values(xs) == Squares(rs)
  {
    forall k | 0 <= k < |rs| ensures xs[k] == Finite(Squares(rs)[k]) {
      var t := i + k + 1;
      assert BothPositive(close, t) && IsLogRatio(rs[k], close[t], close[t - 1], ln);
      PositiveRatio(close[t], close[t - 1], ln);
      assert xs[k] == SquaredAt(close, ln, t);
    }
  }
}
