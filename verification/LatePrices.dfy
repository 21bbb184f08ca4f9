/**
  What a price that arrives late, between older ones, does to a label: exactly
  which labels change.
*/
module LatePrices {
  import opened Reals
  import opened Features
  import opened Labels

  function InsertClose(close: seq<real>, k: nat, x: real): (c: seq<real>)
    requires k <= |close|
    ensures |c| == |close| + 1
  {
    close[..k] + [x] + close[k..]
  }

  /** A price inserted at or before the labelled one changes nothing. */
  lemma InsertedBefore(close: seq<real>, k: nat, x: real, window: nat, ln: real -> real, sqrt: real -> real, i: nat)
    requires k <= i < |close|
    ensures LabelAt(InsertClose(close, k, x), window, ln, sqrt, i + 1) == LabelAt(close, window, ln, sqrt, i)
  {
    hide LabelAt;
    var c := InsertClose(close, k, x);
    assert c[k + 1..] == close[k..];
    LabelOfSuffix(c, k + 1, window, ln, sqrt, i - k);
    LabelOfSuffix(close, k, window, ln, sqrt, i - k);
  }

  /** A price inserted beyond the window changes nothing. */
  lemma InsertedAfter(close: seq<real>, k: nat, x: real, window: nat, ln: real -> real, sqrt: real -> real, i: nat)
    requires i + window < k <= |close|
    ensures LabelAt(InsertClose(close, k, x), window, ln, sqrt, i) == LabelAt(close, window, ln, sqrt, i)
  {
    hide LabelAt;
    LabelOfExtension(close[..k], close[k..], window, ln, sqrt, i);
    LabelOfExtension(close[..k], [x] + close[k..], window, ln, sqrt, i);
    assert close[..k] + close[k..] == close;
    assert close[..k] + ([x] + close[k..]) == InsertClose(close, k, x);
  }

  // ---------------------------------------------------------------- inside the window

  lemma AddAssoc(x: Cell, y: Cell, z: Cell)
    ensures Add(Add(x, y), z) == Add(x, Add(y, z))
  {
  }

  lemma AddComm(x: Cell, y: Cell)
    ensures Add(x, y) == Add(y, x)
  {
  }

  lemma AddZero(x: Cell)
    ensures Add(Finite(0.0), x) == x == Add(x, Finite(0.0))
  {
  }

  lemma {:induction false} SumCellsAppend(xs: Column, ys: Column)
    ensures SumCells(xs + ys) == Add(SumCells(xs), SumCells(ys))
  {
    hide Add;
    if |xs| == 0 {
      AddZero(SumCells(ys));
      assert xs + ys == ys;
    } else {
      SumCellsAppend(xs[1..], ys);
      assert (xs + ys)[0] == xs[0] && (xs + ys)[1..] == xs[1..] + ys;
      AddAssoc(xs[0], SumCells(xs[1..]), SumCells(ys));
    }
  }

  lemma SumCellsOne(x: Cell)
    ensures SumCells([x]) == x
  {
    AddZero(x);
    assert [x][1..] == [];
  }

  lemma SumCellsTwo(x: Cell, y: Cell)
    ensures SumCells([x, y]) == Add(x, y)
  {
    SumCellsOne(y);
    assert [x, y][1..] == [y];
  }

  function SquaredLog(a: real, b: real, ln: real -> real): Cell {
    Square(LogOfRatio(a, b, ln))
  }

  /** The squared returns in the window of i that an insertion at k leaves alone. */
  function Kept(close: seq<real>, k: nat, window: nat, ln: real -> real, i: nat): Column
    requires i < k <= i + window < |close|
  {
    var s := Squared(close, ln);
    s[i + 1..k] + if k < i + window then s[k + 1..i + window] else []
  }

  /** What leaves the window: the return split at k and, if that is not the last one, the last one. */
  function Lost(close: seq<real>, k: nat, window: nat, ln: real -> real, i: nat): Cell
    requires i < k <= i + window < |close|
  {
    var split := SquaredLog(close[k], close[k - 1], ln);
    if k < i + window then Add(split, SquaredLog(close[i + window], close[i + window - 1], ln)) else split
  }

  /** What enters it: the return to the new price and, unless it is the last in the window, the one from it. */
  function Gained(close: seq<real>, k: nat, x: real, window: nat, ln: real -> real, i: nat): Cell
    requires i < k <= i + window < |close|
  {
    var to := SquaredLog(x, close[k - 1], ln);
    if k < i + window then Add(to, SquaredLog(close[k], x, ln)) else to
  }

  lemma OldWindow(close: seq<real>, k: nat, window: nat, ln: real -> real, i: nat)
    requires i < k <= i + window < |close|
    ensures ForwardSum(close, window, ln, i) == Add(SumCells(Kept(close, k, window, ln, i)), Lost(close, k, window, ln, i))
  {
    var s := Squared(close, ln);
    hide SquaredLog, SumCells, Add;
    if k == i + window {
      assert s[i + 1..i + 1 + window] == s[i + 1..k] + [s[k]];
      assert s[i + 1..k] + [] == s[i + 1..k];
      SumCellsAppend(s[i + 1..k], [s[k]]);
      SumCellsOne(s[k]);
      assert s[k] == SquaredLog(close[k], close[k - 1], ln) by { SquaredAtIs(close, ln, k); }
    } else {
      var a, b, x, y := s[i + 1..k], s[k + 1..i + window], s[k], s[i + window];
      assert s[i + 1..i + 1 + window] == a + [x] + b + [y];
      Rearranged(a, b, x, y);
      SquaredAtIs(close, ln, k);
      SquaredAtIs(close, ln, i + window);
    }
  }

  lemma SquaredAtIs(close: seq<real>, ln: real -> real, t: nat)
    requires 0 < t < |close|
    ensures Squared(close, ln)[t] == SquaredLog(close[t], close[t - 1], ln)
  {
  }

  lemma Rearranged(a: Column, b: Column, x: Cell, y: Cell)
    ensures SumCells(a + [x] + b + [y]) == Add(SumCells(a + b), Add(x, y))
  {
    hide SumCells, Add;
    SumCellsAppend(a + [x] + b, [y]);
    SumCellsAppend(a + [x], b);
    SumCellsAppend(a, [x]);
    SumCellsAppend(a, b);
    SumCellsOne(x);
    SumCellsOne(y);
    var p, q := SumCells(a), SumCells(b);
    AddAssoc(p, x, q);
    AddComm(x, q);
    AddAssoc(p, q, x);
    AddAssoc(Add(p, q), x, y);
  }

  lemma NewWindow(close: seq<real>, k: nat, x: real, window: nat, ln: real -> real, i: nat)
    requires i < k <= i + window < |close|
    ensures ForwardSum(InsertClose(close, k, x), window, ln, i)
         == Add(SumCells(Kept(close, k, window, ln, i)), Gained(close, k, x, window, ln, i))
  {
    var c := InsertClose(close, k, x);
    var s, s' := Squared(close, ln), Squared(c, ln);
    hide SumCells, Add;
    ShiftedSquares(close, k, x, ln);
    hide SquaredLog, Squared, InsertClose;
    if k == i + window {
      assert s'[i + 1..i + 1 + window] == s[i + 1..k] + [s'[k]];
      assert s[i + 1..k] + [] == s[i + 1..k];
      SumCellsAppend(s[i + 1..k], [s'[k]]);
      SumCellsOne(s'[k]);
    } else {
      var a, b := s[i + 1..k], s[k + 1..i + window];
      assert s'[i + 1..i + 1 + window] == a + [s'[k], s'[k + 1]] + b;
      SplitInserted(a, b, s'[k], s'[k + 1]);
    }
  }

  lemma SplitInserted(a: Column, b: Column, x: Cell, y: Cell)
    ensures SumCells(a + [x, y] + b) == Add(SumCells(a + b), Add(x, y))
  {
    hide SumCells, Add;
    SumCellsAppend(a + [x, y], b);
    SumCellsAppend(a, [x, y]);
    SumCellsAppend(a, b);
    SumCellsTwo(x, y);
    var p, q, xy := SumCells(a), SumCells(b), Add(x, y);
    AddAssoc(p, xy, q);
    AddComm(xy, q);
    AddAssoc(p, q, xy);
  }

  lemma ShiftedSquares(close: seq<real>, k: nat, x: real, ln: real -> real)
    requires 0 < k < |close|
    ensures var s, s' := Squared(close, ln), Squared(InsertClose(close, k, x), ln);
      && (forall t :: 0 <= t < k ==> s'[t] == s[t])
      && s'[k] == SquaredLog(x, close[k - 1], ln) && s'[k + 1] == SquaredLog(close[k], x, ln)
      && (forall t :: k + 1 < t < |s'| ==> s'[t] == s[t - 1])
  {
    hide LogOfRatio, Square;
  }

  /**
    The label at i does not notice the price inserted in its window: what enters
    the sum of squares is what leaves it - or, if the rest of the sum is
    infinite anyway, what enters is not NaN.
  */
  predicate SameSquares(close: seq<real>, k: nat, x: real, window: nat, ln: real -> real, i: nat)
    requires i < k <= i + window < |close|
  {
    if SumCells(Kept(close, k, window, ln, i)).Infinite? then !Gained(close, k, x, window, ln, i).Undefined?
    else Gained(close, k, x, window, ln, i) == Lost(close, k, window, ln, i)
  }

  lemma RootsAgree(kept: Cell, lost: Cell, gained: Cell, sqrt: real -> real)
    requires IsSqrt(sqrt) && IsSquareCell(Add(kept, lost)) && IsSquareCell(Add(kept, gained))
    requires !Add(kept, lost).Undefined?
    requires IsSquareCell(gained) && IsSquareCell(lost) && IsSquareCell(kept)
    ensures Root(Add(kept, gained), sqrt) == Root(Add(kept, lost), sqrt) <==>
      if kept.Infinite? then !gained.Undefined? else gained == lost
  {
    if Add(kept, gained).Finite? && Add(kept, lost).Finite? {
      RootInjective(sqrt, Add(kept, gained).value, Add(kept, lost).value);
    }
  }

  lemma RootInjective(sqrt: real -> real, a: real, b: real)
    requires IsSqrt(sqrt) && a >= 0.0 && b >= 0.0
    ensures sqrt(a) == sqrt(b) <==> a == b
  {
    assert sqrt(a) * sqrt(a) == a && sqrt(b) * sqrt(b) == b;
  }

  lemma AddSquares(x: Cell, y: Cell)
    requires IsSquareCell(x) && IsSquareCell(y)
    ensures IsSquareCell(Add(x, y))
  {
  }

  lemma {:induction false} SumSquares(xs: Column)
    requires forall t :: 0 <= t < |xs| ==> IsSquareCell(xs[t])
    ensures IsSquareCell(SumCells(xs))
  {
    SumOfSquareCells(xs);
  }

  lemma ExchangeIsSquare(close: seq<real>, k: nat, x: real, window: nat, ln: real -> real, i: nat)
    requires i < k <= i + window < |close|
    ensures IsSquareCell(SumCells(Kept(close, k, window, ln, i)))
    ensures IsSquareCell(Lost(close, k, window, ln, i)) && IsSquareCell(Gained(close, k, x, window, ln, i))
  {
    SquaredIsSquare(close, ln);
    hide IsSquareCell, LogOfRatio, Square, Add, SumCells;
    SumSquares(Kept(close, k, window, ln, i));
    var split, last := SquaredLog(close[k], close[k - 1], ln), SquaredLog(close[i + window], close[i + window - 1], ln);
    var to, back := SquaredLog(x, close[k - 1], ln), SquaredLog(close[k], x, ln);
    SquareIsSquare(LogOfRatio(close[k], close[k - 1], ln));
    SquareIsSquare(LogOfRatio(close[i + window], close[i + window - 1], ln));
    SquareIsSquare(LogOfRatio(x, close[k - 1], ln));
    SquareIsSquare(LogOfRatio(close[k], x, ln));
    AddSquares(split, last);
    AddSquares(to, back);
  }

  /** A price inserted inside the window of a defined label leaves it unchanged if and only if the squares agree. */
  lemma InsertedInsideExactlyWhen(close: seq<real>, k: nat, x: real, window: nat, ln: real -> real,
                                  sqrt: real -> real, i: nat)
    requires i < k <= i + window < |close| && IsSqrt(sqrt) && !LabelAt(close, window, ln, sqrt, i).Undefined?
    ensures LabelAt(InsertClose(close, k, x), window, ln, sqrt, i) == LabelAt(close, window, ln, sqrt, i)
       <==> SameSquares(close, k, x, window, ln, i)
  {
    hide Kept, Lost, Gained, IsSquareCell, Add, SumCells, ForwardSum, LabelAt, IsSqrt;
    LabelIsRoot(close, window, ln, sqrt, i);
    LabelIsRoot(InsertClose(close, k, x), window, ln, sqrt, i);
    OldWindow(close, k, window, ln, i);
    NewWindow(close, k, x, window, ln, i);
    ExchangeIsSquare(close, k, x, window, ln, i);
    RootsAgree(SumCells(Kept(close, k, window, ln, i)), Lost(close, k, window, ln, i),
               Gained(close, k, x, window, ln, i), sqrt);
  }
}
