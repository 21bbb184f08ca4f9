/**
  The shrunk sample covariance of a price panel with gaps, and why it is
  positive definite: gaps become zero returns before the covariance is taken,
  so it is a Gram matrix of centred rows plus a ridge.
*/
module Covariance {
  import opened Reals
  import opened Statistics

  type Matrix = seq<seq<real>>

  /** The least ridge on an estimated covariance, and the one without enough returns. */
  const MIN_RIDGE: real := 0.000000000001
  const SHORT_RIDGE: real := 0.000001

  /** One row per time in time order, one optional price per symbol. */
  type Panel = seq<seq<Option<real>>>

  ghost predicate IsPanel(panel: Panel, n: nat) {
    forall t :: 0 <= t < |panel| ==> |panel[t]| == n
  }

  ghost predicate HasRows(rows: Matrix, n: nat) {
    forall t :: 0 <= t < |rows| ==> |rows[t]| == n
  }

  // ---------------------------------------------------------------- the return matrix

  /** The log return of two consecutive prices; undefined or infinite values are dropped. */
  function LogReturn(prev: Option<real>, cur: Option<real>, ln: real -> real): Option<real> {
    if prev.Some? && cur.Some? && prev.value != 0.0 && cur.value / prev.value > 0.0
    then Some(ln(cur.value / prev.value)) else None
  }

  function ReturnRow(prev: seq<Option<real>>, cur: seq<Option<real>>, ln: real -> real): (r: seq<Option<real>>)
    requires |prev| == |cur|
    ensures |r| == |cur|
  {
    seq(|cur|, i requires 0 <= i < |cur| => LogReturn(prev[i], cur[i], ln))
  }

  predicate AllMissing(row: seq<Option<real>>) {
    forall i :: 0 <= i < |row| ==> row[i].None?
  }

  /** Shifted log returns without the rows that hold no return at all. */
  function ReturnMatrix(panel: Panel, n: nat, ln: real -> real): (r: Panel)
    requires IsPanel(panel, n)
    ensures IsPanel(r, n)
  {
    if |panel| < 2 then [] else
      var row := ReturnRow(panel[0], panel[1], ln);
      var rest := ReturnMatrix(panel[1..], n, ln);
      if AllMissing(row) then rest else [row] + rest
  }

  function FillRow(row: seq<Option<real>>): (r: seq<real>)
    ensures |r| == |row|
  {
    seq(|row|, i requires 0 <= i < |row| => if row[i].Some? then row[i].value else 0.0)
  }

  function Fill(rets: Panel, n: nat): (r: Matrix)
    requires IsPanel(rets, n)
    ensures |r| == |rets| && HasRows(r, n)
  {
    seq(|rets|, t requires 0 <= t < |rets| => FillRow(rets[t]))
  }

  /** A symbol keeps its column only if it has some return. */
  predicate HasColumn(rets: Panel, i: nat) {
    exists t :: 0 <= t < |rets| && i < |rets[t]| && rets[t][i].Some?
  }

  // ---------------------------------------------------------------- sample covariance

  function Column(rows: Matrix, i: nat): (c: seq<real>)
    requires forall t :: 0 <= t < |rows| ==> i < |rows[t]|
    ensures |c| == |rows|
  {
    seq(|rows|, t requires 0 <= t < |rows| => rows[t][i])
  }

  function CenterRow(row: seq<real>, means: seq<real>): (r: seq<real>)
    requires |row| == |means|
    ensures |r| == |row|
  {
    seq(|row|, i requires 0 <= i < |row| => row[i] - means[i])
  }

  function Means(rows: Matrix, n: nat): (m: seq<real>)
    requires |rows| > 0 && HasRows(rows, n)
    ensures |m| == n
  {
    seq(n, i requires 0 <= i < n => Mean(Column(rows, i)))
  }

  function Center(rows: Matrix, n: nat): (d: Matrix)
    requires |rows| > 0 && HasRows(rows, n)
    ensures |d| == |rows| && HasRows(d, n)
  {
    seq(|rows|, t requires 0 <= t < |rows| => CenterRow(rows[t], Means(rows, n)))
  }

  /** The sum over the rows of d[i] * d[j]. */
  function Gram(d: Matrix, i: nat, j: nat): real
    requires forall t :: 0 <= t < |d| ==> i < |d[t]| && j < |d[t]|
  {
    if |d| == 0 then 0.0 else d[0][i] * d[0][j] + Gram(d[1..], i, j)
  }

  /** The unbiased sample covariance of columns i and j. */
  function SampleCov(rows: Matrix, n: nat, i: nat, j: nat): real
    requires |rows| >= 2 && HasRows(rows, n) && i < n && j < n
  {
    Gram(Center(rows, n), i, j) / (|rows| - 1) as real
  }

  /** A symbol whose column was dropped has covariance 0 with every symbol. */
  function CovEntry(rets: Panel, n: nat, i: nat, j: nat): real
    requires |rets| >= 2 && IsPanel(rets, n) && i < n && j < n
  {
    if HasColumn(rets, i) && HasColumn(rets, j) then SampleCov(Fill(rets, n), n, i, j) else 0.0
  }

  function Diagonal(i: nat, j: nat, x: real): real {
    if i == j then x else 0.0
  }

  function EstimatedEntry(panel: Panel, n: nat, shrinkage: real, ln: real -> real, i: nat, j: nat): real
    requires IsPanel(panel, n) && i < n && j < n
  {
    var rets := ReturnMatrix(panel, n, ln);
    if |rets| < 2 then Diagonal(i, j, Max(shrinkage, SHORT_RIDGE))
    else CovEntry(rets, n, i, j) + Diagonal(i, j, Max(shrinkage, MIN_RIDGE))
  }

  function Estimate(panel: Panel, n: nat, shrinkage: real, ln: real -> real): (c: Matrix)
    requires IsPanel(panel, n)
    ensures |c| == n && HasRows(c, n)
  {
    seq(n, i requires 0 <= i < n => seq(n, j requires 0 <= j < n => EstimatedEntry(panel, n, shrinkage, ln, i, j)))
  }

  /** The nested loops of the code over a preallocated matrix. */
  method EstimateCovariance(panel: Panel, n: nat, shrinkage: real, ln: real -> real) returns (cov: array2<real>)
    requires IsPanel(panel, n)
    ensures fresh(cov) && cov.Length0 == n && cov.Length1 == n
    ensures forall i, j :: 0 <= i < n && 0 <= j < n ==> cov[i, j] == Estimate(panel, n, shrinkage, ln)[i][j]
  {
    var rets := ReturnMatrix(panel, n, ln);
    cov := new real[n, n];
    if |rets| < 2 {
      forall i, j | 0 <= i < n && 0 <= j < n {
        cov[i, j] := Diagonal(i, j, Max(shrinkage, SHORT_RIDGE));
      }
      return;
    }
    for i := 0 to n
      invariant forall a, b :: 0 <= a < i && 0 <= b < n ==> cov[a, b] == CovEntry(rets, n, a, b)
    {
      for j := 0 to n
        invariant forall a, b :: 0 <= a < i && 0 <= b < n ==> cov[a, b] == CovEntry(rets, n, a, b)
        invariant forall b :: 0 <= b < j ==> cov[i, b] == CovEntry(rets, n, i, b)
      {
        cov[i, j] := CovEntry(rets, n, i, j);
      }
    }
    forall i, j | 0 <= i < n && 0 <= j < n {
      cov[i, j] := cov[i, j] + Diagonal(i, j, Max(shrinkage, MIN_RIDGE));
    }
  }

  // ---------------------------------------------------------------- quadratic forms

  ghost predicate IsSquare(c: Matrix, n: nat) {
    |c| == n && HasRows(c, n)
  }

  /** The matrix-vector product. */
  function MatVec(c: Matrix, w: seq<real>): (r: seq<real>)
    requires IsSquare(c, |w|)
    ensures |r| == |w|
  {
    seq(|w|, i requires 0 <= i < |w| => Dot(c[i], w))
  }

  /** w' C w, the variance of the weights w. */
  function Quad(c: Matrix, w: seq<real>): real
    requires IsSquare(c, |w|)
  {
    Dot(w, MatVec(c, w))
  }

  /** w' C w >= floor * |w|^2 for every w. */
  ghost predicate PositiveDefinite(c: Matrix, n: nat, floor: real)
    requires IsSquare(c, n)
  {
    forall w: seq<real> :: |w| == n ==> Quad(c, w) >= floor * Dot(w, w)
  }

  function GramRow(d: Matrix, n: nat, i: nat): (r: seq<real>)
    requires HasRows(d, n) && i < n
    ensures |r| == n
  {
    seq(n, j requires 0 <= j < n => Gram(d, i, j))
  }

  /** The Gram matrix times w, row by row of d: the sum of (d[t] . w) d[t]. */
  function GramTimes(d: Matrix, w: seq<real>): (r: seq<real>)
    requires HasRows(d, |w|)
    ensures |r| == |w|
  {
    if |d| == 0 then Const(|w|, 0.0) else Axpy(GramTimes(d[1..], w), Dot(d[0], w), d[0])
  }

  /** The sum over the rows of d of (d[t] . w)^2. */
  function Scatter(d: Matrix, w: seq<real>): real
    requires HasRows(d, |w|)
  {
    if |d| == 0 then 0.0 else Dot(d[0], w) * Dot(d[0], w) + Scatter(d[1..], w)
  }

  lemma {:induction false} ScatterNonNegative(d: Matrix, w: seq<real>)
    requires HasRows(d, |w|)
    ensures Scatter(d, w) >= 0.0
  {
    if |d| != 0 {
      ScatterNonNegative(d[1..], w);
      SquareNonNegative(Dot(d[0], w));
    }
  }

  lemma {:induction false} DotZero(w: seq<real>)
    ensures Dot(Const(|w|, 0.0), w) == 0.0
    ensures Dot(w, Const(|w|, 0.0)) == 0.0
  {
    if |w| != 0 {
      assert Const(|w|, 0.0)[1..] == Const(|w| - 1, 0.0);
      DotZero(w[1..]);
    }
  }

  lemma {:induction false} GramRowDot(d: Matrix, w: seq<real>, i: nat)
    requires HasRows(d, |w|) && i < |w|
    ensures Dot(GramRow(d, |w|, i), w) == GramTimes(d, w)[i]
  {
    var n := |w|;
    if |d| == 0 {
      assert GramRow(d, n, i) == Const(n, 0.0);
      DotZero(w);
    } else {
      GramRowDot(d[1..], w, i);
      GramRowDotStep(d, w, i, Dot(d[0], w), GramTimes(d[1..], w));
    }
  }

  lemma GramRowDotStep(d: Matrix, w: seq<real>, i: nat, x: real, g: seq<real>)
    requires |d| > 0 && HasRows(d, |w|) && i < |w| && |g| == |w| && x == Dot(d[0], w)
    requires Dot(GramRow(d[1..], |w|, i), w) == g[i]
    ensures Dot(GramRow(d, |w|, i), w) == Axpy(g, x, d[0])[i]
  {
    hide Dot, Axpy, GramRow;
    GramRowStep(d, |w|, i);
    DotAxpy(GramRow(d[1..], |w|, i), d[0][i], d[0], w);
    AxpyAt(g, x, d[0], i);
  }

  lemma GramRowStep(d: Matrix, n: nat, i: nat)
    requires |d| > 0 && HasRows(d, n) && i < n
    ensures GramRow(d, n, i) == Axpy(GramRow(d[1..], n, i), d[0][i], d[0])
  {
    hide Axpy;
    forall j | 0 <= j < n
      ensures GramRow(d, n, i)[j] == Axpy(GramRow(d[1..], n, i), d[0][i], d[0])[j]
    {
      AxpyAt(GramRow(d[1..], n, i), d[0][i], d[0], j);
    }
  }

  lemma {:induction false} GramIsScatter(d: Matrix, w: seq<real>)
    requires HasRows(d, |w|)
    ensures Dot(GramTimes(d, w), w) == Scatter(d, w)
  {
    hide Dot;
    if |d| == 0 {
      DotZero(w);
    } else {
      GramIsScatter(d[1..], w);
      DotAxpy(GramTimes(d[1..], w), Dot(d[0], w), d[0], w);
    }
  }

  function Unit(n: nat, i: nat): (e: seq<real>)
    ensures |e| == n
  {
    seq(n, j requires 0 <= j < n => Diagonal(i, j, 1.0))
  }

  lemma {:induction false} DotUnit(w: seq<real>, i: nat)
    requires i < |w|
    ensures Dot(Unit(|w|, i), w) == w[i]
  {
    var e := Unit(|w|, i);
    if i == 0 {
      assert e[1..] == Const(|w| - 1, 0.0);
      DotZero(w[1..]);
    } else {
      assert e[1..] == Unit(|w| - 1, i - 1);
      DotUnit(w[1..], i - 1);
    }
  }

  /** C == k * (Gram matrix of d) + ridge * I. */
  ghost predicate IsRidgedGram(c: Matrix, n: nat, d: Matrix, k: real, ridge: real)
    requires IsSquare(c, n) && HasRows(d, n)
  {
    forall i :: 0 <= i < n ==> c[i] == Axpy(Scale(k, GramRow(d, n, i)), ridge, Unit(n, i))
  }

  lemma RidgedRowDot(c: Matrix, d: Matrix, k: real, ridge: real, w: seq<real>, g: seq<real>, i: nat)
    requires IsSquare(c, |w|) && HasRows(d, |w|) && IsRidgedGram(c, |w|, d, k, ridge) && i < |w|
    requires g == GramTimes(d, w)
    ensures Dot(c[i], w) == k * g[i] + ridge * w[i]
  {
    hide *;
    RidgedRowIs(c, |w|, d, k, ridge, i);
    GramRowDotIs(d, w, g, i);
    DotUnit(w, i);
    RidgedDotValues(GramRow(d, |w|, i), k, Unit(|w|, i), ridge, w, g[i], w[i]);
  }

  lemma RidgedRowIs(c: Matrix, n: nat, d: Matrix, k: real, ridge: real, i: nat)
    requires IsSquare(c, n) && HasRows(d, n) && IsRidgedGram(c, n, d, k, ridge) && i < n
    ensures c[i] == Axpy(Scale(k, GramRow(d, n, i)), ridge, Unit(n, i))
  {
  }

  lemma GramRowDotIs(d: Matrix, w: seq<real>, g: seq<real>, i: nat)
    requires HasRows(d, |w|) && i < |w| && g == GramTimes(d, w)
    ensures Dot(GramRow(d, |w|, i), w) == g[i]
  {
    GramRowDot(d, w, i);
  }

  lemma RidgedDotValues(g: seq<real>, k: real, e: seq<real>, ridge: real, w: seq<real>, x: real, y: real)
    requires |g| == |e| == |w| && Dot(g, w) == x && Dot(e, w) == y
    ensures Dot(Axpy(Scale(k, g), ridge, e), w) == k * x + ridge * y
  {
    RidgedDot(g, k, e, ridge, w);
  }

  lemma RidgedDot(g: seq<real>, k: real, e: seq<real>, ridge: real, w: seq<real>)
    requires |g| == |e| == |w|
    ensures Dot(Axpy(Scale(k, g), ridge, e), w) == k * Dot(g, w) + ridge * Dot(e, w)
  {
    hide Dot, Axpy, Scale;
    DotAxpy(Scale(k, g), ridge, e, w);
    DotScale(k, g, w);
  }

  lemma RidgedEntry(c: Matrix, d: Matrix, k: real, ridge: real, w: seq<real>, g: seq<real>, i: nat)
    requires IsSquare(c, |w|) && HasRows(d, |w|) && IsRidgedGram(c, |w|, d, k, ridge) && i < |w|
    requires g == GramTimes(d, w)
    ensures Dot(c[i], w) == Axpy(Scale(k, g), ridge, w)[i]
  {
    hide *;
    RidgedRowDot(c, d, k, ridge, w, g, i);
    ScaleAxpyAt(k, g, ridge, w, i);
  }

  lemma ScaleAxpyAt(k: real, g: seq<real>, ridge: real, w: seq<real>, i: nat)
    requires |g| == |w| && i < |w|
    ensures Axpy(Scale(k, g), ridge, w)[i] == k * g[i] + ridge * w[i]
  {
    hide *;
    ScaleAt(k, g, i);
    AxpyAt(Scale(k, g), ridge, w, i);
  }

  lemma RidgedMatVec(c: Matrix, d: Matrix, k: real, ridge: real, w: seq<real>)
    requires IsSquare(c, |w|) && HasRows(d, |w|) && IsRidgedGram(c, |w|, d, k, ridge)
    ensures MatVec(c, w) == Axpy(Scale(k, GramTimes(d, w)), ridge, w)
  {
    hide Dot, Axpy, Scale, GramTimes, GramRow, IsRidgedGram;
    var g := GramTimes(d, w);
    forall i | 0 <= i < |w| ensures MatVec(c, w)[i] == Axpy(Scale(k, g), ridge, w)[i] {
      RidgedEntry(c, d, k, ridge, w, g, i);
    }
  }

  lemma RidgedGramQuad(c: Matrix, d: Matrix, k: real, ridge: real, w: seq<real>)
    requires IsSquare(c, |w|) && HasRows(d, |w|) && IsRidgedGram(c, |w|, d, k, ridge)
    ensures Quad(c, w) == k * Scatter(d, w) + ridge * Dot(w, w)
  {
    hide Dot, Axpy, Scale, GramTimes, MatVec, GramRow;
    var g := GramTimes(d, w);
    RidgedMatVec(c, d, k, ridge, w);
    DotComm(w, MatVec(c, w));
    RidgedDot(g, k, w, ridge, w);
    GramIsScatter(d, w);
  }

  lemma RidgedGramPositive(c: Matrix, n: nat, d: Matrix, k: real, ridge: real, floor: real)
    requires IsSquare(c, n) && HasRows(d, n) && IsRidgedGram(c, n, d, k, ridge)
    requires k >= 0.0 && ridge >= floor
    ensures PositiveDefinite(c, n, floor)
  {
    forall w: seq<real> | |w| == n ensures Quad(c, w) >= floor * Dot(w, w) {
      hide Dot, Quad, IsRidgedGram;
      RidgedGramAtLeast(c, d, k, ridge, floor, w);
    }
  }

  lemma RidgedGramAtLeast(c: Matrix, d: Matrix, k: real, ridge: real, floor: real, w: seq<real>)
    requires IsSquare(c, |w|) && HasRows(d, |w|) && IsRidgedGram(c, |w|, d, k, ridge)
    requires k >= 0.0 && ridge >= floor
    ensures Quad(c, w) >= floor * Dot(w, w)
  {
    hide *;
    RidgedGramQuad(c, d, k, ridge, w);
    ScatterNonNegative(d, w);
    DotSelfNonNegative(w);
    RidgeAtLeast(k, Scatter(d, w), ridge, floor, Dot(w, w));
  }

  lemma RidgeAtLeast(k: real, s: real, ridge: real, floor: real, q: real)
    requires k >= 0.0 && s >= 0.0 && ridge >= floor && q >= 0.0
    ensures k * s + ridge * q >= floor * q
  {
    ProductNonNegative(k, s);
    ProductNonNegative(ridge - floor, q);
    assert (ridge - floor) * q == ridge * q - floor * q;
  }

  // ---------------------------------------------------------------- the estimate

  lemma {:induction false} ZeroColumnGram(d: Matrix, n: nat, i: nat, j: nat)
    requires HasRows(d, n) && i < n && j < n
    requires forall t :: 0 <= t < |d| ==> d[t][i] == 0.0 || d[t][j] == 0.0
    ensures Gram(d, i, j) == 0.0
  {
    if |d| != 0 {
      ZeroColumnGram(d[1..], n, i, j);
    }
  }

  lemma {:induction false} SumOfZeros(xs: seq<real>)
    requires forall t :: 0 <= t < |xs| ==> xs[t] == 0.0
    ensures Sum(xs) == 0.0
  {
    if |xs| != 0 {
      SumOfZeros(xs[1..]);
    }
  }

  /** Dropping a column with no return loses nothing: its filled column is constantly 0. */
  lemma MissingColumnIsZero(rets: Panel, n: nat, i: nat)
    requires |rets| >= 2 && IsPanel(rets, n) && i < n && !HasColumn(rets, i)
    ensures var d := Center(Fill(rets, n), n); forall t :: 0 <= t < |d| ==> d[t][i] == 0.0
  {
    var rows := Fill(rets, n);
    forall t | 0 <= t < |rows| ensures rows[t][i] == 0.0 {
      assert rets[t][i].None?;
    }
    SumOfZeros(Column(rows, i));
    assert Mean(Column(rows, i)) == 0.0;
    assert Means(rows, n)[i] == 0.0;
  }

  lemma CovEntryIsGram(rets: Panel, n: nat, i: nat, j: nat)
    requires |rets| >= 2 && IsPanel(rets, n) && i < n && j < n
    ensures CovEntry(rets, n, i, j) == SampleCov(Fill(rets, n), n, i, j)
  {
    if !HasColumn(rets, i) {
      MissingColumnIsZero(rets, n, i);
      ZeroColumnGram(Center(Fill(rets, n), n), n, i, j);
    } else if !HasColumn(rets, j) {
      MissingColumnIsZero(rets, n, j);
      ZeroColumnGram(Center(Fill(rets, n), n), n, i, j);
    }
  }

  lemma EstimateIsRidgedGram(panel: Panel, n: nat, shrinkage: real, ln: real -> real)
    requires IsPanel(panel, n) && |ReturnMatrix(panel, n, ln)| >= 2
    ensures var rows := Fill(ReturnMatrix(panel, n, ln), n);
      IsRidgedGram(Estimate(panel, n, shrinkage, ln), n, Center(rows, n),
                   1.0 / (|rows| - 1) as real, Max(shrinkage, MIN_RIDGE))
  {
    hide *;
    var rows := Fill(ReturnMatrix(panel, n, ln), n);
    EstimateIsRidged(panel, n, shrinkage, ln, Center(rows, n), 1.0 / (|rows| - 1) as real, Max(shrinkage, MIN_RIDGE));
  }

  lemma EstimateIsRidged(panel: Panel, n: nat, shrinkage: real, ln: real -> real, d: Matrix, k: real, ridge: real)
    requires IsPanel(panel, n) && |ReturnMatrix(panel, n, ln)| >= 2
    requires d == Center(Fill(ReturnMatrix(panel, n, ln), n), n)
    requires k == 1.0 / (|ReturnMatrix(panel, n, ln)| - 1) as real && ridge == Max(shrinkage, MIN_RIDGE)
    ensures IsRidgedGram(Estimate(panel, n, shrinkage, ln), n, d, k, ridge)
  {
    hide Estimate, ReturnMatrix, Fill, Center, Max, GramRow, Scale, Axpy, Unit;
    var c := Estimate(panel, n, shrinkage, ln);
    forall i | 0 <= i < n
      ensures c[i] == Axpy(Scale(k, GramRow(d, n, i)), ridge, Unit(n, i))
    {
      EstimateRow(panel, n, shrinkage, ln, i);
    }
  }

  lemma EstimateRow(panel: Panel, n: nat, shrinkage: real, ln: real -> real, i: nat)
    requires IsPanel(panel, n) && |ReturnMatrix(panel, n, ln)| >= 2 && i < n
    ensures var rows := Fill(ReturnMatrix(panel, n, ln), n);
      Estimate(panel, n, shrinkage, ln)[i] ==
      Axpy(Scale(1.0 / (|rows| - 1) as real, GramRow(Center(rows, n), n, i)), Max(shrinkage, MIN_RIDGE), Unit(n, i))
  {
    hide *;
    assert |Estimate(panel, n, shrinkage, ln)[i]| == n by {
      EstimateAt(panel, n, shrinkage, ln, i, i);
    }
    var rows := Fill(ReturnMatrix(panel, n, ln), n);
    var k, ridge, g := 1.0 / (|rows| - 1) as real, Max(shrinkage, MIN_RIDGE), GramRow(Center(rows, n), n, i);
    forall j | 0 <= j < n
      ensures Estimate(panel, n, shrinkage, ln)[i][j] == k * g[j] + Diagonal(i, j, ridge)
    {
      EstimateAt(panel, n, shrinkage, ln, i, j);
      CovEntryIsScaledGram(ReturnMatrix(panel, n, ln), n, i, j);
    }
    RidgedEntries(Estimate(panel, n, shrinkage, ln)[i], k, g, ridge, i);
  }

  lemma EstimateAt(panel: Panel, n: nat, shrinkage: real, ln: real -> real, i: nat, j: nat)
    requires IsPanel(panel, n) && |ReturnMatrix(panel, n, ln)| >= 2 && i < n && j < n
    ensures |Estimate(panel, n, shrinkage, ln)[i]| == n
    ensures Estimate(panel, n, shrinkage, ln)[i][j] ==
      CovEntry(ReturnMatrix(panel, n, ln), n, i, j) + Diagonal(i, j, Max(shrinkage, MIN_RIDGE))
  {
    hide CovEntry, ReturnMatrix, Diagonal, Max;
  }

  lemma CovEntryIsScaledGram(rets: Panel, n: nat, i: nat, j: nat)
    requires |rets| >= 2 && IsPanel(rets, n) && i < n && j < n
    ensures var rows := Fill(rets, n);
      CovEntry(rets, n, i, j) == (1.0 / (|rows| - 1) as real) * GramRow(Center(rows, n), n, i)[j]
  {
    hide Gram, Center, CovEntry, Fill;
    CovEntryIsGram(rets, n, i, j);
    DivideAsScale(Gram(Center(Fill(rets, n), n), i, j), (|rets| - 1) as real);
  }

  lemma DivideAsScale(x: real, t: real)
    requires t > 0.0
    ensures x / t == (1.0 / t) * x
  {
    Reciprocal(t);
    assert (1.0 / t) * t * x == x;
  }

  lemma RidgedEntries(row: seq<real>, k: real, g: seq<real>, ridge: real, i: nat)
    requires |row| == |g|
    requires forall j :: 0 <= j < |row| ==> row[j] == k * g[j] + Diagonal(i, j, ridge)
    ensures row == Axpy(Scale(k, g), ridge, Unit(|g|, i))
  {
    forall j | 0 <= j < |row| ensures row[j] == Axpy(Scale(k, g), ridge, Unit(|g|, i))[j] {
      ScaleAt(k, g, j);
      AxpyAt(Scale(k, g), ridge, Unit(|g|, i), j);
    }
  }

  lemma RidgeOnlyIsRidgedGram(panel: Panel, n: nat, shrinkage: real, ln: real -> real)
    requires IsPanel(panel, n) && |ReturnMatrix(panel, n, ln)| < 2
    ensures IsRidgedGram(Estimate(panel, n, shrinkage, ln), n, [], 0.0, Max(shrinkage, SHORT_RIDGE))
  {
    var c, ridge := Estimate(panel, n, shrinkage, ln), Max(shrinkage, SHORT_RIDGE);
    forall i | 0 <= i < n
      ensures c[i] == Axpy(Scale(0.0, GramRow([], n, i)), ridge, Unit(n, i))
    {
      RidgedEntries(c[i], 0.0, GramRow([], n, i), ridge, i);
    }
  }

  /**
    For every price panel, with any gaps, the estimate satisfies
    w' C w >= max(shrinkage, 1e-12) |w|^2 for every weight vector w.
  */
  lemma EstimateIsPositiveDefinite(panel: Panel, n: nat, shrinkage: real, ln: real -> real)
    requires IsPanel(panel, n)
    ensures PositiveDefinite(Estimate(panel, n, shrinkage, ln), n, Max(shrinkage, MIN_RIDGE))
  {
    hide Estimate, IsRidgedGram, PositiveDefinite;
    var rets := ReturnMatrix(panel, n, ln);
    if |rets| < 2 {
      RidgeOnlyIsRidgedGram(panel, n, shrinkage, ln);
      RidgedGramPositive(Estimate(panel, n, shrinkage, ln), n, [],
                         0.0, Max(shrinkage, SHORT_RIDGE), Max(shrinkage, MIN_RIDGE));
    } else {
      var rows := Fill(rets, n);
      EstimateIsRidgedGram(panel, n, shrinkage, ln);
      Reciprocal((|rows| - 1) as real);
      RidgedGramPositive(Estimate(panel, n, shrinkage, ln), n, Center(rows, n),
                         1.0 / (|rows| - 1) as real, Max(shrinkage, MIN_RIDGE), Max(shrinkage, MIN_RIDGE));
    }
  }
}
