/**
  The estimated covariance in terms of prices: which returns enter it, and that
  every entry is the unbiased sample covariance of two return columns.
*/
module CovarianceEntries {
  import opened Reals
  import opened Covariance
  import Features

  // ---------------------------------------------------------------- centred products

  /** a lowered by x in every entry. */
  function Lowered(a: seq<real>, x: real): (b: seq<real>)
    ensures |b| == |a|
    ensures forall t :: 0 <= t < |a| ==> b[t] == a[t] - x
  {
    if |a| == 0 then [] else [a[0] - x] + Lowered(a[1..], x)
  }

  ghost predicate IsCentredProduct(g: real, p: real, a: real, b: real, x: real, y: real, n: real) {
    g == p - x * b - y * a + n * (x * y)
  }

  ghost predicate IsProduct(z: real, x: real, y: real) {
    z == x * y
  }

  lemma CentredStep(g: real, p: real, a: real, b: real, x: real, y: real, n: real,
                    u: real, v: real, g': real, p': real, a': real, b': real, n': real)
    requires IsCentredProduct(g, p, a, b, x, y, n)
    requires IsProduct(g' - g, u - x, v - y) && IsProduct(p' - p, u, v) && a' == u + a && b' == v + b && n' == n + 1.0
    ensures IsCentredProduct(g', p', a', b', x, y, n')
  {
    assert (u - x) * (v - y) == u * v - x * v - y * u + x * y;
    assert x * (v + b) == x * v + x * b && y * (u + a) == y * u + y * a;
    assert (n + 1.0) * (x * y) == n * (x * y) + x * y;
  }

  lemma {:induction false} DotLowered(a: seq<real>, b: seq<real>, x: real, y: real, n: real,
                                      g: real, p: real, s: real, t: real)
    requires |a| == |b| && n == |a| as real
    requires g == Dot(Lowered(a, x), Lowered(b, y)) && p == Dot(a, b) && s == Sum(a) && t == Sum(b)
    ensures IsCentredProduct(g, p, s, t, x, y, n)
  {
    hide IsCentredProduct;
    if |a| == 0 {
      NothingCentred(a, b, x, y, n, g, p, s, t);
    } else {
      var a', b' := a[1..], b[1..];
      var g', p', s', t' := Dot(Lowered(a', x), Lowered(b', y)), Dot(a', b'), Sum(a'), Sum(b');
      DotLowered(a', b', x, y, |a'| as real, g', p', s', t');
      UnfoldLowered(a, b, x, y, g, g');
      UnfoldSums(a, b, p, p', s, s', t, t');
      hide *;
      CentredStep(g', p', s', t', x, y, |a'| as real, a[0], b[0], g, p, s, t, n);
    }
  }

  lemma NothingCentred(a: seq<real>, b: seq<real>, x: real, y: real, n: real, g: real, p: real, s: real, t: real)
    requires |a| == 0 && |b| == 0 && n == 0.0
    requires g == Dot(Lowered(a, x), Lowered(b, y)) && p == Dot(a, b) && s == Sum(a) && t == Sum(b)
    ensures IsCentredProduct(g, p, s, t, x, y, n)
  {
    assert x * t == 0.0 && y * s == 0.0 && n * (x * y) == 0.0;
  }

  lemma UnfoldLowered(a: seq<real>, b: seq<real>, x: real, y: real, g: real, g': real)
    requires |a| == |b| > 0 && g == Dot(Lowered(a, x), Lowered(b, y)) && g' == Dot(Lowered(a[1..], x), Lowered(b[1..], y))
    ensures IsProduct(g - g', a[0] - x, b[0] - y)
  {
    LoweredTail(a, x);
    LoweredTail(b, y);
    hide *;
    UnfoldDot(Lowered(a, x), Lowered(b, y), g, g');
  }

  lemma LoweredTail(a: seq<real>, x: real)
    requires |a| > 0
    ensures Lowered(a, x)[0] == a[0] - x && Lowered(a, x)[1..] == Lowered(a[1..], x)
  {
  }

  lemma UnfoldDot(c: seq<real>, d: seq<real>, g: real, g': real)
    requires |c| == |d| > 0 && g == Dot(c, d) && g' == Dot(c[1..], d[1..])
    ensures IsProduct(g - g', c[0], d[0])
  {
  }

  lemma UnfoldSums(a: seq<real>, b: seq<real>, p: real, p': real, s: real, s': real, t: real, t': real)
    requires |a| == |b| > 0 && p == Dot(a, b) && p' == Dot(a[1..], b[1..])
    requires s == Sum(a) && s' == Sum(a[1..]) && t == Sum(b) && t' == Sum(b[1..])
    ensures IsProduct(p - p', a[0], b[0]) && s == a[0] + s' && t == b[0] + t'
  {
  }

  /** The Gram entry of two columns is their inner product. */
  lemma {:induction false} GramIsDot(d: Matrix, i: nat, j: nat)
    requires forall t :: 0 <= t < |d| ==> i < |d[t]| && j < |d[t]|
    ensures Gram(d, i, j) == Dot(Column(d, i), Column(d, j))
  {
    if |d| != 0 {
      GramIsDot(d[1..], i, j);
      assert Column(d, i)[1..] == Column(d[1..], i) && Column(d, j)[1..] == Column(d[1..], j);
    }
  }

  lemma CentredColumn(rows: Matrix, n: nat, i: nat, x: real)
    requires |rows| > 0 && HasRows(rows, n) && i < n && x == Means(rows, n)[i]
    ensures Column(Center(rows, n), i) == Lowered(Column(rows, i), x)
  {
    hide Means, Lowered;
    var c, l := Column(Center(rows, n), i), Lowered(Column(rows, i), x);
    forall t | 0 <= t < |rows| ensures c[t] == l[t] {
    }
  }

  lemma MeanIs(rows: Matrix, n: nat, i: nat)
    requires |rows| > 0 && HasRows(rows, n) && i < n
    ensures Means(rows, n)[i] == Quotient(Sum(Column(rows, i)), |rows| as real)
  {
    hide Sum, Column;
  }

  lemma CentredScalars(g: real, p: real, a: real, b: real, x: real, y: real, n: real)
    requires IsCentredProduct(g, p, a, b, x, y, n) && x * n == a && y * n == b
    ensures n * g == n * p - a * b
  {
    assert n * (x * b) == (x * n) * b && n * (y * a) == (y * n) * a && n * (n * (x * y)) == (x * n) * (y * n);
    assert n * (p - x * b - y * a + n * (x * y)) == n * p - n * (x * b) - n * (y * a) + n * (n * (x * y));
  }

  /** n (n - 1) c = n a.b - (sum a) (sum b): c is the unbiased sample covariance of two columns of n values. */
  ghost predicate IsSampleCovariance(c: real, a: seq<real>, b: seq<real>)
    requires |a| == |b|
  {
    var n := |a| as real; n * ((n - 1.0) * c) == n * Dot(a, b) - Sum(a) * Sum(b)
  }

  lemma SampleCovarianceOf(c: real, g: real, a: seq<real>, b: seq<real>, n: real)
    requires |a| == |b| && n == |a| as real && (n - 1.0) * c == g && n * g == n * Dot(a, b) - Sum(a) * Sum(b)
    ensures IsSampleCovariance(c, a, b)
  {
    hide Dot, Sum;
  }

  lemma SampleCovIsSampleCovariance(rows: Matrix, n: nat, i: nat, j: nat)
    requires |rows| >= 2 && HasRows(rows, n) && i < n && j < n
    ensures IsSampleCovariance(SampleCov(rows, n, i, j), Column(rows, i), Column(rows, j))
  {
    var g := Gram(Center(rows, n), i, j);
    SampleCovIs(rows, n, i, j, g);
    GramOfCentre(rows, n, i, j, Means(rows, n)[i], Means(rows, n)[j], g);
    MeanIs(rows, n, i);
    MeanIs(rows, n, j);
    hide *;
    CovarianceOfColumns(Column(rows, i), Column(rows, j), Means(rows, n)[i], Means(rows, n)[j],
                        SampleCov(rows, n, i, j), g, |rows| as real);
  }

  lemma SampleCovIs(rows: Matrix, n: nat, i: nat, j: nat, g: real)
    requires |rows| >= 2 && HasRows(rows, n) && i < n && j < n && g == Gram(Center(rows, n), i, j)
    ensures SampleCov(rows, n, i, j) == Quotient(g, |rows| as real - 1.0)
  {
    hide Gram, Center;
  }

  lemma CovarianceOfColumns(a: seq<real>, b: seq<real>, x: real, y: real, c: real, g: real, n: real)
    requires |a| == |b| >= 2 && n == |a| as real && c == Quotient(g, n - 1.0)
    requires x == Quotient(Sum(a), n) && y == Quotient(Sum(b), n) && g == Dot(Lowered(a, x), Lowered(b, y))
    ensures IsSampleCovariance(c, a, b)
  {
    hide *;
    DotLowered(a, b, x, y, n, g, Dot(a, b), Sum(a), Sum(b));
    CentredScalars(g, Dot(a, b), Sum(a), Sum(b), x, y, n);
    SampleCovarianceOf(c, g, a, b, n);
  }

  lemma GramOfCentre(rows: Matrix, n: nat, i: nat, j: nat, x: real, y: real, g: real)
    requires |rows| > 0 && HasRows(rows, n) && i < n && j < n && g == Gram(Center(rows, n), i, j)
    requires x == Means(rows, n)[i] && y == Means(rows, n)[j]
    ensures g == Dot(Lowered(Column(rows, i), x), Lowered(Column(rows, j), y))
  {
    GramIsDot(Center(rows, n), i, j);
    CentredColumn(rows, n, i, x);
    CentredColumn(rows, n, j, y);
    hide *;
  }

  // ---------------------------------------------------------------- the estimate

  /** The returns of one symbol, a missing one counted as 0. */
  function FilledColumn(rets: Panel, i: nat): (x: seq<real>)
    requires forall t :: 0 <= t < |rets| ==> i < |rets[t]|
    ensures |x| == |rets|
  {
    seq(|rets|, t requires 0 <= t < |rets| => if rets[t][i].Some? then rets[t][i].value else 0.0)
  }

  /**
    Every entry of the estimate, less the ridge on the diagonal, is the unbiased
    sample covariance of the two symbols' returns, a missing one counted as 0.
  */
  lemma EntryIsSampleCovariance(panel: Panel, n: nat, shrinkage: real, ln: real -> real, i: nat, j: nat)
    requires IsPanel(panel, n) && |ReturnMatrix(panel, n, ln)| >= 2 && i < n && j < n
    ensures var rets, ridge := ReturnMatrix(panel, n, ln), if i == j then Max(shrinkage, MIN_RIDGE) else 0.0;
      IsSampleCovariance(Estimate(panel, n, shrinkage, ln)[i][j] - ridge, FilledColumn(rets, i), FilledColumn(rets, j))
  {
    hide *;
    EntryLessRidge(panel, n, shrinkage, ln, i, j);
    ColumnsHaveCovariance(ReturnMatrix(panel, n, ln), n, i, j);
  }

  lemma EntryLessRidge(panel: Panel, n: nat, shrinkage: real, ln: real -> real, i: nat, j: nat)
    requires IsPanel(panel, n) && |ReturnMatrix(panel, n, ln)| >= 2 && i < n && j < n
    ensures |Estimate(panel, n, shrinkage, ln)[i]| == n
    ensures Estimate(panel, n, shrinkage, ln)[i][j] - (if i == j then Max(shrinkage, MIN_RIDGE) else 0.0)
         == SampleCov(Fill(ReturnMatrix(panel, n, ln), n), n, i, j)
  {
    hide Estimate, ReturnMatrix, SampleCov, CovEntry, Fill, Max;
    EstimateAt(panel, n, shrinkage, ln, i, j);
    CovEntryIsGram(ReturnMatrix(panel, n, ln), n, i, j);
  }

  lemma ColumnsHaveCovariance(rets: Panel, n: nat, i: nat, j: nat)
    requires IsPanel(rets, n) && |rets| >= 2 && i < n && j < n
    ensures IsSampleCovariance(SampleCov(Fill(rets, n), n, i, j), FilledColumn(rets, i), FilledColumn(rets, j))
  {
    FilledIs(rets, n, i);
    FilledIs(rets, n, j);
    hide *;
    SampleCovIsSampleCovariance(Fill(rets, n), n, i, j);
  }

  lemma FilledIs(rets: Panel, n: nat, i: nat)
    requires IsPanel(rets, n) && i < n
    ensures Column(Fill(rets, n), i) == FilledColumn(rets, i)
  {
  }

  /** Without two rows of returns the estimate is the ridge alone: w'Cw = max(shrinkage, 1e-6) |w|^2. */
  lemma ShortEstimate(panel: Panel, n: nat, shrinkage: real, ln: real -> real, w: seq<real>)
    requires IsPanel(panel, n) && |ReturnMatrix(panel, n, ln)| < 2 && |w| == n
    ensures Quad(Estimate(panel, n, shrinkage, ln), w) == Max(shrinkage, SHORT_RIDGE) * Dot(w, w)
  {
    hide Estimate, Quad, ReturnMatrix, Dot, Max, IsRidgedGram;
    RidgeOnlyIsRidgedGram(panel, n, shrinkage, ln);
    RidgedGramQuad(Estimate(panel, n, shrinkage, ln), [], 0.0, Max(shrinkage, SHORT_RIDGE), w);
  }

  // ---------------------------------------------------------------- which returns enter

  /** Every price of the panel is there and positive. */
  ghost predicate Complete(panel: Panel) {
    forall t, i :: 0 <= t < |panel| && 0 <= i < |panel[t]| ==> panel[t][i].Some? && panel[t][i].value > 0.0
  }

  /** Without gaps no row is dropped, and the returns of a symbol add up to the log of its price ratio. */
  lemma {:induction false} ColumnTelescopes(panel: Panel, n: nat, ln: real -> real, i: nat)
    requires IsPanel(panel, n) && |panel| > 0 && i < n && Complete(panel) && Features.IsLog(ln)
    ensures var rets := ReturnMatrix(panel, n, ln);
      && |rets| == |panel| - 1
      && panel[|panel| - 1][i].value / panel[0][i].value > 0.0
      && Sum(FilledColumn(rets, i)) == ln(panel[|panel| - 1][i].value / panel[0][i].value)
  {
    var rets := ReturnMatrix(panel, n, ln);
    if |panel| == 1 {
      Features.SelfRatio(panel[0][i].value);
      Features.LogOfOne(ln);
    } else {
      ColumnTelescopes(panel[1..], n, ln, i);
      Features.LogOfChain(ln, panel[0][i].value, panel[1][i].value, panel[|panel| - 1][i].value);
      hide Features.IsLog;
      var row := ReturnRow(panel[0], panel[1], ln);
      assert row[i] == Some(ln(panel[1][i].value / panel[0][i].value));
      assert !AllMissing(row);
      var rest := ReturnMatrix(panel[1..], n, ln);
      assert rets == [row] + rest;
      assert FilledColumn(rets, i)[1..] == FilledColumn(rest, i);
    }
  }

  function CountSome(row: seq<Option<real>>): nat {
    if |row| == 0 then 0 else (if row[0].Some? then 1 else 0) + CountSome(row[1..])
  }

  function CountAll(rows: Panel): nat {
    if |rows| == 0 then 0 else CountSome(rows[0]) + CountAll(rows[1..])
  }

  /** The returns between consecutive times, before any row is dropped. */
  function AllReturns(panel: Panel, n: nat, ln: real -> real): (r: Panel)
    requires IsPanel(panel, n)
    ensures IsPanel(r, n)
  {
    seq(if |panel| == 0 then 0 else |panel| - 1,
        t requires 0 <= t < |panel| - 1 => ReturnRow(panel[t], panel[t + 1], ln))
  }

  ghost predicate IsPositivePrice(x: Option<real>) {
    x.Some? && x.value > 0.0
  }

  /**
    On prices that are not negative a return is there exactly when both prices
    are and are positive: a gap or a zero loses the returns on both its sides.
  */
  lemma ReturnThereExactlyWhen(panel: Panel, n: nat, ln: real -> real, t: nat, i: nat)
    requires IsPanel(panel, n) && t + 1 < |panel| && i < n
    requires forall s :: 0 <= s < |panel| ==> panel[s][i].Some? ==> panel[s][i].value >= 0.0
    ensures var r := AllReturns(panel, n, ln)[t][i];
      r.Some? <==> IsPositivePrice(panel[t][i]) && IsPositivePrice(panel[t + 1][i])
  {
    var a, b := panel[t][i], panel[t + 1][i];
    if a.Some? && b.Some? && a.value != 0.0 {
      Features.RatioOfPositive(b.value, a.value);
    }
  }

  lemma {:induction false} NothingMissing(row: seq<Option<real>>)
    ensures CountSome(row) == 0 <==> AllMissing(row)
  {
    if |row| != 0 {
      NothingMissing(row[1..]);
      assert forall i :: 0 < i < |row| ==> row[i] == row[1..][i - 1];
    }
  }

  /** The return matrix drops exactly the rows without any return: none of its rows is empty and no return is lost. */
  lemma {:induction false} DropsOnlyEmptyRows(panel: Panel, n: nat, ln: real -> real)
    requires IsPanel(panel, n)
    ensures var rets := ReturnMatrix(panel, n, ln);
      && (forall t :: 0 <= t < |rets| ==> !AllMissing(rets[t]))
      && CountAll(rets) == CountAll(AllReturns(panel, n, ln))
  {
    if |panel| >= 2 {
      DropsOnlyEmptyRows(panel[1..], n, ln);
      var row, all := ReturnRow(panel[0], panel[1], ln), AllReturns(panel, n, ln);
      assert all[1..] == AllReturns(panel[1..], n, ln) && all[0] == row;
      NothingMissing(row);
      hide AllMissing, ReturnRow;
    }
  }
}
