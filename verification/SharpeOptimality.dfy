/**
  What the optimiser's gradient is for: weights at which it vanishes have the
  highest Sharpe proxy of all fully invested weights, short ones included (or
  the lowest, when their mean return is negative).
*/
module SharpeOptimality {
  import opened Reals
  import opened Projection
  import opened Covariance
  import opened Optimizer

  // ---------------------------------------------------------------- the covariance as a bilinear form

  /** x' C w. */
  function Bilinear(c: Matrix, x: seq<real>, w: seq<real>): real
    requires |x| == |w| && IsSquare(c, |w|)
  {
    Dot(x, MatVec(c, w))
  }

  /** The sum over the rows of d of (d[t] . x) (d[t] . w). */
  function CrossSum(d: Matrix, x: seq<real>, w: seq<real>): real
    requires |x| == |w| && HasRows(d, |w|)
  {
    if |d| == 0 then 0.0 else Dot(d[0], x) * Dot(d[0], w) + CrossSum(d[1..], x, w)
  }

  lemma {:induction false} CrossSumComm(d: Matrix, x: seq<real>, w: seq<real>)
    requires |x| == |w| && HasRows(d, |w|)
    ensures CrossSum(d, x, w) == CrossSum(d, w, x)
  {
    hide Dot;
    if |d| != 0 {
      CrossSumComm(d[1..], x, w);
    }
  }

  lemma {:induction false} GramIsCrossSum(d: Matrix, w: seq<real>, x: seq<real>)
    requires |x| == |w| && HasRows(d, |w|)
    ensures Dot(GramTimes(d, w), x) == CrossSum(d, x, w)
  {
    hide Dot;
    if |d| == 0 {
      ZeroDot(x);
    } else {
      GramIsCrossSum(d[1..], w, x);
      DotAxpy(GramTimes(d[1..], w), Dot(d[0], w), d[0], x);
    }
  }

  lemma ZeroDot(x: seq<real>)
    ensures Dot(Const(|x|, 0.0), x) == 0.0
  {
    DotZero(x);
  }

  lemma RidgedGramBilinear(c: Matrix, d: Matrix, k: real, ridge: real, x: seq<real>, w: seq<real>)
    requires |x| == |w| && IsSquare(c, |w|) && HasRows(d, |w|) && IsRidgedGram(c, |w|, d, k, ridge)
    ensures Bilinear(c, x, w) == k * CrossSum(d, x, w) + ridge * Dot(w, x)
  {
    hide Dot, Axpy, Scale, GramTimes, MatVec, GramRow, IsRidgedGram, CrossSum;
    var g := GramTimes(d, w);
    RidgedMatVec(c, d, k, ridge, w);
    DotComm(x, MatVec(c, w));
    RidgedDot(g, k, w, ridge, x);
    GramIsCrossSum(d, w, x);
  }

  lemma RidgedGramSymmetric(c: Matrix, d: Matrix, k: real, ridge: real, x: seq<real>, w: seq<real>)
    requires |x| == |w| && IsSquare(c, |w|) && HasRows(d, |w|) && IsRidgedGram(c, |w|, d, k, ridge)
    ensures Bilinear(c, x, w) == Bilinear(c, w, x)
  {
    hide *;
    RidgedGramBilinear(c, d, k, ridge, x, w);
    RidgedGramBilinear(c, d, k, ridge, w, x);
    CrossSumComm(d, x, w);
    DotComm(x, w);
  }

  lemma EstimateIsSymmetric(panel: Panel, n: nat, shrinkage: real, ln: real -> real, x: seq<real>, w: seq<real>)
    requires IsPanel(panel, n) && |x| == |w| == n
    ensures Bilinear(Estimate(panel, n, shrinkage, ln), x, w) == Bilinear(Estimate(panel, n, shrinkage, ln), w, x)
  {
    hide Estimate, IsRidgedGram, Bilinear;
    var rets := ReturnMatrix(panel, n, ln);
    if |rets| < 2 {
      RidgeOnlyIsRidgedGram(panel, n, shrinkage, ln);
      RidgedGramSymmetric(Estimate(panel, n, shrinkage, ln), [], 0.0, Max(shrinkage, SHORT_RIDGE), x, w);
    } else {
      var rows := Fill(rets, n);
      EstimateIsRidgedGram(panel, n, shrinkage, ln);
      RidgedGramSymmetric(Estimate(panel, n, shrinkage, ln), Center(rows, n), 1.0 / (|rows| - 1) as real,
                          Max(shrinkage, MIN_RIDGE), x, w);
    }
  }

  // ---------------------------------------------------------------- Cauchy-Schwarz in that form

  lemma MatVecAxpy(c: Matrix, x: seq<real>, t: real, w: seq<real>)
    requires |x| == |w| && IsSquare(c, |w|)
    ensures MatVec(c, Axpy(x, t, w)) == Axpy(MatVec(c, x), t, MatVec(c, w))
  {
    hide Dot, Axpy;
    forall i | 0 <= i < |w| ensures MatVec(c, Axpy(x, t, w))[i] == Axpy(MatVec(c, x), t, MatVec(c, w))[i] {
      DotComm(c[i], Axpy(x, t, w));
      DotAxpy(x, t, w, c[i]);
      DotComm(c[i], x);
      DotComm(c[i], w);
      AxpyAt(MatVec(c, x), t, MatVec(c, w), i);
    }
  }

  /** The variance along a line, for a symmetric form. */
  lemma QuadAxpy(c: Matrix, x: seq<real>, t: real, w: seq<real>)
    requires |x| == |w| && IsSquare(c, |w|) && Bilinear(c, x, w) == Bilinear(c, w, x)
    ensures Quad(c, Axpy(x, t, w)) == Quad(c, x) + 2.0 * t * Bilinear(c, x, w) + t * t * Quad(c, w)
  {
    hide Dot, Axpy, MatVec;
    var y, cx, cw := Axpy(x, t, w), MatVec(c, x), MatVec(c, w);
    MatVecAxpy(c, x, t, w);
    DotAxpy(x, t, w, MatVec(c, y));
    DotComm(x, MatVec(c, y));
    DotComm(w, MatVec(c, y));
    DotAxpy(cx, t, cw, x);
    DotAxpy(cx, t, cw, w);
    DotComm(cx, x);
    DotComm(cx, w);
    DotComm(cw, x);
    DotComm(cw, w);
  }

  lemma CauchySchwarz(c: Matrix, x: seq<real>, w: seq<real>, ridge: real)
    requires |x| == |w| && IsSquare(c, |w|) && Bilinear(c, x, w) == Bilinear(c, w, x)
    requires PositiveDefinite(c, |w|, ridge) && ridge >= 0.0 && Quad(c, w) > 0.0
    ensures Bilinear(c, x, w) * Bilinear(c, x, w) <= Quad(c, w) * Quad(c, x)
  {
    hide *;
    var q, s, n := Quad(c, x), Bilinear(c, x, w), Quad(c, w);
    var t := Quotient(-s, n);
    AlongLineNonNegative(c, x, t, w, ridge, q, s, n);
    MinimumOfParabola(q, s, n, t);
  }

  lemma AlongLineNonNegative(c: Matrix, x: seq<real>, t: real, w: seq<real>, ridge: real, q: real, s: real, n: real)
    requires |x| == |w| && IsSquare(c, |w|) && Bilinear(c, x, w) == Bilinear(c, w, x)
    requires PositiveDefinite(c, |w|, ridge) && ridge >= 0.0
    requires q == Quad(c, x) && s == Bilinear(c, x, w) && n == Quad(c, w)
    ensures q + 2.0 * t * s + t * t * n >= 0.0
  {
    hide Quad, Bilinear, PositiveDefinite;
    QuadAxpy(c, x, t, w);
    QuadNonNegative(c, Axpy(x, t, w), ridge);
  }

  lemma QuadNonNegative(c: Matrix, y: seq<real>, ridge: real)
    requires IsSquare(c, |y|) && PositiveDefinite(c, |y|, ridge) && ridge >= 0.0
    ensures Quad(c, y) >= 0.0
  {
    hide Quad;
    DotSelfNonNegative(y);
    ProductNonNegative(ridge, Dot(y, y));
  }

  // ---------------------------------------------------------------- stationary weights

  ghost predicate Stationary(mu: seq<real>, cov: Matrix, w: seq<real>, sqrt: real -> real)
    requires |mu| == |w| && IsSquare(cov, |w|) && IsSqrt(sqrt)
  {
    var g := Gradient(mu, cov, w, sqrt);
    forall i :: 0 <= i < |w| ==> g[i] == 0.0
  }

  /** The first-order condition: v mu == m C w, with v the variance and m the mean return. */
  ghost predicate FirstOrder(mu: seq<real>, cw: seq<real>, m: real, v: real)
    requires |mu| == |cw|
  {
    forall i :: 0 <= i < |mu| ==> v * mu[i] == m * cw[i]
  }

  lemma EntryVanishes(s: real, v: real, r: real, q: real, m: real, x: real, y: real)
    requires s > 0.0 && s * s == v && r == 1.0 / s && q == m / Cube(s)
    ensures r * x + (-q) * y == 0.0 <==> v * x == m * y
  {
    var c := s * s * s;
    assert q * c == m;
    Reciprocal(s);
    assert r * s == 1.0;
    hide Cube;
    ScaledEntry(s, v, r, q, c, m, x, y);
  }

  lemma ScaledEntry(s: real, v: real, r: real, q: real, c: real, m: real, x: real, y: real)
    requires s > 0.0 && s * s == v && r * s == 1.0 && c == s * v && q * c == m
    ensures r * x + (-q) * y == 0.0 <==> v * x == m * y
  {
    assert v > 0.0 && c > 0.0;
    var e := r * x + (-q) * y;
    TimesCube(s, v, r, q, c, m, x, y, e);
    ZeroProduct(c, e);
  }

  lemma TimesCube(s: real, v: real, r: real, q: real, c: real, m: real, x: real, y: real, e: real)
    requires r * s == 1.0 && c == s * v && q * c == m && e == r * x + (-q) * y
    ensures c * e == v * x - m * y
  {
    assert c * e == c * (r * x) - c * (q * y);
    assert c * (r * x) == (r * s) * (v * x);
    assert c * (q * y) == (q * c) * y;
  }

  lemma ZeroProduct(c: real, e: real)
    requires c > 0.0
    ensures c * e == 0.0 <==> e == 0.0
  {
  }

  /**
    While the variance floor is inactive, the gradient is zero if and only if
    the mean vector is proportional to C w in the ratio variance : mean return.
  */
  lemma StationaryExactlyWhen(mu: seq<real>, cov: Matrix, w: seq<real>, sqrt: real -> real)
    requires |mu| == |w| && IsSquare(cov, |w|) && IsSqrt(sqrt) && Quad(cov, w) > VARIANCE_FLOOR
    ensures Stationary(mu, cov, w, sqrt) <==> FirstOrder(mu, MatVec(cov, w), Dot(mu, w), Quad(cov, w))
  {
    hide Gradient, Quad, MatVec, Dot, IsSqrt;
    var g, m, v, cw := Gradient(mu, cov, w, sqrt), Dot(mu, w), Quad(cov, w), MatVec(cov, w);
    forall i | 0 <= i < |w| ensures g[i] == 0.0 <==> v * mu[i] == m * cw[i] {
      GradientEntry(mu, cov, w, sqrt, m, v, cw, i);
    }
  }

  lemma GradientEntry(mu: seq<real>, cov: Matrix, w: seq<real>, sqrt: real -> real, m: real, v: real, cw: seq<real>, i: nat)
    requires |mu| == |w| && IsSquare(cov, |w|) && IsSqrt(sqrt) && Quad(cov, w) > VARIANCE_FLOOR && i < |w|
    requires m == Dot(mu, w) && v == Quad(cov, w) && cw == MatVec(cov, w)
    ensures Gradient(mu, cov, w, sqrt)[i] == 0.0 <==> v * mu[i] == m * cw[i]
  {
    hide *;
    var s := Sigma(cov, w, sqrt);
    SigmaSquaredIs(cov, w, sqrt, s, v);
    GradientIs(mu, cov, w, sqrt, s, m, cw);
    var r, q := 1.0 / s, m / Cube(s);
    CombinationAt(r, mu, -q, cw, i);
    EntryVanishes(s, v, r, q, m, mu[i], cw[i]);
  }

  lemma SigmaSquaredIs(cov: Matrix, w: seq<real>, sqrt: real -> real, s: real, v: real)
    requires IsSquare(cov, |w|) && IsSqrt(sqrt) && v == Quad(cov, w) && v > VARIANCE_FLOOR && s == Sigma(cov, w, sqrt)
    ensures s > 0.0 && s * s == v
  {
    hide Quad, Sigma;
    SigmaSquared(cov, w, sqrt);
    QuadIs(cov, w);
  }

  lemma GradientIs(mu: seq<real>, cov: Matrix, w: seq<real>, sqrt: real -> real, s: real, m: real, cw: seq<real>)
    requires |mu| == |w| && IsSquare(cov, |w|) && IsSqrt(sqrt) && s == Sigma(cov, w, sqrt)
    requires m == Dot(mu, w) && cw == MatVec(cov, w)
    ensures Gradient(mu, cov, w, sqrt) == Axpy(Scale(1.0 / s, mu), -(m / Cube(s)), cw)
  {
    hide MatVec, Axpy, Scale, Cube, Sigma;
  }

  lemma CombinationAt(r: real, a: seq<real>, k: real, b: seq<real>, i: nat)
    requires |a| == |b| && i < |a|
    ensures Axpy(Scale(r, a), k, b)[i] == r * a[i] + k * b[i]
  {
    hide *;
    AxpyAt(Scale(r, a), k, b, i);
    ScaleAt(r, a, i);
  }

  lemma {:induction false} FirstOrderDot(mu: seq<real>, cw: seq<real>, m: real, v: real, x: seq<real>)
    requires |mu| == |cw| == |x| && FirstOrder(mu, cw, m, v)
    ensures v * Dot(mu, x) == m * Dot(x, cw)
  {
    if |x| != 0 {
      assert FirstOrder(mu[1..], cw[1..], m, v);
      FirstOrderDot(mu[1..], cw[1..], m, v, x[1..]);
      FirstOrderStep(v, mu[0], m, cw[0], x[0], Dot(mu[1..], x[1..]), Dot(x[1..], cw[1..]));
    }
  }

  lemma FirstOrderStep(v: real, a: real, m: real, b: real, x: real, p: real, q: real)
    requires v * a == m * b && v * p == m * q
    ensures v * (a * x + p) == m * (x * b + q)
  {
    assert v * (a * x) == (v * a) * x;
  }

  /** From v p == m b and b^2 <= v q. */
  lemma SquareBound(v: real, p: real, m: real, b: real, q: real)
    requires v > 0.0 && v * p == m * b && b * b <= v * q
    ensures p * p * v <= m * m * q
  {
    ProductNonNegative(m * m, v * q - b * b);
    assert m * m * (v * q - b * b) == v * (m * m * q) - (m * b) * (m * b);
    assert (m * b) * (m * b) == v * (p * p * v);
    assert v * (m * m * q - p * p * v) >= 0.0;
    if m * m * q - p * p * v < 0.0 {
      PositiveProduct(v, p * p * v - m * m * q);
    }
  }

  /**
    Stationary weights have the largest squared Sharpe ratio of all weight
    vectors: (mu . x)^2 / variance(x) <= (mu . w)^2 / variance(w).
  */
  lemma StationaryIsOptimal(mu: seq<real>, cov: Matrix, w: seq<real>, sqrt: real -> real, x: seq<real>, ridge: real)
    requires |mu| == |w| == |x| && IsSquare(cov, |w|) && IsSqrt(sqrt) && Quad(cov, w) > VARIANCE_FLOOR
    requires PositiveDefinite(cov, |w|, ridge) && ridge >= 0.0 && Bilinear(cov, x, w) == Bilinear(cov, w, x)
    requires Stationary(mu, cov, w, sqrt)
    ensures MeanReturn(mu, x) * MeanReturn(mu, x) * Quad(cov, w) <= MeanReturn(mu, w) * MeanReturn(mu, w) * Quad(cov, x)
  {
    hide Quad, MatVec, PositiveDefinite, Stationary, FirstOrder, IsSqrt;
    StationaryExactlyWhen(mu, cov, w, sqrt);
    CauchySchwarz(cov, x, w, ridge);
    FirstOrderDotIs(mu, MatVec(cov, w), MeanReturn(mu, w), Quad(cov, w), x, MeanReturn(mu, x), Bilinear(cov, x, w));
    hide *;
    SquareBound(Quad(cov, w), MeanReturn(mu, x), MeanReturn(mu, w), Bilinear(cov, x, w), Quad(cov, x));
  }

  lemma FirstOrderDotIs(mu: seq<real>, cw: seq<real>, m: real, v: real, x: seq<real>, p: real, b: real)
    requires |mu| == |cw| == |x| && FirstOrder(mu, cw, m, v) && p == Dot(mu, x) && b == Dot(x, cw)
    ensures v * p == m * b
  {
    FirstOrderDot(mu, cw, m, v, x);
  }

  /** p / b <= m / a, from the squares. */
  lemma RatioBound(p: real, b: real, m: real, a: real)
    requires a > 0.0 && b > 0.0 && m >= 0.0
    requires p * p * (a * a) <= m * m * (b * b)
    ensures p / b <= m / a
  {
    ProductNonNegative(m, b);
    SquareOfPair(p, a);
    SquareOfPair(m, b);
    SquaresCompare(p * a, m * b);
    QuotientsCompare(p, b, m, a);
  }

  lemma RatioBoundSigned(p: real, b: real, m: real, a: real)
    requires a > 0.0 && b > 0.0
    requires p * p * (a * a) <= m * m * (b * b)
    ensures if m >= 0.0 then p / b <= m / a else p / b >= m / a
  {
    if m >= 0.0 {
      RatioBound(p, b, m, a);
    } else {
      assert (-p) * (-p) == p * p && (-m) * (-m) == m * m;
      RatioBound(-p, b, -m, a);
      NegatedQuotient(p, b);
      NegatedQuotient(m, a);
    }
  }

  lemma NegatedQuotient(p: real, b: real)
    requires b > 0.0
    ensures (-p) / b == -(p / b)
  {
  }

  lemma SquareOfPair(p: real, a: real)
    ensures (p * a) * (p * a) == p * p * (a * a)
  {
  }

  lemma SquaresCompare(x: real, y: real)
    requires y >= 0.0 && x * x <= y * y
    ensures x <= y
  {
    if x > y {
      LargerSquare(x, y);
    }
  }

  lemma LargerSquare(x: real, y: real)
    requires x > y >= 0.0
    ensures x * x > y * y
  {
    PositiveProduct(x - y, x + y);
    assert (x - y) * (x + y) == x * x - y * y;
  }

  lemma QuotientsCompare(p: real, b: real, m: real, a: real)
    requires a > 0.0 && b > 0.0 && p * a <= m * b
    ensures p / b <= m / a
  {
    var r, t := p / b, m / a;
    assert r * b == p && t * a == m;
    assert (a * b) * (t - r) == (t * a) * b - (r * b) * a;
    PositiveProduct(a, b);
    NonNegativeFactor(a * b, t - r);
  }

  /**
    On the estimated covariance, fully invested weights with a zero gradient
    have the highest Sharpe proxy of all fully invested weights if their mean
    return is non-negative, and the lowest if it is negative.
  */
  lemma ZeroGradientIsExtreme(panel: Panel, shrinkage: real, ln: real -> real, mu: seq<real>, w: seq<real>,
                                    sqrt: real -> real, x: seq<real>)
    requires 0 < |w| <= 9999 && |mu| == |w| == |x| && IsPanel(panel, |w|) && IsSqrt(sqrt)
    requires Abs(Sum(w) - 1.0) <= ISCLOSE && Abs(Sum(x) - 1.0) <= ISCLOSE
    requires Stationary(mu, Estimate(panel, |w|, shrinkage, ln), w, sqrt)
    ensures var cov := Estimate(panel, |w|, shrinkage, ln);
      if MeanReturn(mu, w) >= 0.0 then SharpeProxy(x, mu, cov, sqrt) <= SharpeProxy(w, mu, cov, sqrt)
      else SharpeProxy(x, mu, cov, sqrt) >= SharpeProxy(w, mu, cov, sqrt)
  {
    hide Estimate, Quad, Sum, Stationary, PositiveDefinite, PortfolioVolatility, SharpeProxy, MeanReturn, IsSqrt, Bilinear;
    var n, cov := |w|, Estimate(panel, |w|, shrinkage, ln);
    RidgeIsPositive(shrinkage);
    EstimateIsPositiveDefinite(panel, n, shrinkage, ln);
    VarianceAboveFloor(cov, w, Max(shrinkage, MIN_RIDGE));
    EstimateIsSymmetric(panel, n, shrinkage, ln, x, w);
    StationaryIsOptimal(mu, cov, w, sqrt, x, Max(shrinkage, MIN_RIDGE));
    VolatilityIsExact(panel, shrinkage, ln, w, sqrt);
    VolatilityIsExact(panel, shrinkage, ln, x, sqrt);
    SharpeIsRatio(panel, shrinkage, ln, w, mu, sqrt);
    SharpeIsRatio(panel, shrinkage, ln, x, mu, sqrt);
    RatioBoundSigned(MeanReturn(mu, x), PortfolioVolatility(x, cov, sqrt),
                     MeanReturn(mu, w), PortfolioVolatility(w, cov, sqrt));
  }

  lemma RidgeIsPositive(shrinkage: real)
    ensures Max(shrinkage, MIN_RIDGE) >= MIN_RIDGE > 0.0
  {
  }
}
