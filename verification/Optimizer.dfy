/**
  Projected gradient steps on the Sharpe ratio: which of the code's guards can
  ever act, and what each step keeps.
*/
module Optimizer {
  import opened Reals
  import opened Projection
  import opened ProjectionTheorems
  import opened Covariance

  const VARIANCE_FLOOR: real := 0.0000000000000001
  const VOL_THRESHOLD: real := 0.000000000001

  // ---------------------------------------------------------------- one step

  function Sigma(cov: Matrix, w: seq<real>, sqrt: real -> real): (s: real)
    requires IsSquare(cov, |w|) && IsSqrt(sqrt)
    ensures s > 0.0
  {
    sqrt(Max(Quad(cov, w), VARIANCE_FLOOR))
  }

  function Cube(s: real): (c: real)
    requires s > 0.0
    ensures c > 0.0
  {
    s * s * s
  }

  function Gradient(mu: seq<real>, cov: Matrix, w: seq<real>, sqrt: real -> real): (g: seq<real>)
    requires |mu| == |w| && IsSquare(cov, |w|) && IsSqrt(sqrt)
    ensures |g| == |w|
  {
    var sigma := Sigma(cov, w, sqrt);
    Axpy(Scale(1.0 / sigma, mu), -(Dot(mu, w) / Cube(sigma)), MatVec(cov, w))
  }

  function Candidate(mu: seq<real>, cov: Matrix, w: seq<real>, step: real, sqrt: real -> real): (c: seq<real>)
    requires |mu| == |w| && IsSquare(cov, |w|) && IsSqrt(sqrt)
    ensures |c| == |w|
  {
    Axpy(w, step, Gradient(mu, cov, w, sqrt))
  }

  /** The weights after k iterations, starting from equal weights. */
  function Iterate(mu: seq<real>, cov: Matrix, p: Params, projIter: nat, step: real, sqrt: real -> real, k: nat)
    : (w: seq<real>)
    requires |mu| > 0 && IsSquare(cov, |mu|) && IsSqrt(sqrt)
    ensures |w| == |mu|
  {
    if k == 0 then Const(|mu|, 1.0 / |mu| as real)
    else Project(Candidate(mu, cov, Iterate(mu, cov, p, projIter, step, sqrt, k - 1), step, sqrt), p, projIter)
  }

  method OptimizeSharpeProxy(mu: seq<real>, cov: Matrix, p: Params, projIter: nat, maxIters: nat, step: real,
                             sqrt: real -> real)
    returns (weights: seq<real>)
    requires p.Valid() && IsSquare(cov, |mu|) && IsSqrt(sqrt)
    ensures |mu| == 0 ==> weights == []
    ensures |weights| == |mu|
    ensures maxIters == 0 ==> forall i :: 0 <= i < |mu| ==> weights[i] * |mu| as real == 1.0
    ensures |mu| > 0 ==> weights == Iterate(mu, cov, p, projIter, step, sqrt, maxIters)
  {
    hide Project, Gradient, Cube, Sigma;
    var n := |mu|;
    if n == 0 {
      return [];
    }
    weights := Const(n, 1.0 / n as real);
    Reciprocal(n as real);
    for k := 0 to maxIters
      invariant weights == Iterate(mu, cov, p, projIter, step, sqrt, k)
    {
      var r := ProjectWeights(Candidate(mu, cov, weights, step, sqrt), p, projIter);
      weights := r.value;
    }
  }

  // ---------------------------------------------------------------- long-only, for every iteration count

  /** Non-negative and summing to 1 up to the isclose tolerance. */
  ghost predicate LongOnly(w: seq<real>, p: Params) {
    NonNegative(w) && Abs(Sum(w) - 1.0) <= p.close
  }

  /**
    After any number of iterations, for any step size, mean and covariance, the
    weights are long-only, so the fallback to equal weights never triggers.
  */
  lemma {:induction false} IterateIsLongOnly(mu: seq<real>, cov: Matrix, p: Params, projIter: nat, step: real,
                                             sqrt: real -> real, k: nat)
    requires p.Valid() && |mu| > 0 && IsSquare(cov, |mu|) && IsSqrt(sqrt)
    ensures LongOnly(Iterate(mu, cov, p, projIter, step, sqrt, k), p)
  {
    hide Project, Candidate;
    if k == 0 {
      EqualWeights(|mu|);
    } else {
      var w := Iterate(mu, cov, p, projIter, step, sqrt, k - 1);
      ProjectIsLongOnlyFullyInvested(Candidate(mu, cov, w, step, sqrt), p, projIter);
    }
  }

  // ---------------------------------------------------------------- the floors never act

  lemma SpreadWeightsHaveVariance(n: real, s: real, q: real, c: real, v: real)
    requires 0.0 < n <= 9999.0 && Abs(s - 1.0) <= ISCLOSE
    requires s * s <= n * q && q >= 0.0 && c >= MIN_RIDGE && v >= c * q
    ensures v > VARIANCE_FLOOR
  {
    assert s * s >= 0.99995 by {
      ProductNonNegative(s - 0.99998, s);
      assert (s - 0.99998) * s == s * s - 0.99998 * s;
    }
    ProductNonNegative(9999.0 - n, q);
    assert (9999.0 - n) * q == 9999.0 * q - n * q;
    ProductNonNegative(c - MIN_RIDGE, q);
    assert (c - MIN_RIDGE) * q == c * q - MIN_RIDGE * q;
  }

  /**
    With a ridge of at least 1e-12, weights that sum to 1 within the isclose
    tolerance over at most 9999 symbols have variance above 1e-16.
  */
  lemma VarianceAboveFloor(cov: Matrix, w: seq<real>, ridge: real)
    requires 0 < |w| <= 9999 && IsSquare(cov, |w|)
    requires PositiveDefinite(cov, |w|, ridge) && ridge >= MIN_RIDGE
    requires Abs(Sum(w) - 1.0) <= ISCLOSE
    ensures Quad(cov, w) > VARIANCE_FLOOR
  {
    var n, s, q, v := |w| as real, Sum(w), Dot(w, w), Quad(cov, w);
    hide Quad, PositiveDefinite;
    NormAtLeast(w, s, q, n);
    PositiveDefiniteAt(cov, w, ridge, q, v);
    assert Abs(s - 1.0) <= ISCLOSE;
    hide *;
    SpreadWeightsHaveVariance(n, s, q, ridge, v);
  }

  lemma NormAtLeast(w: seq<real>, s: real, q: real, n: real)
    requires |w| > 0 && s == Sum(w) && q == Dot(w, w) && n == |w| as real
    ensures s * s <= n * q && q >= 0.0
  {
    CauchySchwarzOnes(w);
    DotSelfNonNegative(w);
  }

  lemma PositiveDefiniteAt(cov: Matrix, w: seq<real>, ridge: real, q: real, v: real)
    requires IsSquare(cov, |w|) && PositiveDefinite(cov, |w|, ridge) && q == Dot(w, w) && v == Quad(cov, w)
    ensures v >= ridge * q
  {
    hide Quad;
  }

  /** On the estimated covariance the variance floor of the optimiser is dead at every iterate. */
  lemma IterateVarianceAboveFloor(panel: Panel, shrinkage: real, ln: real -> real, mu: seq<real>, cap: real,
                                  projIter: nat, step: real, sqrt: real -> real, k: nat)
    requires 0 < |mu| <= 9999 && IsPanel(panel, |mu|) && IsSqrt(sqrt)
    ensures var cov := Estimate(panel, |mu|, shrinkage, ln);
      Quad(cov, Iterate(mu, cov, CodeParams(cap), projIter, step, sqrt, k)) > VARIANCE_FLOOR
  {
    hide Estimate, Iterate, Quad, PositiveDefinite, Sum;
    var cov := Estimate(panel, |mu|, shrinkage, ln);
    var w := Iterate(mu, cov, CodeParams(cap), projIter, step, sqrt, k);
    IterateIsLongOnly(mu, cov, CodeParams(cap), projIter, step, sqrt, k);
    EstimateIsPositiveDefinite(panel, |mu|, shrinkage, ln);
    VarianceAboveFloor(cov, w, Max(shrinkage, MIN_RIDGE));
  }

  // ---------------------------------------------------------------- the gradient is tangent

  lemma QuotientOfCube(m: real, s: real, v: real)
    requires s > 0.0 && s * s == v
    ensures (1.0 / s) * m + (-(m / Cube(s))) * v == 0.0
  {
    var q := m / Cube(s);
    assert q * (s * s * s) == m;
    assert (q * v) * s == m;
    Reciprocal(s);
    assert (1.0 / s) * ((q * v) * s) == q * v;
  }

  lemma TangentAt(mu: seq<real>, cw: seq<real>, w: seq<real>, s: real, v: real)
    requires |mu| == |cw| == |w| && s > 0.0 && s * s == v && Dot(w, cw) == v
    ensures Dot(Axpy(Scale(1.0 / s, mu), -(Dot(mu, w) / Cube(s)), cw), w) == 0.0
  {
    DotComm(w, cw);
    QuotientOfCube(Dot(mu, w), s, v);
    RidgedDotValues(mu, 1.0 / s, cw, -(Dot(mu, w) / Cube(s)), w, Dot(mu, w), v);
  }

  lemma SigmaSquared(cov: Matrix, w: seq<real>, sqrt: real -> real)
    requires IsSquare(cov, |w|) && IsSqrt(sqrt) && Quad(cov, w) > VARIANCE_FLOOR
    ensures Sigma(cov, w, sqrt) * Sigma(cov, w, sqrt) == Dot(w, MatVec(cov, w))
  {
    hide Quad;
    RootOfMax(sqrt, Quad(cov, w));
    QuadIs(cov, w);
  }

  lemma RootOfMax(sqrt: real -> real, v: real)
    requires IsSqrt(sqrt) && v > VARIANCE_FLOOR
    ensures sqrt(Max(v, VARIANCE_FLOOR)) * sqrt(Max(v, VARIANCE_FLOOR)) == v
  {
  }

  lemma QuadIs(cov: Matrix, w: seq<real>)
    requires IsSquare(cov, |w|)
    ensures Quad(cov, w) == Dot(w, MatVec(cov, w))
  {
  }

  /** Euler's identity: while the variance floor is inactive, gradient . w == 0. */
  lemma GradientIsTangent(mu: seq<real>, cov: Matrix, w: seq<real>, sqrt: real -> real)
    requires |mu| == |w| && IsSquare(cov, |w|) && IsSqrt(sqrt)
    requires Quad(cov, w) > VARIANCE_FLOOR
    ensures Dot(Gradient(mu, cov, w, sqrt), w) == 0.0
  {
    hide Dot, MatVec, Axpy, Scale, Cube, Sigma;
    SigmaSquared(cov, w, sqrt);
    TangentAt(mu, MatVec(cov, w), w, Sigma(cov, w, sqrt), Dot(w, MatVec(cov, w)));
  }

  lemma OrthogonalNorm(w: seq<real>, step: real, g: seq<real>)
    requires |w| == |g| && Dot(g, w) == 0.0
    ensures Dot(Axpy(w, step, g), Axpy(w, step, g)) == Dot(w, w) + step * step * Dot(g, g)
  {
    DotComm(w, g);
    NormAxpy(w, step, g);
  }

  /** So a step never shortens the weight vector: |candidate|^2 = |w|^2 + step^2 |gradient|^2. */
  lemma CandidateNorm(mu: seq<real>, cov: Matrix, w: seq<real>, step: real, sqrt: real -> real)
    requires |mu| == |w| && IsSquare(cov, |w|) && IsSqrt(sqrt)
    requires Quad(cov, w) > VARIANCE_FLOOR
    ensures var c, g := Candidate(mu, cov, w, step, sqrt), Gradient(mu, cov, w, sqrt);
      Dot(c, c) == Dot(w, w) + step * step * Dot(g, g)
  {
    hide Gradient, Dot, Axpy, Quad;
    GradientIsTangent(mu, cov, w, sqrt);
    OrthogonalNorm(w, step, Gradient(mu, cov, w, sqrt));
  }

  /** x v - m y == step s^3 g: how far a move with mean return x and covariance y beats the ratio m / v. */
  ghost predicate IsGain(x: real, y: real, m: real, v: real, step: real, s: real, g: real) {
    x * v - m * y == step * (s * (s * (s * g)))
  }

  lemma GainProducts(x: real, y: real, m: real, v: real, step: real, s: real, g: real, d: real, p: real, q: real)
    requires s * s == v && d == step * g && d == p * x + q * y && q * (s * s * s) == -m && p * s == 1.0
    ensures IsGain(x, y, m, v, step, s, g)
  {
    var c := s * s * s;
    assert c * d == c * (p * x) + c * (q * y);
    assert c * (q * y) == (q * c) * y;
    assert c * (p * x) == (p * s) * (s * s) * x;
    assert c * (step * g) == step * (s * (s * (s * g)));
  }

  lemma GradientFactors(g: seq<real>, mu: seq<real>, cw: seq<real>, w: seq<real>, s: real) returns (p: real, q: real)
    requires |mu| == |cw| == |w| && s > 0.0 && IsGradient(g, mu, cw, w, s)
    ensures g == Axpy(Scale(p, mu), q, cw) && p * s == 1.0 && q * (s * s * s) == -Dot(mu, w)
  {
    p, q := 1.0 / s, -(Dot(mu, w) / Cube(s));
    hide Axpy, Scale, Dot;
  }

  lemma StepAlong(w: seq<real>, step: real, g: seq<real>, c: seq<real>)
    requires |w| == |g| && c == Axpy(w, step, g) && Dot(g, w) == 0.0
    ensures Dot(g, c) == step * Dot(g, g)
  {
    hide *;
    DotComm(g, c);
    DotComm(g, w);
    DotAxpy(w, step, g, g);
  }

  /**
    A step goes uphill: with m and v the mean return and the variance of the
    weights, the candidate c satisfies (mu . c) v - m (c . Cw) = step sigma^3
    |gradient|^2. So it has more mean return per covariance with the weights
    than they have themselves, unless the gradient is 0.
  */
  lemma StepGoesUphill(mu: seq<real>, cov: Matrix, w: seq<real>, step: real, sqrt: real -> real)
    requires |mu| == |w| && IsSquare(cov, |w|) && IsSqrt(sqrt) && Quad(cov, w) > VARIANCE_FLOOR
    ensures var c, g := Candidate(mu, cov, w, step, sqrt), Gradient(mu, cov, w, sqrt);
      IsGain(Dot(mu, c), Dot(MatVec(cov, w), c), Dot(mu, w), Quad(cov, w), step, Sigma(cov, w, sqrt), Dot(g, g))
  {
    hide *;
    GradientIsTangent(mu, cov, w, sqrt);
    SigmaSquared(cov, w, sqrt);
    QuadIs(cov, w);
    StepParts(mu, cov, w, step, sqrt);
    TangentStep(mu, MatVec(cov, w), w, Sigma(cov, w, sqrt), step, Gradient(mu, cov, w, sqrt),
                Candidate(mu, cov, w, step, sqrt), Quad(cov, w));
  }

  lemma StepParts(mu: seq<real>, cov: Matrix, w: seq<real>, step: real, sqrt: real -> real)
    requires |mu| == |w| && IsSquare(cov, |w|) && IsSqrt(sqrt)
    ensures IsGradient(Gradient(mu, cov, w, sqrt), mu, MatVec(cov, w), w, Sigma(cov, w, sqrt))
    ensures Candidate(mu, cov, w, step, sqrt) == Axpy(w, step, Gradient(mu, cov, w, sqrt))
  {
    hide MatVec, Sigma, Axpy, Scale, Dot, Cube;
  }

  ghost predicate IsGradient(g: seq<real>, mu: seq<real>, cw: seq<real>, w: seq<real>, s: real)
    requires |mu| == |cw| == |w| && s > 0.0
  {
    g == Axpy(Scale(1.0 / s, mu), -(Dot(mu, w) / Cube(s)), cw)
  }

  lemma TangentStep(mu: seq<real>, cw: seq<real>, w: seq<real>, s: real, step: real, g: seq<real>, c: seq<real>, v: real)
    requires |mu| == |cw| == |w| == |g| && s > 0.0 && IsGradient(g, mu, cw, w, s) && c == Axpy(w, step, g)
    requires Dot(g, w) == 0.0 && s * s == v
    ensures IsGain(Dot(mu, c), Dot(cw, c), Dot(mu, w), v, step, s, Dot(g, g))
  {
    hide *;
    var p, q := GradientFactors(g, mu, cw, w, s);
    StepAlong(w, step, g, c);
    RidgedDotValues(mu, p, cw, q, c, Dot(mu, c), Dot(cw, c));
    GainProducts(Dot(mu, c), Dot(cw, c), Dot(mu, w), v, step, s, Dot(g, g), Dot(g, c), p, q);
  }

  /** Tangency and norm growth at every iterate on the estimated covariance. */
  lemma EveryStepIsTangent(panel: Panel, shrinkage: real, ln: real -> real, mu: seq<real>, cap: real,
                           projIter: nat, step: real, sqrt: real -> real, k: nat)
    requires 0 < |mu| <= 9999 && IsPanel(panel, |mu|) && IsSqrt(sqrt)
    ensures var cov := Estimate(panel, |mu|, shrinkage, ln);
      var w := Iterate(mu, cov, CodeParams(cap), projIter, step, sqrt, k);
      var g, c := Gradient(mu, cov, w, sqrt), Candidate(mu, cov, w, step, sqrt);
      Dot(g, w) == 0.0 && Dot(c, c) == Dot(w, w) + step * step * Dot(g, g)
  {
    hide Estimate, Iterate, Quad, Gradient, Candidate, Dot;
    var cov := Estimate(panel, |mu|, shrinkage, ln);
    var w := Iterate(mu, cov, CodeParams(cap), projIter, step, sqrt, k);
    IterateVarianceAboveFloor(panel, shrinkage, ln, mu, cap, projIter, step, sqrt, k);
    GradientIsTangent(mu, cov, w, sqrt);
    CandidateNorm(mu, cov, w, step, sqrt);
  }

  // ---------------------------------------------------------------- volatility and Sharpe ratio

  function PortfolioVolatility(w: seq<real>, cov: Matrix, sqrt: real -> real): real
    requires IsSquare(cov, |w|)
  {
    sqrt(Max(Quad(cov, w), 0.0))
  }

  function SharpeProxy(w: seq<real>, mu: seq<real>, cov: Matrix, sqrt: real -> real): real
    requires |mu| == |w| && IsSquare(cov, |w|)
  {
    Ratio(MeanReturn(mu, w), PortfolioVolatility(w, cov, sqrt))
  }

  function MeanReturn(mu: seq<real>, w: seq<real>): real
    requires |mu| == |w|
  {
    Dot(mu, w)
  }

  function Ratio(m: real, vol: real): real {
    if vol <= VOL_THRESHOLD then 0.0 else m / vol
  }

  lemma RootAbove(s: real, v: real)
    requires s > 0.0 && s * s == v && v > VARIANCE_FLOOR
    ensures s > 0.00000001
  {
    assert (s - 0.00000001) * (s + 0.00000001) == s * s - VARIANCE_FLOOR;
    PositiveCofactor(s - 0.00000001, s + 0.00000001);
  }

  /**
    Neither max(var, 0) nor the zero branch of the Sharpe proxy acts on weights
    that sum to 1 within the tolerance: the volatility is the exact root of the
    variance and stays above 1e-8.
  */
  lemma VolatilityIsExact(panel: Panel, shrinkage: real, ln: real -> real, w: seq<real>, sqrt: real -> real)
    requires 0 < |w| <= 9999 && IsPanel(panel, |w|) && IsSqrt(sqrt)
    requires Abs(Sum(w) - 1.0) <= ISCLOSE
    ensures var cov := Estimate(panel, |w|, shrinkage, ln);
      var vol := PortfolioVolatility(w, cov, sqrt);
      vol * vol == Quad(cov, w) && vol > 0.00000001
  {
    hide Estimate, Quad, Sum, PositiveDefinite, PortfolioVolatility, IsSqrt;
    var cov := Estimate(panel, |w|, shrinkage, ln);
    EstimateIsPositiveDefinite(panel, |w|, shrinkage, ln);
    VarianceAboveFloor(cov, w, Max(shrinkage, MIN_RIDGE));
    VolatilityIsRoot(w, cov, sqrt);
  }

  /** So the Sharpe proxy of such weights is the exact ratio. */
  lemma SharpeIsRatio(panel: Panel, shrinkage: real, ln: real -> real, w: seq<real>, mu: seq<real>, sqrt: real -> real)
    requires 0 < |w| <= 9999 && |mu| == |w| && IsPanel(panel, |w|) && IsSqrt(sqrt)
    requires Abs(Sum(w) - 1.0) <= ISCLOSE
    ensures var cov := Estimate(panel, |w|, shrinkage, ln);
      PortfolioVolatility(w, cov, sqrt) != 0.0 &&
      SharpeProxy(w, mu, cov, sqrt) == MeanReturn(mu, w) / PortfolioVolatility(w, cov, sqrt)
  {
    hide Estimate, Quad, Sum, PortfolioVolatility, SharpeProxy, MeanReturn, IsSqrt;
    VolatilityIsExact(panel, shrinkage, ln, w, sqrt);
    SharpeAboveThreshold(w, mu, Estimate(panel, |w|, shrinkage, ln), sqrt);
  }

  lemma SharpeAboveThreshold(w: seq<real>, mu: seq<real>, cov: Matrix, sqrt: real -> real)
    requires |mu| == |w| && IsSquare(cov, |w|) && PortfolioVolatility(w, cov, sqrt) > VOL_THRESHOLD
    ensures SharpeProxy(w, mu, cov, sqrt) == MeanReturn(mu, w) / PortfolioVolatility(w, cov, sqrt)
  {
    hide MeanReturn, PortfolioVolatility;
  }

  /** The volatility is positive exactly when the variance is, and squares to it. */
  lemma VolatilitySquared(w: seq<real>, cov: Matrix, sqrt: real -> real)
    requires IsSquare(cov, |w|) && IsSqrt(sqrt)
    ensures var vol := PortfolioVolatility(w, cov, sqrt);
      if Quad(cov, w) > 0.0 then vol > 0.0 && vol * vol == Quad(cov, w) else vol == 0.0
  {
    hide Quad;
  }

  lemma VolatilityIsRoot(w: seq<real>, cov: Matrix, sqrt: real -> real)
    requires IsSquare(cov, |w|) && IsSqrt(sqrt) && Quad(cov, w) > VARIANCE_FLOOR
    ensures var vol := PortfolioVolatility(w, cov, sqrt); vol * vol == Quad(cov, w) && vol > 0.00000001
  {
    hide Quad, PortfolioVolatility;
    VolatilitySquared(w, cov, sqrt);
    RootAbove(PortfolioVolatility(w, cov, sqrt), Quad(cov, w));
  }

  // ---------------------------------------------------------------- scale invariance

  lemma QuadScale(cov: Matrix, w: seq<real>, k: real)
    requires IsSquare(cov, |w|)
    ensures Quad(cov, Scale(k, w)) == k * (k * Quad(cov, w))
  {
    hide Dot, Scale;
    MatVecScale(cov, w, k);
    var cw := MatVec(cov, w);
    DotScale(k, Scale(k, w), cw);
    DotScale(k, w, cw);
  }

  lemma MatVecScale(cov: Matrix, w: seq<real>, k: real)
    requires IsSquare(cov, |w|)
    ensures MatVec(cov, Scale(k, w)) == Scale(k, MatVec(cov, w))
  {
    hide Dot, Scale;
    forall i | 0 <= i < |w| ensures MatVec(cov, Scale(k, w))[i] == Scale(k, MatVec(cov, w))[i] {
      DotScale(k, cov[i], w);
      ScaleAt(k, MatVec(cov, w), i);
    }
  }

  lemma RootOfSquareMultiple(a: real, b: real, k: real, q: real, q': real)
    requires k > 0.0 && a > 0.0 && b > 0.0 && a * a == q && q' == k * (k * q) && b * b == q'
    ensures b == k * a
  {
    SquareOfProduct(k, a, q);
    PositiveProduct(k, a);
    SamePositiveRoot(b, k * a);
  }

  lemma SquareOfProduct(k: real, a: real, q: real)
    requires a * a == q
    ensures (k * a) * (k * a) == k * (k * q)
  {
    assert (k * a) * (k * a) == k * (k * (a * a));
  }

  lemma SamePositiveRoot(b: real, c: real)
    requires b > 0.0 && c > 0.0 && b * b == c * c
    ensures b == c
  {
    assert (b - c) * (b + c) == b * b - c * c;
  }

  lemma VolatilityScale(w: seq<real>, cov: Matrix, sqrt: real -> real, k: real)
    requires IsSquare(cov, |w|) && IsSqrt(sqrt) && k > 0.0
    ensures PortfolioVolatility(Scale(k, w), cov, sqrt) == k * PortfolioVolatility(w, cov, sqrt)
  {
    hide Quad, Scale, PortfolioVolatility, IsSqrt;
    QuadScale(cov, w, k);
    VolatilitySquared(w, cov, sqrt);
    VolatilitySquared(Scale(k, w), cov, sqrt);
    ScaledRoot(PortfolioVolatility(w, cov, sqrt), PortfolioVolatility(Scale(k, w), cov, sqrt), k,
               Quad(cov, w), Quad(cov, Scale(k, w)));
  }

  lemma ScaledRoot(a: real, b: real, k: real, q: real, q': real)
    requires k > 0.0 && q' == k * (k * q)
    requires if q > 0.0 then a > 0.0 && a * a == q else a == 0.0
    requires if q' > 0.0 then b > 0.0 && b * b == q' else b == 0.0
    ensures b == k * a
  {
    ScaledSign(k, q, q');
    if q > 0.0 {
      RootOfSquareMultiple(a, b, k, q, q');
    }
  }

  lemma ScaledSign(k: real, x: real, y: real)
    requires k > 0.0 && y == k * (k * x)
    ensures x > 0.0 ==> y > 0.0
    ensures x <= 0.0 ==> y <= 0.0
  {
    var t := k * x;
    assert y == k * t;
    assert x > 0.0 ==> t > 0.0;
    assert x <= 0.0 ==> t <= 0.0 by {
      if x <= 0.0 {
        ProductNonNegative(k, -x);
      }
    }
    if t <= 0.0 {
      ProductNonNegative(k, -t);
    } else {
      PositiveProduct(k, t);
    }
  }

  lemma RatioScale(k: real, m: real, v: real)
    requires k > 0.0 && v > 0.0 && k * v > 0.0
    ensures (k * m) / (k * v) == m / v
    ensures m / v == 0.0 <==> m == 0.0
  {
    var r := m / v;
    assert r * v == m;
    assert r * (k * v) == k * m;
  }

  /**
    Scaling the weights by k > 0 leaves the Sharpe proxy unchanged if and only if
    the volatility stays on its side of the threshold, or the mean return is 0.
  */
  lemma SharpeScaleInvariantExactlyWhen(w: seq<real>, mu: seq<real>, cov: Matrix, sqrt: real -> real, k: real)
    requires |mu| == |w| && IsSquare(cov, |w|) && IsSqrt(sqrt) && k > 0.0
    ensures var vol := PortfolioVolatility(w, cov, sqrt);
      SharpeProxy(Scale(k, w), mu, cov, sqrt) == SharpeProxy(w, mu, cov, sqrt) <==>
      ((vol <= VOL_THRESHOLD <==> k * vol <= VOL_THRESHOLD) || MeanReturn(mu, w) == 0.0)
  {
    SharpeInvarianceFor(w, Scale(k, w), mu, cov, sqrt, k);
  }

  lemma SharpeInvarianceFor(w: seq<real>, scaled: seq<real>, mu: seq<real>, cov: Matrix, sqrt: real -> real, k: real)
    requires |mu| == |w| && IsSquare(cov, |w|) && IsSqrt(sqrt) && k > 0.0 && scaled == Scale(k, w)
    ensures var vol := PortfolioVolatility(w, cov, sqrt);
      SharpeProxy(scaled, mu, cov, sqrt) == SharpeProxy(w, mu, cov, sqrt) <==>
      ((vol <= VOL_THRESHOLD <==> k * vol <= VOL_THRESHOLD) || MeanReturn(mu, w) == 0.0)
  {
    VolatilityScale(w, cov, sqrt, k);
    MeanReturnScale(mu, w, k);
    var m, vol := MeanReturn(mu, w), PortfolioVolatility(w, cov, sqrt);
    var m', vol' := MeanReturn(mu, scaled), PortfolioVolatility(scaled, cov, sqrt);
    assert m' == k * m && vol' == k * vol;
    hide *;
    SharpeCases(k, m, vol, m', vol');
    SharpeIsRatioOf(scaled, mu, cov, sqrt);
    SharpeIsRatioOf(w, mu, cov, sqrt);
  }

  lemma SharpeIsRatioOf(w: seq<real>, mu: seq<real>, cov: Matrix, sqrt: real -> real)
    requires |mu| == |w| && IsSquare(cov, |w|)
    ensures SharpeProxy(w, mu, cov, sqrt) == Ratio(MeanReturn(mu, w), PortfolioVolatility(w, cov, sqrt))
  {
    hide Ratio;
  }

  lemma MeanReturnScale(mu: seq<real>, w: seq<real>, k: real)
    requires |mu| == |w|
    ensures MeanReturn(mu, Scale(k, w)) == k * MeanReturn(mu, w)
  {
    DotScale(k, mu, w);
  }

  lemma SharpeCases(k: real, m: real, vol: real, m': real, vol': real)
    requires k > 0.0 && m' == k * m && vol' == k * vol
    ensures Ratio(m', vol') == Ratio(m, vol) <==>
      ((vol <= VOL_THRESHOLD <==> k * vol <= VOL_THRESHOLD) || m == 0.0)
  {
    if vol > VOL_THRESHOLD || k * vol > VOL_THRESHOLD {
      if vol <= 0.0 {
        ProductNonNegative(k, -vol);
      }
      PositiveProduct(k, vol);
      RatioScale(k, m, vol);
    }
  }

}
