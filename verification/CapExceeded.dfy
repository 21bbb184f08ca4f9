/**
  A mean vector and a covariance for which the engine's target weights exceed the
  cap: the optimiser's first candidate leaves too few positive weights to hold 1.
*/
module CapExceeded {
  import opened Reals
  import opened Projection
  import opened ProjectionTheorems
  import opened ProjectionCap
  import opened Covariance
  import opened Optimizer
  import opened Allocation

  lemma PairSums(a: real, b: real, p: Params)
    ensures Sum([a, b]) == a + b
    ensures FreeCount([a, b], p) == (if Free(a, p) then 1 else 0) + (if Free(b, p) then 1 else 0)
  {
    assert [a, b][1..] == [b] && [b][1..] == [];
    assert Sum([b]) == b + Sum([]) && FreeCount([b], p) == (if Free(b, p) then 1 else 0) + FreeCount([], p);
  }

  lemma PairDot(a: real, b: real, c: real, d: real)
    ensures Dot([a, b], [c, d]) == a * c + b * d
  {
    assert [a, b][1..] == [b] && [c, d][1..] == [d] && [b][1..] == [] && [d][1..] == [];
    assert Dot([b], [d]) == b * d + Dot([], []);
  }

  lemma PairAxpy(a: seq<real>, k: real, b: seq<real>, x: real, y: real)
    requires |a| == |b| == 2 && x == a[0] + k * b[0] && y == a[1] + k * b[1]
    ensures Axpy(a, k, b) == [x, y]
  {
    var r := Axpy(a, k, b);
    AxpyAt(a, k, b, 0);
    AxpyAt(a, k, b, 1);
    assert r[0] == x && r[1] == y;
  }

  lemma PairScale(k: real, a: seq<real>, x: real, y: real)
    requires |a| == 2 && x == k * a[0] && y == k * a[1]
    ensures Scale(k, a) == [x, y]
  {
    var r := Scale(k, a);
    ScaleAt(k, a, 0);
    ScaleAt(k, a, 1);
    assert r[0] == x && r[1] == y;
  }

  /** Without prices the estimate is the ridge alone. */
  lemma RidgeOnly(ln: real -> real)
    ensures IsPanel([], 2) && Estimate([], 2, 2.0, ln) == [[2.0, 0.0], [0.0, 2.0]]
  {
    var c := Estimate([], 2, 2.0, ln);
    assert ReturnMatrix([], 2, ln) == [];
    assert c[0][0] == 2.0 && c[0][1] == 0.0 && c[1][0] == 0.0 && c[1][1] == 2.0;
    assert c[0] == [2.0, 0.0] && c[1] == [0.0, 2.0];
  }

  lemma RootOfOne(sqrt: real -> real)
    requires IsSqrt(sqrt)
    ensures sqrt(Max(1.0, VARIANCE_FLOOR)) == 1.0
  {
    var s := sqrt(1.0);
    assert s * s == 1.0 && s > 0.0;
    hide IsSqrt;
    SamePositiveRoot(s, 1.0);
  }

  /** Variance 1, mean return 5: the gradient moves 5 from the second weight to the first. */
  lemma FirstGradient(cov: Matrix, sqrt: real -> real)
    requires IsSqrt(sqrt) && cov == [[2.0, 0.0], [0.0, 2.0]]
    ensures IsSquare(cov, 2) && Gradient([10.0, 0.0], cov, [0.5, 0.5], sqrt) == [5.0, -5.0]
  {
    var w, mu := [0.5, 0.5], [10.0, 0.0];
    PairDot(2.0, 0.0, 0.5, 0.5);
    PairDot(0.0, 2.0, 0.5, 0.5);
    PairDot(0.5, 0.5, 1.0, 1.0);
    PairDot(10.0, 0.0, 0.5, 0.5);
    hide Dot, Axpy, Scale, IsSqrt;
    assert MatVec(cov, w) == [1.0, 1.0];
    assert Quad(cov, w) == 1.0;
    hide Quad, MatVec;
    RootOfOne(sqrt);
    assert Sigma(cov, w, sqrt) == 1.0;
    hide Sigma;
    assert Cube(1.0) == 1.0;
    PairScale(1.0, mu, 10.0, 0.0);
    PairAxpy(mu, -5.0, [1.0, 1.0], 5.0, -5.0);
  }

  lemma CandidateIsClipped(p: Params)
    requires p == CodeParams(0.6)
    ensures Project([5.5, -4.5], p, 200) == [1.0, 0.0]
  {
    var w, v := [5.5, -4.5], [0.6, 0.0];
    assert ClipAll(w, 0.6) == v;
    PairSums(0.6, 0.0, p);
    assert Passes(v, p, 200) == v;
    hide Passes, ClipAll, FreeCount;
    PairScale(1.0 / 0.6, v, 1.0, 0.0);
  }

  lemma FirstIterate(cov: Matrix, p: Params, sqrt: real -> real)
    requires IsSqrt(sqrt) && cov == [[2.0, 0.0], [0.0, 2.0]] && p == CodeParams(0.6)
    ensures IsSquare(cov, 2) && Iterate([10.0, 0.0], cov, p, 200, 1.0, sqrt, 1) == [1.0, 0.0]
  {
    FirstGradient(cov, sqrt);
    CandidateIsClipped(p);
    PairAxpy([0.5, 0.5], 1.0, [5.0, -5.0], 5.5, -4.5);
    hide Gradient, Project, Axpy, IsSqrt;
    assert Const(2, 1.0 / 2 as real) == [0.5, 0.5];
    assert Candidate([10.0, 0.0], cov, [0.5, 0.5], 1.0, sqrt) == [5.5, -4.5];
    hide Candidate;
    assert Iterate([10.0, 0.0], cov, p, 200, 1.0, sqrt, 0) == [0.5, 0.5];
  }

  lemma EqualVolatilities(p: Params)
    requires p == CodeParams(0.6)
    ensures Project(RawWeights([1.0, 1.0]), p, 200) == [0.5, 0.5]
  {
    assert InverseVols([1.0, 1.0]) == [1.0, 1.0];
    PairSums(1.0, 1.0, p);
    PairScale(0.5, [1.0, 1.0], 0.5, 0.5);
    PairSums(0.5, 0.5, p);
    assert ClipAll([0.5, 0.5], 0.6) == [0.5, 0.5];
    hide Sum, Scale, ClipAll, Passes, InverseVols;
  }

  lemma MissingForecasts(opt: seq<real>, p: Params)
    requires opt == [1.0, 0.0]
    ensures TargetWeights(opt, [0.0, 0.0], p, 200) == opt
  {
    hide Project, RawWeights, Normalize;
    assert [0.0, 0.0][0] <= 0.0;
  }

  lemma EqualForecasts(opt: seq<real>, p: Params)
    requires opt == [1.0, 0.0] && p == CodeParams(0.6)
    ensures TargetWeights(opt, [1.0, 1.0], p, 200) == [0.75, 0.25]
  {
    var mixed := [0.75, 0.25];
    hide Sum, Scale, Project, RawWeights, FreeCount, Normalize;
    EqualVolatilities(p);
    assert Mix(opt, [0.5, 0.5]) == mixed;
    PairSums(0.75, 0.25, p);
    NormalizeIsScale(mixed);
    ScaleByOne(mixed);
    hide Mix;
    assert 1.0 / Sum(mixed) == 1.0;
  }

  /**
    At the code's values, a cap of 0.6 and one step of size 1: with the forecasts
    missing the target is (1, 0), with equal forecasts (0.75, 0.25).
  */
  lemma TargetCanExceedCap(ln: real -> real, sqrt: real -> real)
    requires IsSqrt(sqrt)
    ensures IsPanel([], 2)
    ensures var opt := Iterate([10.0, 0.0], Estimate([], 2, 2.0, ln), CodeParams(0.6), 200, 1.0, sqrt, 1);
      && TargetWeights(opt, [0.0, 0.0], CodeParams(0.6), 200) == [1.0, 0.0]
      && TargetWeights(opt, [1.0, 1.0], CodeParams(0.6), 200) == [0.75, 0.25]
  {
    hide *;
    RidgeOnly(ln);
    FirstIterate(Estimate([], 2, 2.0, ln), CodeParams(0.6), sqrt);
    MissingForecasts([1.0, 0.0], CodeParams(0.6));
    EqualForecasts([1.0, 0.0], CodeParams(0.6));
  }
}
