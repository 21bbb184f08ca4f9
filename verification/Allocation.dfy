/**
  Inverse-volatility weights and the blend with the optimiser's weights: the
  target weights of a rebalance.
*/
module Allocation {
  import opened Reals
  import opened Projection
  import opened ProjectionTheorems
  import opened ProjectionCap
  import opened ProjectionSlack
  import opened CapSlack
  import opened Covariance
  import opened Optimizer

  const VOL_FLOOR: real := 0.000000000001

  /** An optimiser weight below minus this makes the engine fall back to equal weights. */
  const NEGATIVE_TOLERANCE: real := 0.000000000001

  // ---------------------------------------------------------------- inverse volatility

  function SafeVol(vol: real): (s: real)
    ensures s > 0.0
  {
    if vol > VOL_FLOOR then vol else VOL_FLOOR
  }

  function InverseVols(vols: seq<real>): (inv: seq<real>)
    ensures |inv| == |vols|
    ensures Positive(inv)
  {
    seq(|vols|, i requires 0 <= i < |vols| => 1.0 / SafeVol(vols[i]))
  }

  /** inv / inv.sum(), or equal weights should the sum not be positive. */
  function RawWeights(vols: seq<real>): (raw: seq<real>)
    requires |vols| > 0
    ensures |raw| == |vols|
  {
    Normalize(InverseVols(vols))
  }

  /** Without symbols the fallback 1.0 / len(inv) divides by zero. */
  method InverseVolWeights(vols: seq<real>, p: Params, maxIter: nat) returns (r: Result<seq<real>>)
    requires p.Valid()
    ensures |vols| == 0 ==> r == ZeroDivision
    ensures |vols| > 0 ==> r == Success(Project(RawWeights(vols), p, maxIter))
  {
    if |vols| == 0 {
      return ZeroDivision;
    }
    r := ProjectWeights(RawWeights(vols), p, maxIter);
  }

  lemma {:induction false} SumPositive(v: seq<real>)
    requires |v| > 0 && Positive(v)
    ensures Sum(v) > 0.0
  {
    if |v| > 1 {
      SumPositive(v[1..]);
    }
  }

  lemma RawIsPositive(vols: seq<real>)
    requires |vols| > 0
    ensures Positive(RawWeights(vols)) && Sum(RawWeights(vols)) == 1.0
  {
    var inv := InverseVols(vols);
    hide InverseVols, Normalize, Sum;
    SumPositive(inv);
    NormalizeIsScale(inv);
    DivideByTotal(inv);
    ScalePositive(Sum(inv), inv);
  }

  /** The volatility a weight is computed from: the forecast, or 1e-12 where it is no larger. */
  ghost predicate IsVolUsed(x: real, vol: real) {
    if vol <= 0.000000000001 then x == 0.000000000001 else x == vol
  }

  lemma CrossProducts(q: real, a: real, b: real, x: real, y: real)
    requires a * x == 1.0 && b * y == 1.0
    ensures (q * a) * x == (q * b) * y
  {
    assert (q * a) * x == q * (a * x) && (q * b) * y == q * (b * y);
  }

  /** The raw weights are to each other as the reciprocals of the volatilities; as they sum to 1, this fixes them. */
  lemma RawIsInverselyProportional(vols: seq<real>, i: nat, j: nat, x: real, y: real)
    requires i < |vols| && j < |vols| && IsVolUsed(x, vols[i]) && IsVolUsed(y, vols[j])
    ensures Sum(RawWeights(vols)) == 1.0 && RawWeights(vols)[i] > 0.0
    ensures RawWeights(vols)[i] * x == RawWeights(vols)[j] * y
  {
    hide *;
    RawIsPositive(vols);
    var q := RawIsShare(vols, InverseVols(vols), i, j);
    InverseVolTimes(vols, i, x);
    InverseVolTimes(vols, j, y);
    CrossProducts(q, InverseVols(vols)[i], InverseVols(vols)[j], x, y);
    PositiveAt(RawWeights(vols), i);
  }

  lemma PositiveAt(w: seq<real>, i: nat)
    requires Positive(w) && i < |w|
    ensures w[i] > 0.0
  {
  }

  lemma InverseVolTimes(vols: seq<real>, i: nat, x: real)
    requires i < |vols| && IsVolUsed(x, vols[i])
    ensures InverseVols(vols)[i] * x == 1.0
  {
    assert x == SafeVol(vols[i]);
    Reciprocal(x);
  }

  lemma RawIsShare(vols: seq<real>, inv: seq<real>, i: nat, j: nat) returns (q: real)
    requires i < |vols| && j < |vols| && inv == InverseVols(vols)
    ensures RawWeights(vols)[i] == q * inv[i] && RawWeights(vols)[j] == q * inv[j]
  {
    RawIsNormalized(vols, inv);
    hide *;
    SumPositive(inv);
    NormalizeIsScale(inv);
    q := 1.0 / Sum(inv);
    ScaledEntry(q, inv, RawWeights(vols), i);
    ScaledEntry(q, inv, RawWeights(vols), j);
  }

  lemma ScaledEntry(q: real, v: seq<real>, r: seq<real>, i: nat)
    requires i < |v| && r == Scale(q, v)
    ensures r[i] == q * v[i]
  {
    ScaleAt(q, v, i);
    hide *;
  }

  lemma RawIsNormalized(vols: seq<real>, inv: seq<real>)
    requires |vols| > 0 && inv == InverseVols(vols)
    ensures |inv| == |vols| && Positive(inv) && RawWeights(vols) == Normalize(inv)
  {
    hide Normalize;
  }

  lemma ScalePositive(t: real, v: seq<real>)
    requires t > 0.0 && Positive(v)
    ensures Positive(Scale(1.0 / t, v))
  {
    Reciprocal(t);
    var r := Scale(1.0 / t, v);
    forall i | 0 <= i < |v| ensures r[i] > 0.0 {
      ScaleAt(1.0 / t, v, i);
      PositiveProduct(1.0 / t, v[i]);
    }
  }

  lemma {:induction false} ClipOnlyLowers(w: seq<real>, cap: real)
    requires Positive(w)
    ensures Sum(ClipAll(w, cap)) <= Sum(w)
  {
    if |w| != 0 {
      ClipOnlyLowers(w[1..], cap);
    }
  }

  /**
    At zero tolerances, inverse-volatility weights are exactly the projection of
    the normalised inverse volatilities onto the capped simplex - and equal
    weights when no vector meets the cap - for every input, cap and symbol
    count. InverseVolNearExactlyWhen says what is left of this at the code's
    tolerances.
  */
  lemma InverseVolIsProjection(vols: seq<real>, p: Params, maxIter: nat)
    requires p.Valid() && p.Exact() && 0 < |vols| <= maxIter
    ensures var raw, r := RawWeights(vols), Project(RawWeights(vols), p, maxIter);
      if Multiple(|vols|, p.cap) >= 1.0
      then
        && Feasible(r, p.cap)
        && (exists theta :: theta >= 0.0 && r == Level(raw, p.cap, theta))
        && (forall x :: |x| == |raw| && Feasible(x, p.cap) ==> Dist2(x, raw) >= Dist2(r, raw) + Dist2(x, r))
      else r == Const(|vols|, 1.0 / |vols| as real)
  {
    hide RawWeights, Project, Dist2, Feasible, Sum;
    RawIsPositive(vols);
    ClipOnlyLowers(RawWeights(vols), p.cap);
    if Multiple(|vols|, p.cap) >= 1.0 {
      var theta := ProjectIsEuclideanProjection(RawWeights(vols), p, maxIter);
    } else {
      ProjectWithInfeasibleCap(RawWeights(vols), p, maxIter);
    }
  }

  lemma RawIsLifted(vols: seq<real>, cap: real)
    requires 0 < |vols| <= 200 && Multiple(|vols|, cap) >= 1.0
    ensures Lifted(RawWeights(vols), CodeParams(cap)) > 0
  {
    hide RawWeights, Sum, Multiple;
    RawIsPositive(vols);
    SomeRawIsLifted(RawWeights(vols), cap);
  }

  lemma SomeRawIsLifted(raw: seq<real>, cap: real)
    requires 0 < |raw| <= 200 && Multiple(|raw|, cap) >= 1.0 && Sum(raw) == 1.0
    ensures Lifted(raw, CodeParams(cap)) > 0
  {
    hide Sum, Multiple;
    var p := CodeParams(cap);
    CodeBand(|raw|, cap);
    if Lifted(raw, p) == 0 {
      NothingIsFree(ClipAll(raw, cap), p);
      SumAtMostCaps(raw, p.band);
      MultipleIsProduct(|raw|, p.band);
    }
  }

  /**
    The same at the code's tolerances, for every input of at most 200 symbols
    and a cap they can meet. An early return is within the isclose tolerance of
    the exact projection. Otherwise the result is within twice max(1e-10,
    n 1e-12) of it if and only if every normalised inverse volatility is above
    the freezing band 1e-12.
  */
  lemma InverseVolNearExactlyWhen(vols: seq<real>, cap: real, maxIter: nat)
    requires 0 < |vols| <= 200 && |vols| <= maxIter && Multiple(|vols|, cap) >= 1.0
    ensures var raw, p := RawWeights(vols), CodeParams(cap);
      var r, exact := Project(raw, p, maxIter), Project(raw, ExactOf(p), maxIter);
      if Accepted(raw, p) then Near(r, exact, p.close)
      else Near(r, exact, 2.0 * Slack(|vols|, p)) <==> AboveBand(raw, p.band)
  {
    hide RawWeights, Project, Near, AboveBand, Sum, Multiple, Accepted, Slack;
    var raw, p := RawWeights(vols), CodeParams(cap);
    RawIsPositive(vols);
    ClipOnlyLowers(raw, cap);
    if Accepted(raw, p) {
      AcceptedNearExact(raw, p, maxIter);
    } else {
      RawIsLifted(vols, cap);
      NearExactlyWhen(raw, cap, maxIter);
    }
  }

  lemma ExampleShares(s: real, q: real)
    requires s == 1000000000002.0 && q * s == 1.0
    ensures q * 1000000000000.0 >= 0.6 && 0.0 < q * 1.0 < 0.000000000001
  {
  }

  /** So positive forecasts can break the cap: here 0.6 becomes more than 0.99. */
  lemma InverseVolBandExample()
    ensures Project(RawWeights([0.000000000001, 1.0, 1.0]), CodeParams(0.6), 200)[0] > 0.99
  {
    var vols, p := [0.000000000001, 1.0, 1.0], CodeParams(0.6);
    var inv := InverseVols(vols);
    assert inv == [1000000000000.0, 1.0, 1.0];
    Triple(1000000000000.0, 1.0, 1.0, p);
    var q := 1.0 / Sum(inv);
    Reciprocal(Sum(inv));
    ExampleShares(Sum(inv), q);
    var raw := RawWeights(vols);
    NormalizeIsScale(inv);
    ScaleAt(q, inv, 0);
    ScaleAt(q, inv, 1);
    ScaleAt(q, inv, 2);
    hide RawWeights, InverseVols;
    FrozenExample(raw, p);
  }

  lemma FrozenExample(raw: seq<real>, p: Params)
    requires |raw| == 3 && p == CodeParams(0.6)
    requires raw[0] >= 0.6 && 0.0 < raw[1] < 0.000000000001 && 0.0 < raw[2] < 0.000000000001
    ensures Project(raw, p, 200)[0] > 0.99
  {
    var v := ClipAll(raw, 0.6);
    assert v == [0.6, raw[1], raw[2]];
    Triple(0.6, raw[1], raw[2], p);
    assert Passes(v, p, 200) == v;
    NormalizeIsScale(v);
    hide Passes, ClipAll;
    Reciprocal(Sum(v));
    ScaleAt(1.0 / Sum(v), v, 0);
    FirstShare(1.0 / Sum(v), Sum(v));
  }

  lemma FirstShare(q: real, t: real)
    requires q > 0.0 && q * t == 1.0 && 0.6 < t < 0.600000000002
    ensures q * 0.6 > 0.99
  {
  }

  // ---------------------------------------------------------------- order

  lemma ReciprocalAntitone(a: real, b: real)
    requires 0.0 < a <= b
    ensures 1.0 / b <= 1.0 / a
  {
    var x, y := 1.0 / a, 1.0 / b;
    Reciprocal(a);
    Reciprocal(b);
    ProductNonNegative(x * y, b - a);
    assert (x * y) * (b - a) == x * (y * b) - y * (x * a);
  }

  lemma LowerVolHigherRaw(vols: seq<real>, i: nat, j: nat)
    requires i < |vols| && j < |vols| && vols[i] <= vols[j]
    ensures RawWeights(vols)[j] <= RawWeights(vols)[i]
  {
    var inv := InverseVols(vols);
    ReciprocalAntitone(SafeVol(vols[i]), SafeVol(vols[j]));
    assert inv[j] <= inv[i];
    hide InverseVols, Normalize, Sum;
    SumPositive(inv);
    NormalizeKeepsOrder(inv, 0.0, j, i);
    NoBand(Sum(inv));
  }

  lemma NoBand(t: real)
    requires t > 0.0
    ensures (1.0 / t) * 0.0 == 0.0
  {
  }

  /**
    A lower forecast volatility never receives a smaller weight, for any cap -
    up to the freezing band divided by the final total, so exactly at band 0.
  */
  lemma LowerVolNeverSmallerWeight(vols: seq<real>, p: Params, maxIter: nat, i: nat, j: nat)
    requires p.Valid() && i < |vols| && j < |vols| && vols[i] <= vols[j]
    ensures var raw := RawWeights(vols);
      var r, t := Project(raw, p, maxIter), Sum(Final(raw, p, maxIter));
      && (if Accepted(raw, p) || t <= 0.0 then r[j] <= r[i] else r[j] <= r[i] + (1.0 / t) * p.band)
      && (p.band == 0.0 ==> r[j] <= r[i])
  {
    hide RawWeights, Project, Accepted, Final, Sum;
    LowerVolHigherRaw(vols, i, j);
    ProjectKeepsOrder(RawWeights(vols), p, maxIter, j, i);
  }

  // ---------------------------------------------------------------- the target weights

  predicate AnyBelow(w: seq<real>, bound: real) {
    exists i :: 0 <= i < |w| && w[i] < bound
  }

  predicate AnyNonPositive(vols: seq<real>) {
    exists i :: 0 <= i < |vols| && vols[i] <= 0.0
  }

  /** The fallback to equal weights for an optimiser result with a negative weight. */
  function Guarded(opt: seq<real>): (w: seq<real>)
    requires |opt| > 0
    ensures |w| == |opt|
  {
    if AnyBelow(opt, -NEGATIVE_TOLERANCE) then Const(|opt|, 1.0 / |opt| as real) else opt
  }

  /** 0.5 * a + 0.5 * b. */
  function Mix(a: seq<real>, b: seq<real>): (m: seq<real>)
    requires |a| == |b|
    ensures |m| == |a|
    ensures forall i :: 0 <= i < |a| ==> m[i] == 0.5 * a[i] + 0.5 * b[i]
  {
    if |a| == 0 then [] else [0.5 * a[0] + 0.5 * b[0]] + Mix(a[1..], b[1..])
  }

  /** Optimiser weights alone if some forecast is missing, else the normalised blend. */
  function TargetWeights(opt: seq<real>, vols: seq<real>, p: Params, maxIter: nat): (w: seq<real>)
    requires 0 < |opt| == |vols|
    ensures |w| == |opt|
  {
    var o := Guarded(opt);
    if AnyNonPositive(vols) then o else Normalize(Mix(o, Project(RawWeights(vols), p, maxIter)))
  }

  method ComputeTargetWeights(mu: seq<real>, cov: Matrix, vols: seq<real>, p: Params, projIter: nat, maxIters: nat,
                              step: real, sqrt: real -> real)
    returns (r: Result<seq<real>>)
    requires p.Valid() && |vols| == |mu| && IsSquare(cov, |mu|) && IsSqrt(sqrt)
    ensures |mu| == 0 ==> r == ZeroDivision
    ensures |mu| > 0 ==>
      r == Success(TargetWeights(Iterate(mu, cov, p, projIter, step, sqrt, maxIters), vols, p, projIter))
  {
    hide Project, Iterate, RawWeights;
    var opt := OptimizeSharpeProxy(mu, cov, p, projIter, maxIters, step, sqrt);
    if AnyBelow(opt, -NEGATIVE_TOLERANCE) {
      opt := Const(|opt|, 1.0 / |opt| as real);
    }
    var iv := InverseVolWeights(vols, p, projIter);
    if iv.ZeroDivision? {
      return ZeroDivision;
    }
    if AnyNonPositive(vols) {
      return Success(opt);
    }
    var weights := Mix(opt, iv.value);
    var total := Sum(weights);
    assert total > 0.0 by {
      IterateIsLongOnly(mu, cov, p, projIter, step, sqrt, maxIters);
      ProjectIsLongOnlyFullyInvested(RawWeights(vols), p, projIter);
      MixSum(opt, iv.value);
    }
    return Success(Scale(1.0 / total, weights));
  }

  lemma {:induction false} MixSum(a: seq<real>, b: seq<real>)
    requires |a| == |b|
    ensures Sum(Mix(a, b)) == 0.5 * Sum(a) + 0.5 * Sum(b)
  {
    if |a| != 0 {
      MixSum(a[1..], b[1..]);
    }
  }

  /**
    Whatever the optimiser's iteration count: the negative-weight fallback is
    never taken, the target weights are non-negative, they sum to 1 within the
    isclose tolerance, and to exactly 1 when every forecast is present.
  */
  lemma TargetIsLongOnlyFullyInvested(mu: seq<real>, cov: Matrix, vols: seq<real>, p: Params, projIter: nat,
                                      step: real, sqrt: real -> real, k: nat)
    requires p.Valid() && 0 < |mu| == |vols| && IsSquare(cov, |mu|) && IsSqrt(sqrt)
    ensures var opt := Iterate(mu, cov, p, projIter, step, sqrt, k);
      var w := TargetWeights(opt, vols, p, projIter);
      && Guarded(opt) == opt
      && LongOnly(w, p)
      && (!AnyNonPositive(vols) ==> Sum(w) == 1.0)
  {
    hide Project, Iterate, RawWeights, Normalize;
    var opt := Iterate(mu, cov, p, projIter, step, sqrt, k);
    IterateIsLongOnly(mu, cov, p, projIter, step, sqrt, k);
    ProjectIsLongOnlyFullyInvested(RawWeights(vols), p, projIter);
    BlendIsLongOnly(opt, Project(RawWeights(vols), p, projIter), p);
  }

  /**
    With a forecast missing, the target weights are the optimiser's alone;
    otherwise each is proportional to the sum of the optimiser's and the
    inverse-volatility weight, both in the same measure.
  */
  lemma TargetIsBlend(mu: seq<real>, cov: Matrix, vols: seq<real>, p: Params, projIter: nat,
                      step: real, sqrt: real -> real, k: nat, i: nat)
    requires p.Valid() && 0 < |mu| == |vols| && IsSquare(cov, |mu|) && IsSqrt(sqrt) && i < |mu|
    ensures var opt, iv := Iterate(mu, cov, p, projIter, step, sqrt, k), Project(RawWeights(vols), p, projIter);
      IsBlend(TargetWeights(opt, vols, p, projIter), opt, iv, vols, i)
  {
    hide Iterate, Project, RawWeights, TargetWeights, Sum, IsBlend;
    var opt, iv := Iterate(mu, cov, p, projIter, step, sqrt, k), Project(RawWeights(vols), p, projIter);
    IterateIsLongOnly(mu, cov, p, projIter, step, sqrt, k);
    ProjectIsLongOnlyFullyInvested(RawWeights(vols), p, projIter);
    BlendOf(opt, vols, p, projIter, iv, i);
  }

  ghost predicate IsBlend(w: seq<real>, opt: seq<real>, iv: seq<real>, vols: seq<real>, i: nat)
    requires i < |w| == |opt| == |iv|
  {
    if exists j :: 0 <= j < |vols| && vols[j] <= 0.0 then w[i] == opt[i]
    else IsFraction(w[i], Sum(opt) + Sum(iv), opt[i] + iv[i])
  }

  lemma BlendOf(opt: seq<real>, vols: seq<real>, p: Params, projIter: nat, iv: seq<real>, i: nat)
    requires p.Valid() && i < |opt| == |vols| && iv == Project(RawWeights(vols), p, projIter)
    requires LongOnly(opt, p) && LongOnly(iv, p)
    ensures IsBlend(TargetWeights(opt, vols, p, projIter), opt, iv, vols, i)
  {
    BlendIsLongOnly(opt, iv, p);
    BlendShares(opt, iv, p, i);
    TargetCases(opt, vols, p, projIter, iv);
    hide LongOnly, Mix, Normalize, TargetWeights, Sum, IsFraction;
  }

  lemma TargetCases(opt: seq<real>, vols: seq<real>, p: Params, projIter: nat, iv: seq<real>)
    requires 0 < |opt| == |vols| && iv == Project(RawWeights(vols), p, projIter) && Guarded(opt) == opt
    ensures TargetWeights(opt, vols, p, projIter) ==
      if exists j :: 0 <= j < |vols| && vols[j] <= 0.0 then opt else Normalize(Mix(opt, iv))
  {
    hide Guarded, Normalize, Mix, Project, RawWeights;
  }

  lemma BlendShares(a: seq<real>, b: seq<real>, p: Params, i: nat)
    requires p.Valid() && i < |a| == |b| && LongOnly(a, p) && LongOnly(b, p)
    ensures IsFraction(Normalize(Mix(a, b))[i], Sum(a) + Sum(b), a[i] + b[i])
  {
    hide *;
    var m := Mix(a, b);
    MixSum(a, b);
    BlendIsLongOnly(a, b, p);
    NormalizeIsScale(m);
    Reciprocal(Sum(m));
    var q, r := 1.0 / Sum(m), Normalize(m);
    ScaledEntry(q, m, r, i);
    HalvesCancel(q, m[i], r[i], Sum(m), a[i] + b[i], Sum(a) + Sum(b));
  }

  lemma HalvesCancel(q: real, x: real, r: real, t: real, y: real, u: real)
    requires r == q * x && q * t == 1.0 && 2.0 * x == y && 2.0 * t == u
    ensures IsFraction(r, u, y)
  {
    assert (q * x) * (2.0 * t) == (2.0 * x) * (q * t);
  }

  lemma BlendIsLongOnly(a: seq<real>, b: seq<real>, p: Params)
    requires p.Valid() && 0 < |a| == |b| && LongOnly(a, p) && LongOnly(b, p)
    ensures Guarded(a) == a
    ensures Sum(Mix(a, b)) > 0.0
    ensures NonNegative(Normalize(Mix(a, b))) && Sum(Normalize(Mix(a, b))) == 1.0
  {
    hide Normalize;
    MixSum(a, b);
    NormalizeSumsToOne(Mix(a, b));
  }

  /** With zero tolerances, the blend keeps the cap whenever both of its parts do. */
  lemma BlendKeepsCap(a: seq<real>, b: seq<real>, cap: real)
    requires 0 < |a| == |b| && Feasible(a, cap) && Feasible(b, cap)
    ensures Normalize(Mix(a, b)) == Mix(a, b) && Feasible(Mix(a, b), cap)
  {
    MixSum(a, b);
    ScaleByOne(Mix(a, b));
  }

  /** x is at most cap / g. */
  ghost predicate AtMostShare(x: real, g: real, cap: real) {
    x * g <= cap
  }

  /** h is at most g times the total t. */
  ghost predicate AtMostOf(h: real, g: real, t: real) {
    h <= g * t
  }

  lemma BlendShare(x: real, m: real, q: real, t: real, g: real, h: real, cap: real)
    requires x == q * m && m >= 0.0 && AtMostShare(m, g, cap) && q > 0.0 && q * t == 1.0 && AtMostOf(h, g, t)
    ensures AtMostShare(x, h, cap)
  {
    ProductNonNegative(q, m);
    ProductNonNegative(x, g * t - h);
    assert x * (g * t - h) == (q * t) * (m * g) - x * h;
  }

  lemma HalfShares(x: real, y: real, m: real, g: real, cap: real)
    requires AtMostShare(x, g, cap) && AtMostShare(y, g, cap) && m == 0.5 * x + 0.5 * y
    ensures AtMostShare(m, g, cap)
  {
    assert m * g == 0.5 * (x * g) + 0.5 * (y * g);
  }

  /** Every weight is at most cap / g. */
  ghost predicate WithinCap(w: seq<real>, g: real, cap: real) {
    forall i :: 0 <= i < |w| ==> AtMostShare(w[i], g, cap)
  }

  lemma MixWithinCap(a: seq<real>, b: seq<real>, g: real, cap: real)
    requires |a| == |b| && WithinCap(a, g, cap) && WithinCap(b, g, cap)
    ensures WithinCap(Mix(a, b), g, cap)
  {
    hide AtMostShare;
    var m := Mix(a, b);
    forall i | 0 <= i < |a| ensures AtMostShare(m[i], g, cap) {
      HalfShares(a[i], b[i], m[i], g, cap);
    }
  }

  lemma NormalizeWithinCap(m: seq<real>, g: real, h: real, cap: real)
    requires |m| > 0 && NonNegative(m) && WithinCap(m, g, cap) && Sum(m) > 0.0 && AtMostOf(h, g, Sum(m))
    ensures WithinCap(Normalize(m), h, cap)
  {
    hide *;
    NormalizeIsScale(m);
    Reciprocal(Sum(m));
    ShareWithinCap(1.0 / Sum(m), Sum(m), m, g, h, cap);
  }

  lemma ShareWithinCap(q: real, t: real, m: seq<real>, g: real, h: real, cap: real)
    requires NonNegative(m) && WithinCap(m, g, cap) && q > 0.0 && q * t == 1.0 && AtMostOf(h, g, t)
    ensures WithinCap(Scale(q, m), h, cap)
  {
    hide AtMostShare, AtMostOf;
    var r := Scale(q, m);
    forall i | 0 <= i < |m| ensures AtMostShare(r[i], h, cap) {
      ScaleAt(q, m, i);
      BlendShare(r[i], m[i], q, t, g, h, cap);
    }
  }

  lemma SmallerTotal(g: real, close: real, t: real)
    requires g > 0.0 && 1.0 - close <= t
    ensures AtMostOf(g * (1.0 - close), g, t)
  {
    ProductNonNegative(g, t - (1.0 - close));
    assert g * (t - (1.0 - close)) == g * t - g * (1.0 - close);
  }

  lemma MixTotal(o: seq<real>, iv: seq<real>, p: Params)
    requires p.Valid() && 0 < |o| == |iv| && LongOnly(o, p) && LongOnly(iv, p)
    ensures 0.0 < 1.0 - p.close <= Sum(Mix(o, iv)) && NonNegative(Mix(o, iv))
  {
    MixSum(o, iv);
    hide Sum;
  }

  lemma BlendWithinCap(o: seq<real>, iv: seq<real>, p: Params, g: real)
    requires p.Valid() && 0 < |o| == |iv| && LongOnly(o, p) && LongOnly(iv, p) && g > 0.0
    requires WithinCap(o, g, p.cap) && WithinCap(iv, g, p.cap)
    ensures WithinCap(Normalize(Mix(o, iv)), g * (1.0 - p.close), p.cap)
  {
    hide *;
    MixTotal(o, iv, p);
    MixWithinCap(o, iv, g, p.cap);
    SmallerTotal(g, p.close, Sum(Mix(o, iv)));
    NormalizeWithinCap(Mix(o, iv), g, g * (1.0 - p.close), p.cap);
  }

  lemma ReducedShare(x: real, g: real, close: real, cap: real)
    requires x >= 0.0 && g > 0.0 && 0.0 <= close < 1.0 && AtMostShare(x, g, cap)
    ensures AtMostShare(x, g * (1.0 - close), cap)
  {
    ProductNonNegative(x, g);
    ProductNonNegative(x * g, close);
    assert x * (g * (1.0 - close)) == x * g - (x * g) * close;
  }

  lemma AloneWithinCap(o: seq<real>, p: Params, g: real)
    requires p.Valid() && NonNegative(o) && g > 0.0 && WithinCap(o, g, p.cap)
    ensures WithinCap(o, g * (1.0 - p.close), p.cap)
  {
    hide AtMostShare;
    forall i | 0 <= i < |o| ensures AtMostShare(o[i], g * (1.0 - p.close), p.cap) {
      ReducedShare(o[i], g, p.close, p.cap);
    }
  }

  /** A share g of the guaranteed total of a projection is one its result keeps the cap with. */
  lemma ProjectWithinCap(w: seq<real>, p: Params, maxIter: nat, g: real)
    requires p.Valid() && 0 < |w| <= maxIter && 0.0 < g <= GuaranteedTotal(w, p)
    ensures WithinCap(Project(w, p, maxIter), g, p.cap)
  {
    hide Project, GuaranteedTotal, Sum;
    CapWithinSlack(w, p, maxIter);
    ProjectIsLongOnlyFullyInvested(w, p, maxIter);
    var r, all := Project(w, p, maxIter), GuaranteedTotal(w, p);
    forall i | 0 <= i < |r| ensures AtMostShare(r[i], g, p.cap) {
      SmallerShare(r[i], g, all, p.cap);
    }
  }

  lemma SmallerShare(x: real, g: real, all: real, cap: real)
    requires x >= 0.0 && g <= all && x * all <= cap
    ensures x * g <= cap
  {
    ProductNonNegative(x, all - g);
    assert x * (all - g) == x * all - x * g;
  }

  /**
    The cap for the target weights, at any tolerances. If g is at most what the
    projections of the optimiser's last candidate and of the inverse
    volatilities guarantee of a full weight, every target weight is at most
    cap / (g (1 - close)).
  */
  lemma TargetKeepsCapWithinSlack(mu: seq<real>, cov: Matrix, vols: seq<real>, p: Params, projIter: nat, step: real,
                                  sqrt: real -> real, k: nat, g: real)
    requires p.Valid() && 0 < |mu| == |vols| && |mu| <= projIter && IsSquare(cov, |mu|) && IsSqrt(sqrt) && k > 0
    requires 0.0 < g <= GuaranteedTotal(RawWeights(vols), p)
    requires g <= GuaranteedTotal(Candidate(mu, cov, Iterate(mu, cov, p, projIter, step, sqrt, k - 1), step, sqrt), p)
    ensures WithinCap(TargetWeights(Iterate(mu, cov, p, projIter, step, sqrt, k), vols, p, projIter),
                      g * (1.0 - p.close), p.cap)
  {
    var candidate := Candidate(mu, cov, Iterate(mu, cov, p, projIter, step, sqrt, k - 1), step, sqrt);
    var opt := Iterate(mu, cov, p, projIter, step, sqrt, k);
    assert opt == Project(candidate, p, projIter);
    hide Project, Iterate, Candidate, RawWeights, GuaranteedTotal, WithinCap, Normalize;
    ProjectWithinCap(candidate, p, projIter, g);
    ProjectWithinCap(RawWeights(vols), p, projIter, g);
    ProjectIsLongOnlyFullyInvested(candidate, p, projIter);
    TargetFromParts(opt, vols, p, projIter, g);
  }

  lemma TargetFromParts(opt: seq<real>, vols: seq<real>, p: Params, projIter: nat, g: real)
    requires p.Valid() && 0 < |opt| == |vols| && g > 0.0
    requires WithinCap(opt, g, p.cap) && WithinCap(Project(RawWeights(vols), p, projIter), g, p.cap)
    requires LongOnly(opt, p)
    ensures WithinCap(TargetWeights(opt, vols, p, projIter), g * (1.0 - p.close), p.cap)
  {
    hide Project, RawWeights, WithinCap, Normalize, Sum;
    ProjectIsLongOnlyFullyInvested(RawWeights(vols), p, projIter);
    if AnyNonPositive(vols) {
      AloneWithinCap(opt, p, g);
    } else {
      BlendWithinCap(opt, Project(RawWeights(vols), p, projIter), p, g);
    }
  }
}
