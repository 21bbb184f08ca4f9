/**
  What the weight projection delivers: a long-only fully invested vector, the
  Euclidean projection onto the capped simplex, the cap with its exact
  condition, and order preservation.
*/
module ProjectionTheorems {
  import opened Reals
  import opened Projection

  /** The early return: the clipped weights already sum to (nearly) 1. */
  predicate Accepted(w: seq<real>, p: Params) {
    Abs(Sum(ClipAll(w, p.cap)) - 1.0) <= p.close
  }

  /** The vector just before it is normalised. */
  function Final(w: seq<real>, p: Params, maxIter: nat): (f: seq<real>)
    ensures |f| == |w|
  {
    Passes(ClipAll(w, p.cap), p, maxIter)
  }

  // ---------------------------------------------------------------- long-only, fully invested

  lemma PositiveTotalMeansPositiveCap(v: seq<real>, p: Params)
    requires p.Valid() && InBox(v, p) && Sum(v) > 0.0
    ensures p.cap > 0.0 && NonNegative(v)
  {
    if p.cap <= 0.0 {
      SumOfNonPositive(v);
    }
  }

  lemma {:induction false} SumOfNonPositive(v: seq<real>)
    requires forall i :: 0 <= i < |v| ==> v[i] <= 0.0
    ensures Sum(v) <= 0.0
  {
    if |v| != 0 {
      SumOfNonPositive(v[1..]);
    }
  }

  lemma NormalizeSumsToOne(v: seq<real>)
    requires |v| > 0 && (Sum(v) > 0.0 ==> NonNegative(v))
    ensures NonNegative(Normalize(v)) && Sum(Normalize(v)) == 1.0
  {
    if Sum(v) <= 0.0 {
      EqualWeights(|v|);
    } else {
      DivideByTotal(v);
      DivideNonNegative(v);
    }
  }

  lemma DivideNonNegative(v: seq<real>)
    requires Sum(v) > 0.0 && NonNegative(v)
    ensures NonNegative(Scale(1.0 / Sum(v), v))
  {
    Reciprocal(Sum(v));
    ScaleNonNegative(1.0 / Sum(v), v);
  }

  /**
    Every result is long-only and fully invested: the weights are non-negative
    and sum to exactly 1, or to within the isclose tolerance on early return.
    This holds for every input, cap and iteration limit.
  */
  lemma ProjectIsLongOnlyFullyInvested(w: seq<real>, p: Params, maxIter: nat)
    requires p.Valid() && |w| > 0
    ensures var r := Project(w, p, maxIter);
      && NonNegative(r)
      && Abs(Sum(r) - 1.0) <= p.close
      && (!Accepted(w, p) ==> Sum(r) == 1.0)
  {
    var v := ClipAll(w, p.cap);
    ClipAllInBox(w, p);
    if Accepted(w, p) {
      PositiveTotalMeansPositiveCap(v, p);
    } else {
      var f := Final(w, p, maxIter);
      PassesKeep(v, p, maxIter);
      if Sum(f) > 0.0 {
        PositiveTotalMeansPositiveCap(f, p);
      }
      NormalizeSumsToOne(f);
    }
  }

  /** A result that respects the cap is a fixed point of the projection. */
  lemma ProjectIdempotent(w: seq<real>, p: Params, m1: nat, m2: nat)
    requires p.Valid() && |w| > 0
    requires forall i :: 0 <= i < |w| ==> Project(w, p, m1)[i] <= p.cap
    ensures Project(Project(w, p, m1), p, m2) == Project(w, p, m1)
  {
    var r := Project(w, p, m1);
    ProjectIsLongOnlyFullyInvested(w, p, m1);
    assert ClipAll(r, p.cap) == r;
  }

  // ---------------------------------------------------------------- Euclidean projection

  ghost predicate Positive(w: seq<real>) {
    forall i :: 0 <= i < |w| ==> w[i] > 0.0
  }

  /** Membership of the capped simplex. */
  ghost predicate Feasible(x: seq<real>, cap: real) {
    && NonNegative(x)
    && (forall i :: 0 <= i < |x| ==> x[i] <= cap)
    && Sum(x) == 1.0
  }

  /** Raise every weight by theta, but not above the cap. */
  function Level(w: seq<real>, cap: real, theta: real): (u: seq<real>)
    ensures |u| == |w|
    ensures forall i :: 0 <= i < |w| ==> u[i] == Min(cap, w[i] + theta)
  {
    if |w| == 0 then [] else [Min(cap, w[0] + theta)] + Level(w[1..], cap, theta)
  }

  function Diff(a: seq<real>, b: seq<real>): (d: seq<real>)
    requires |a| == |b|
    ensures |d| == |a|
    ensures forall i :: 0 <= i < |a| ==> d[i] == a[i] - b[i]
  {
    if |a| == 0 then [] else [a[0] - b[0]] + Diff(a[1..], b[1..])
  }

  /** Squared Euclidean distance. */
  function Dist2(a: seq<real>, b: seq<real>): real
    requires |a| == |b|
  {
    Dot(Diff(a, b), Diff(a, b))
  }

  /** Every weight is above the freezing band. */
  ghost predicate AboveBand(w: seq<real>, band: real) {
    forall i :: 0 <= i < |w| ==> w[i] > band
  }

  /**
    v has been raised from w by theta: exactly so where it is free, and it is
    frozen within the band of the cap elsewhere.
  */
  ghost predicate NearLevel(v: seq<real>, w: seq<real>, p: Params, theta: real) {
    && |v| == |w|
    && (forall i :: 0 <= i < |w| ==>
          p.band < v[i] <= p.cap && v[i] <= w[i] + theta && (Free(v[i], p) ==> v[i] == w[i] + theta))
  }

  /** Without surplus, every pass raises a common level - at any tolerances, as long as nothing is in the lower band. */
  lemma {:induction false} PassesRaiseLevel(w: seq<real>, p: Params, v: seq<real>, theta: real, fuel: nat)
    returns (theta': real)
    requires p.Valid() && NearLevel(v, w, p, theta) && theta >= 0.0 && Sum(v) <= 1.0
    ensures theta' >= theta && NearLevel(Passes(v, p, fuel), w, p, theta')
    decreases fuel
  {
    theta' := theta;
    if fuel > 0 && !Stops(v, p) {
      PassRaisesLevel(w, p, v, theta);
      hide Pass, NearLevel, Stops;
      theta' := PassesRaiseLevel(w, p, Pass(v, p), theta + Shift(v, p), fuel - 1);
    }
  }

  lemma NearLevelInBox(v: seq<real>, w: seq<real>, p: Params, theta: real)
    requires p.Valid() && NearLevel(v, w, p, theta)
    ensures InBox(v, p)
  {
  }

  lemma PassRaisesLevel(w: seq<real>, p: Params, v: seq<real>, theta: real)
    requires p.Valid() && NearLevel(v, w, p, theta) && Sum(v) <= 1.0 && !Stops(v, p)
    ensures Shift(v, p) >= 0.0 && NearLevel(Pass(v, p), w, p, theta + Shift(v, p))
    ensures Sum(Pass(v, p)) <= 1.0
  {
    NearLevelInBox(v, w, p, theta);
    ShiftHandsOutDeficit(v, p);
    PassProgress(v, p);
    hide Shift, Sum, FreeCount, Stops, InBox;
  }

  /** The vector before normalising is the level vector up to the freezing band. */
  lemma FinalNearLevel(w: seq<real>, p: Params, maxIter: nat) returns (theta: real)
    requires p.Valid() && AboveBand(w, p.band) && p.cap > p.band && Sum(ClipAll(w, p.cap)) <= 1.0
    ensures theta >= 0.0 && NearLevel(Final(w, p, maxIter), w, p, theta)
    ensures var f, u := Final(w, p, maxIter), Level(w, p.cap, theta);
      forall i :: 0 <= i < |w| ==> f[i] <= u[i] <= f[i] + p.band
  {
    theta := PassesRaiseLevel(w, p, ClipAll(w, p.cap), 0.0, maxIter);
    hide Passes, Sum;
  }

  lemma {:induction false} NoneFree(v: seq<real>, p: Params)
    ensures FreeCount(v, p) == 0 <==> forall i :: 0 <= i < |v| ==> !Free(v[i], p)
  {
    if |v| != 0 {
      NoneFree(v[1..], p);
      assert forall i :: 0 < i < |v| ==> v[i] == v[1..][i - 1];
    }
  }

  lemma {:induction false} DotDominates(a: seq<real>, b: seq<real>, theta: real)
    requires |a| == |b|
    requires forall i :: 0 <= i < |a| ==> a[i] * b[i] >= theta * a[i]
    ensures Dot(a, b) >= theta * Sum(a)
  {
    if |a| != 0 {
      forall i | 0 <= i < |a| - 1 ensures a[1..][i] * b[1..][i] >= theta * a[1..][i] {
        assert a[i + 1] * b[i + 1] >= theta * a[i + 1];
      }
      DotDominates(a[1..], b[1..], theta);
      DominatesStep(a[0], b[0], theta, Sum(a[1..]), Dot(a[1..], b[1..]));
    }
  }

  lemma DominatesStep(x: real, y: real, theta: real, s: real, d: real)
    requires x * y >= theta * x && d >= theta * s
    ensures x * y + d >= theta * (x + s)
  {
  }

  lemma {:induction false} DiffChain(x: seq<real>, u: seq<real>, w: seq<real>)
    requires |x| == |u| == |w|
    ensures Diff(x, w) == Axpy(Diff(x, u), 1.0, Diff(u, w))
  {
    if |x| != 0 {
      DiffChain(x[1..], u[1..], w[1..]);
    }
  }

  lemma {:induction false} SumDiff(x: seq<real>, u: seq<real>)
    requires |x| == |u|
    ensures Sum(Diff(x, u)) == Sum(x) - Sum(u)
  {
    if |x| != 0 {
      SumDiff(x[1..], u[1..]);
    }
  }

  /** |x - w|^2 split at an intermediate point u. */
  lemma DistSplit(x: seq<real>, u: seq<real>, w: seq<real>)
    requires |x| == |u| == |w|
    ensures Dist2(x, w) == Dist2(x, u) + 2.0 * Dot(Diff(x, u), Diff(u, w)) + Dist2(u, w)
  {
    hide Dot, Diff, Axpy;
    DiffChain(x, u, w);
    NormSum(Diff(x, u), Diff(u, w));
  }

  lemma NormSum(a: seq<real>, b: seq<real>)
    requires |a| == |b|
    ensures Dot(Axpy(a, 1.0, b), Axpy(a, 1.0, b)) == Dot(a, a) + 2.0 * Dot(a, b) + Dot(b, b)
  {
    hide *;
    NormAxpy(a, 1.0, b);
  }

  lemma ObtuseAngle(x: seq<real>, u: seq<real>, w: seq<real>)
    requires |x| == |u| == |w| && Dot(Diff(x, u), Diff(u, w)) >= 0.0
    ensures Dist2(x, w) >= Dist2(u, w) + Dist2(x, u)
  {
    DistSplit(x, u, w);
  }

  lemma DotDominatesZero(a: seq<real>, b: seq<real>, theta: real)
    requires |a| == |b| && Sum(a) == 0.0
    requires forall i :: 0 <= i < |a| ==> a[i] * b[i] >= theta * a[i]
    ensures Dot(a, b) >= 0.0
  {
    DotDominates(a, b, theta);
  }

  /**
    The variational inequality of the level vector: at a free coordinate the
    step u - w is theta, at a capped one it is smaller and x can only be lower.
  */
  lemma LevelVariational(w: seq<real>, cap: real, theta: real, x: seq<real>)
    requires |x| == |w|
    requires forall i :: 0 <= i < |x| ==> x[i] <= cap
    requires Sum(Diff(x, Level(w, cap, theta))) == 0.0
    ensures var u := Level(w, cap, theta); Dot(Diff(x, u), Diff(u, w)) >= 0.0
  {
    var u := Level(w, cap, theta);
    var a, b := Diff(x, u), Diff(u, w);
    forall i | 0 <= i < |x| ensures a[i] * b[i] >= theta * a[i] {
      LevelCoordinate(a[i], b[i], theta, cap - u[i]);
    }
    DotDominatesZero(a, b, theta);
  }

  lemma LevelIsNearest(w: seq<real>, cap: real, theta: real, x: seq<real>)
    requires |x| == |w|
    requires forall i :: 0 <= i < |x| ==> x[i] <= cap
    requires Sum(x) == Sum(Level(w, cap, theta))
    ensures var u := Level(w, cap, theta); Dist2(x, w) >= Dist2(u, w) + Dist2(x, u)
  {
    hide Dot, Sum, Level, Diff;
    SumDiff(x, Level(w, cap, theta));
    LevelVariational(w, cap, theta, x);
    ObtuseAngle(x, Level(w, cap, theta), w);
  }

  lemma LevelCoordinate(a: real, b: real, theta: real, room: real)
    requires a <= room && b <= theta && (b == theta || room == 0.0)
    ensures a * b >= theta * a
  {
    if b != theta {
      ProductNonNegative(-a, theta - b);
      assert (-a) * (theta - b) == a * b - theta * a;
    }
  }

  /**
    The exact projection theorem. For positive weights whose clipped sum is at
    most 1, and a cap that n weights can meet, the result raises every weight
    by one theta >= 0 up to the cap, and no point of the capped simplex is
    closer to w: |x - w|^2 >= |u - w|^2 + |x - u|^2, so it is also unique.
  */
  lemma ProjectIsEuclideanProjection(w: seq<real>, p: Params, maxIter: nat) returns (theta: real)
    requires p.Valid() && p.Exact() && 0 < |w| <= maxIter
    requires Positive(w) && Sum(ClipAll(w, p.cap)) <= 1.0 && Multiple(|w|, p.cap) >= 1.0
    ensures theta >= 0.0 && Project(w, p, maxIter) == Level(w, p.cap, theta)
    ensures Feasible(Project(w, p, maxIter), p.cap)
    ensures forall x :: |x| == |w| && Feasible(x, p.cap) ==>
      Dist2(x, w) >= Dist2(Project(w, p, maxIter), w) + Dist2(x, Project(w, p, maxIter))
  {
    if p.cap <= 0.0 {
      MultipleMonotone(|w|, p.cap, 0.0);
    }
    theta := FinalIsLevel(w, p, maxIter);
    ProjectIsFinal(w, p, maxIter);
    var u := Project(w, p, maxIter);
    assert u == Level(w, p.cap, theta);
    ProjectIsLongOnlyFullyInvested(w, p, maxIter);
    forall x | |x| == |w| && Feasible(x, p.cap)
      ensures Dist2(x, w) >= Dist2(u, w) + Dist2(x, u)
    {
      LevelIsNearest(w, p.cap, theta, x);
    }
  }

  lemma {:induction false} MultipleMonotone(n: nat, x: real, y: real)
    requires x <= y
    ensures Multiple(n, x) <= Multiple(n, y)
    ensures Multiple(n, 0.0) == 0.0
  {
    if n != 0 {
      MultipleMonotone(n - 1, x, y);
    }
  }

  /** Positive weights without surplus: at zero tolerances the loop ends, finished, at some level. */
  lemma FinalIsLevel(w: seq<real>, p: Params, maxIter: nat) returns (theta: real)
    requires p.Valid() && p.Exact() && 0 < |w| <= maxIter && p.cap > 0.0
    requires Positive(w) && Sum(ClipAll(w, p.cap)) <= 1.0
    ensures theta >= 0.0 && Final(w, p, maxIter) == Level(w, p.cap, theta)
    ensures var s := Sum(Final(w, p, maxIter));
      s == 1.0 || (s < 1.0 && Final(w, p, maxIter) == Const(|w|, p.cap) && s == Multiple(|w|, p.cap))
  {
    theta := FinalNearLevel(w, p, maxIter);
    hide Level;
    FinalEnds(w, p, maxIter);
    if FreeCount(Final(w, p, maxIter), p) == 0 {
      SaturatedIsConst(Final(w, p, maxIter), w, p, theta);
    }
  }

  lemma FinalEnds(w: seq<real>, p: Params, maxIter: nat)
    requires p.Valid() && p.Exact() && 0 < |w| <= maxIter && Sum(ClipAll(w, p.cap)) <= 1.0
    ensures var f := Final(w, p, maxIter); Sum(f) == 1.0 || (Sum(f) < 1.0 && FreeCount(f, p) == 0)
  {
    ClipAllInBox(w, p);
    PassesKeep(ClipAll(w, p.cap), p, maxIter);
    PassesFinish(ClipAll(w, p.cap), p, maxIter);
  }

  lemma SaturatedIsConst(f: seq<real>, w: seq<real>, p: Params, theta: real)
    requires p.Exact() && NearLevel(f, w, p, theta) && FreeCount(f, p) == 0
    ensures f == Const(|w|, p.cap) && Sum(f) == Multiple(|w|, p.cap)
  {
    NoneFree(f, p);
    SumConst(|w|, p.cap);
  }

  lemma ProjectIsFinal(w: seq<real>, p: Params, maxIter: nat)
    requires p.Valid() && p.Exact() && |w| > 0
    requires Sum(Final(w, p, maxIter)) == 1.0
    ensures Project(w, p, maxIter) == Final(w, p, maxIter)
  {
    if Accepted(w, p) {
      ClipAllInBox(w, p);
      FixedAtOne(ClipAll(w, p.cap), p, maxIter);
    } else {
      ScaleByOne(Final(w, p, maxIter));
    }
  }

  lemma ScaleByOne(f: seq<real>)
    ensures Scale(1.0, f) == f
  {
  }

  /** When n weights cannot meet the cap, positive weights become equal weights. */
  lemma ProjectWithInfeasibleCap(w: seq<real>, p: Params, maxIter: nat)
    requires p.Valid() && p.Exact() && 0 < |w| <= maxIter
    requires Positive(w) && Multiple(|w|, p.cap) < 1.0
    ensures Project(w, p, maxIter) == Const(|w|, 1.0 / |w| as real)
  {
    hide Multiple, Sum, Passes, ClipAll, Const;
    SumAtMostCaps(ClipAll(w, p.cap), p.cap);
    if p.cap <= 0.0 {
      FinalNonPositive(w, p, maxIter);
    } else {
      InfeasibleIsSaturated(w, p, maxIter);
      NormalizeConst(|w|, p.cap);
    }
  }

  lemma InfeasibleIsSaturated(w: seq<real>, p: Params, maxIter: nat)
    requires p.Valid() && p.Exact() && 0 < |w| <= maxIter && p.cap > 0.0
    requires Positive(w) && Multiple(|w|, p.cap) < 1.0 && Sum(ClipAll(w, p.cap)) < 1.0
    ensures Final(w, p, maxIter) == Const(|w|, p.cap)
  {
    hide Multiple, Sum, ClipAll;
    var theta := FinalIsLevel(w, p, maxIter);
    SumAtMostCaps(Final(w, p, maxIter), p.cap);
  }

  lemma FinalNonPositive(w: seq<real>, p: Params, maxIter: nat)
    requires p.Valid() && p.cap <= 0.0
    ensures Sum(Final(w, p, maxIter)) <= 0.0
  {
    ClipAllInBox(w, p);
    PassesKeep(ClipAll(w, p.cap), p, maxIter);
    SumOfNonPositive(Final(w, p, maxIter));
  }

  lemma {:induction false} SumAtMostCaps(v: seq<real>, cap: real)
    requires forall i :: 0 <= i < |v| ==> v[i] <= cap
    ensures Sum(v) <= Multiple(|v|, cap)
  {
    if |v| != 0 {
      SumAtMostCaps(v[1..], cap);
    }
  }

  lemma NormalizeConst(n: nat, c: real)
    requires n > 0 && c > 0.0
    ensures Normalize(Const(n, c)) == Const(n, 1.0 / n as real)
  {
    var t := Sum(Const(n, c));
    SumConst(n, c);
    MultipleIsProduct(n, c);
    ReciprocalOfProduct(n as real, c, t);
    ScaleConst(n, 1.0 / t, c, 1.0 / n as real);
  }

  lemma ScaleConst(n: nat, k: real, c: real, x: real)
    requires k * c == x
    ensures Scale(k, Const(n, c)) == Const(n, x)
  {
    forall i | 0 <= i < n ensures Scale(k, Const(n, c))[i] == x {
      ScaleAt(k, Const(n, c), i);
    }
  }

  lemma ReciprocalOfProduct(n: real, c: real, t: real)
    requires n >= 1.0 && c > 0.0 && t == n * c
    ensures t > 0.0 && (1.0 / t) * c == 1.0 / n
  {
    ProductNonNegative(n - 1.0, c);
    assert (n - 1.0) * c == n * c - c;
    var q := 1.0 / t;
    Reciprocal(t);
    assert (q * c) * n == q * (n * c);
  }
}
