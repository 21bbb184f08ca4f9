/**
  The projection at the code's own tolerances: how far its result is from the
  exact Euclidean projection, and exactly when it is that near. A positive
  weight inside the freezing band is never raised, so it misses its share of
  the deficit altogether.
*/
module ProjectionSlack {
  import opened Reals
  import opened Projection
  import opened ProjectionTheorems
  import opened ProjectionCap

  /** The same cap without any tolerance. */
  function ExactOf(p: Params): (e: Params)
    ensures e.Valid() && e.Exact() && e.cap == p.cap
  {
    Params(p.cap, 0.0, 0.0, 0.0)
  }

  /** How far from 1 the loop may leave the total of n weights: the early exit, or n bands. */
  function Slack(n: nat, p: Params): real {
    Max(p.sum, Multiple(n, p.band))
  }

  /** Every entry of r is within e of the one of u. */
  ghost predicate Near(r: seq<real>, u: seq<real>, e: real) {
    |r| == |u| && forall i :: 0 <= i < |r| ==> Abs(r[i] - u[i]) <= e
  }

  // ---------------------------------------------------------------- sums of nearby vectors

  lemma {:induction false} SumAtLeastConst(f: seq<real>, x: real)
    requires forall i :: 0 <= i < |f| ==> f[i] >= x
    ensures Sum(f) >= Multiple(|f|, x)
  {
    if |f| != 0 {
      SumAtLeastConst(f[1..], x);
    }
  }

  lemma {:induction false} MultipleDiff(n: nat, x: real, y: real)
    ensures Multiple(n, x - y) == Multiple(n, x) - Multiple(n, y)
  {
    if n != 0 {
      MultipleDiff(n - 1, x, y);
    }
  }

  lemma {:induction false} MultipleAtLeastOne(n: nat, x: real)
    requires x >= 0.0
    ensures Multiple(n, x) >= 0.0
    ensures n > 0 ==> Multiple(n, x) >= x
  {
    if n != 0 {
      MultipleAtLeastOne(n - 1, x);
    }
  }

  lemma {:induction false} SumWithin(f: seq<real>, u: seq<real>, band: real)
    requires |f| == |u| && forall i :: 0 <= i < |f| ==> f[i] <= u[i] <= f[i] + band
    ensures Sum(f) <= Sum(u) <= Sum(f) + Multiple(|f|, band)
  {
    if |f| != 0 {
      SumWithin(f[1..], u[1..], band);
    }
  }

  /** Where one vector dominates another, no entry differs by more than the sums do. */
  lemma GapAtMostSums(a: seq<real>, b: seq<real>)
    requires |a| == |b| && forall i :: 0 <= i < |a| ==> a[i] <= b[i]
    ensures forall i :: 0 <= i < |a| ==> b[i] - a[i] <= Sum(b) - Sum(a)
  {
    var d := Diff(b, a);
    SumNonNegative(d);
    SumDiff(b, a);
  }

  /** Two levels of the same weights are as near as their sums. */
  lemma LevelsNear(w: seq<real>, cap: real, theta: real, theta': real)
    ensures Near(Level(w, cap, theta), Level(w, cap, theta'),
                 Abs(Sum(Level(w, cap, theta)) - Sum(Level(w, cap, theta'))))
  {
    hide Level, Sum;
    if theta <= theta' {
      NearOfGap(Level(w, cap, theta), Level(w, cap, theta'));
    } else {
      NearOfGap(Level(w, cap, theta'), Level(w, cap, theta));
    }
  }

  lemma NearOfGap(a: seq<real>, b: seq<real>)
    requires |a| == |b| && forall i :: 0 <= i < |a| ==> a[i] <= b[i]
    ensures Near(a, b, Abs(Sum(a) - Sum(b))) && Near(b, a, Abs(Sum(b) - Sum(a)))
  {
    GapAtMostSums(a, b);
    hide Sum;
  }

  // ---------------------------------------------------------------- normalising a total near 1

  lemma DivideNear(q: real, t: real, x: real, r: real)
    requires 0.0 < t <= 1.0 && q * t == 1.0 && 0.0 <= x <= t && r == q * x
    ensures x <= r <= x + (1.0 - t)
  {
    assert q >= 1.0;
    ProductNonNegative(q - 1.0, x);
    ProductNonNegative(q - 1.0, t - x);
    assert (q - 1.0) * x == q * x - x;
    assert (q - 1.0) * (t - x) == q * t - t - q * x + x;
  }

  lemma NormalizeNear(f: seq<real>)
    requires |f| > 0 && NonNegative(f) && 0.0 < Sum(f) <= 1.0
    ensures forall i :: 0 <= i < |f| ==> f[i] <= Normalize(f)[i] <= f[i] + (1.0 - Sum(f))
  {
    SumNonNegative(f);
    NormalizeIsScale(f);
    hide *;
    DivideAllNear(Sum(f), f);
  }

  lemma DivideAllNear(t: real, f: seq<real>)
    requires 0.0 < t <= 1.0 && forall i :: 0 <= i < |f| ==> 0.0 <= f[i] <= t
    ensures var r := Scale(1.0 / t, f); forall i :: 0 <= i < |f| ==> f[i] <= r[i] <= f[i] + (1.0 - t)
  {
    Reciprocal(t);
    var r := Scale(1.0 / t, f);
    forall i | 0 <= i < |f| ensures f[i] <= r[i] <= f[i] + (1.0 - t) {
      ScaleAt(1.0 / t, f, i);
      DivideNear(1.0 / t, t, f[i], r[i]);
    }
  }

  // ---------------------------------------------------------------- nothing in the lower band

  /** The hypotheses of the exact theorem, with the freezing band in place of zero. */
  ghost predicate Liftable(w: seq<real>, p: Params, maxIter: nat) {
    && p.Valid() && 0 < |w| <= maxIter && p.cap > p.band
    && AboveBand(w, p.band) && Sum(ClipAll(w, p.cap)) <= 1.0 && Multiple(|w|, p.cap) >= 1.0
  }

  lemma FinalTotal(w: seq<real>, p: Params, maxIter: nat)
    requires Liftable(w, p, maxIter)
    ensures 1.0 - Slack(|w|, p) <= Sum(Final(w, p, maxIter)) <= 1.0
    ensures NonNegative(Final(w, p, maxIter))
  {
    var v, f := ClipAll(w, p.cap), Final(w, p, maxIter);
    var theta := FinalNearLevel(w, p, maxIter);
    hide Level;
    ClipAllInBox(w, p);
    PassesKeep(v, p, maxIter);
    PassesFinish(v, p, maxIter);
    MultipleAtLeastOne(|w|, p.band);
    if FreeCount(f, p) == 0 {
      hide Passes;
      NoneFree(f, p);
      SumAtLeastConst(f, p.cap - p.band);
      MultipleDiff(|w|, p.cap, p.band);
    }
  }

  /** With every weight above the band, the result is within the slack of one common level. */
  lemma ProjectNearLevel(w: seq<real>, p: Params, maxIter: nat) returns (theta: real)
    requires Liftable(w, p, maxIter) && !Accepted(w, p) && Slack(|w|, p) < 1.0
    ensures theta >= 0.0 && Near(Project(w, p, maxIter), Level(w, p.cap, theta), Slack(|w|, p))
    ensures Abs(Sum(Level(w, p.cap, theta)) - 1.0) <= Slack(|w|, p)
  {
    theta := FinalNearLevel(w, p, maxIter);
    FinalTotal(w, p, maxIter);
    MultipleAtLeastOne(|w|, p.band);
    var f, u := Final(w, p, maxIter), Level(w, p.cap, theta);
    ProjectIsNormalized(w, p, maxIter);
    hide Liftable, NearLevel, Level, Final, Project, Sum, Multiple, Accepted;
    SumWithin(f, u, p.band);
    NormalizeNear(f);
    hide Normalize;
    assert forall i :: 0 <= i < |w| ==> Abs(Normalize(f)[i] - u[i]) <= Slack(|w|, p);
  }

  lemma ExactIsLevel(w: seq<real>, p: Params, maxIter: nat) returns (theta: real)
    requires 0 < |w| <= maxIter && Positive(w) && Sum(ClipAll(w, p.cap)) <= 1.0 && Multiple(|w|, p.cap) >= 1.0
    ensures theta >= 0.0 && Project(w, ExactOf(p), maxIter) == Level(w, p.cap, theta)
    ensures Sum(Level(w, p.cap, theta)) == 1.0
  {
    theta := ProjectIsEuclideanProjection(w, ExactOf(p), maxIter);
  }

  /**
    With every weight above the band, the result is within twice the slack of
    the exact Euclidean projection.
  */
  lemma ProjectNearExact(w: seq<real>, p: Params, maxIter: nat)
    requires Liftable(w, p, maxIter) && !Accepted(w, p) && Slack(|w|, p) < 1.0
    ensures Near(Project(w, p, maxIter), Project(w, ExactOf(p), maxIter), 2.0 * Slack(|w|, p))
  {
    var theta := ProjectNearLevel(w, p, maxIter);
    assert Positive(w);
    var theta' := ExactIsLevel(w, p, maxIter);
    LevelsNear(w, p.cap, theta, theta');
    hide Level, Project, Sum, Slack, Liftable;
  }

  /** The early return is within its own tolerance of the exact projection, band or no band. */
  lemma AcceptedNearExact(w: seq<real>, p: Params, maxIter: nat)
    requires p.Valid() && 0 < |w| <= maxIter && Positive(w) && Sum(ClipAll(w, p.cap)) <= 1.0
    requires Multiple(|w|, p.cap) >= 1.0 && Accepted(w, p)
    ensures Near(Project(w, p, maxIter), Project(w, ExactOf(p), maxIter), p.close)
  {
    hide Sum, Multiple, ClipAll, Level, Passes, Project, Near;
    var theta := ExactIsLevel(w, p, maxIter);
    ProjectIsClipped(w, p, maxIter);
    ClippedIsLevel(w, p.cap);
    LevelsNear(w, p.cap, 0.0, theta);
    NearWithin(Level(w, p.cap, 0.0), Level(w, p.cap, theta),
               Abs(Sum(Level(w, p.cap, 0.0)) - Sum(Level(w, p.cap, theta))), p.close);
  }

  lemma NearWithin(r: seq<real>, u: seq<real>, e: real, e': real)
    requires Near(r, u, e) && e <= e'
    ensures Near(r, u, e')
  {
  }

  lemma ClippedIsLevel(w: seq<real>, cap: real)
    requires Positive(w) && Multiple(|w|, cap) >= 1.0
    ensures ClipAll(w, cap) == Level(w, cap, 0.0)
  {
    if cap <= 0.0 {
      MultipleMonotone(|w|, cap, 0.0);
    }
    hide Multiple;
  }

  // ---------------------------------------------------------------- a weight in the lower band

  /** A weight in the band is frozen from the start: it receives nothing. */
  lemma BandIsFrozen(w: seq<real>, p: Params, maxIter: nat, i: nat)
    requires p.Valid() && i < |w| && 0.0 < w[i] <= p.band < p.cap
    ensures Final(w, p, maxIter)[i] == w[i]
  {
    ClipAllInBox(w, p);
    PassesKeep(ClipAll(w, p.cap), p, maxIter);
  }

  /** Raising n weights by theta adds at most n theta. */
  lemma {:induction false} LevelSum(w: seq<real>, cap: real, theta: real)
    requires theta >= 0.0
    ensures Sum(Level(w, cap, theta)) <= Sum(Level(w, cap, 0.0)) + Multiple(|w|, theta)
  {
    if |w| != 0 {
      LevelSum(w[1..], cap, theta);
    }
  }

  /** The exact projection raises every weight by more than its share of the early-return tolerance. */
  lemma ExactRaises(w: seq<real>, p: Params, maxIter: nat, i: nat)
    requires p.Valid() && 0 < |w| <= maxIter && Positive(w) && Sum(ClipAll(w, p.cap)) <= 1.0
    requires Multiple(|w|, p.cap) >= 1.0 && !Accepted(w, p) && i < |w|
    ensures Multiple(|w|, Project(w, ExactOf(p), maxIter)[i]) >= p.close
  {
    var theta := ExactIsLevel(w, p, maxIter);
    ClippedIsLevel(w, p.cap);
    LevelSum(w, p.cap, theta);
    assert Multiple(|w|, theta) >= p.close;
    var u := Level(w, p.cap, theta)[i];
    if u != p.cap {
      MultipleMonotone(|w|, theta, u);
    }
  }

  /** A lifted weight keeps the final total above a share of 1. */
  lemma LiftedTotal(w: seq<real>, p: Params, maxIter: nat)
    requires p.Valid() && 0 < |w| <= maxIter && p.cap > p.band && Lifted(w, p) > 0
    ensures Sum(Final(w, p, maxIter)) >= Min(1.0 - p.sum, p.cap - p.band)
  {
    MultipleAtLeastOne(Lifted(w, p), p.cap - p.band);
    if GuaranteedTotal(w, p) > 0.0 {
      FinalReachesGuarantee(w, p, maxIter);
    }
  }

  /** So the result misses: the frozen weight stays within the band over the final total. */
  lemma BandStaysSmall(w: seq<real>, p: Params, maxIter: nat, i: nat)
    requires p.Valid() && 0 < |w| <= maxIter && i < |w| && 0.0 < w[i] <= p.band < p.cap
    requires !Accepted(w, p) && Lifted(w, p) > 0
    ensures Project(w, p, maxIter)[i] * Min(1.0 - p.sum, p.cap - p.band) <= p.band
  {
    hide *;
    LiftedTotal(w, p, maxIter);
    BandIsFrozen(w, p, maxIter, i);
    ProjectIsNormalized(w, p, maxIter);
    MinIsPositive(p);
    NormalizeIsScale(Final(w, p, maxIter));
    FrozenShare(Sum(Final(w, p, maxIter)), Final(w, p, maxIter), i, p.band, Min(1.0 - p.sum, p.cap - p.band));
  }

  lemma MinIsPositive(p: Params)
    requires p.Valid() && p.cap > p.band
    ensures Min(1.0 - p.sum, p.cap - p.band) > 0.0
  {
  }

  lemma FrozenShare(t: real, f: seq<real>, i: nat, band: real, g: real)
    requires 0.0 < g <= t && i < |f| && 0.0 <= f[i] <= band
    ensures Scale(1.0 / t, f)[i] * g <= band
  {
    hide Scale;
    Reciprocal(t);
    ScaleAt(1.0 / t, f, i);
    InverseBound(1.0 / t, t, f[i], g, band);
  }

  // ---------------------------------------------------------------- the code's values

  /** The numbers: at most 200 weights, and a cap they can meet. */
  lemma CodeScalars(n: nat, nr: real, cap: real, r: real, u: real, slack: real)
    requires 0 < n <= 200 && nr == n as real && nr * cap >= 1.0
    requires nr * u >= ISCLOSE
    requires r * Min(1.0 - SUM_TOLERANCE, cap - BAND) <= BAND
    requires slack == Max(SUM_TOLERANCE, nr * BAND)
    ensures u - r > 2.0 * slack
  {
    assert cap >= 0.005 by { CapShare(nr, cap); }
    assert u >= 0.00000005 by { CodeShare(nr, u); }
    var g := Min(1.0 - SUM_TOLERANCE, cap - BAND);
    if r > 0.000000001 {
      ProductNonNegative(r - 0.000000001, g);
      assert (r - 0.000000001) * g == r * g - 0.000000001 * g;
    }
  }

  lemma CapShare(nr: real, cap: real)
    requires 0.0 < nr <= 200.0 && nr * cap >= 1.0
    ensures cap >= 0.005
  {
    assert nr * (cap - 0.005) == nr * cap - 0.005 * nr;
    NonNegativeFactor(nr, cap - 0.005);
  }

  lemma CodeShare(nr: real, u: real)
    requires 0.0 < nr <= 200.0 && nr * u >= ISCLOSE
    ensures u >= 0.00000005
  {
    assert nr * (u - 0.00000005) == nr * u - 0.00000005 * nr;
    NonNegativeFactor(nr, u - 0.00000005);
  }

  /** At most 200 weights under a cap they can meet: the cap is far above the band. */
  lemma CodeCap(n: nat, cap: real)
    requires 0 < n <= 200 && Multiple(n, cap) >= 1.0
    ensures cap >= 0.005
  {
    MultipleIsProduct(n, cap);
    CapShare(n as real, cap);
  }

  /**
    The exact condition at the code's tolerances. Positive weights without
    surplus that are not returned early, one of them above the band: the result
    is within twice the slack of the exact projection if and only if every
    weight is above the freezing band 1e-12.
  */
  lemma NearExactlyWhen(w: seq<real>, cap: real, maxIter: nat)
    requires 0 < |w| <= 200 && |w| <= maxIter && Positive(w)
    requires Sum(ClipAll(w, cap)) <= 1.0 && Multiple(|w|, cap) >= 1.0
    requires !Accepted(w, CodeParams(cap)) && Lifted(w, CodeParams(cap)) > 0
    ensures var p := CodeParams(cap);
      Near(Project(w, p, maxIter), Project(w, ExactOf(p), maxIter), 2.0 * Slack(|w|, p)) <==> AboveBand(w, p.band)
  {
    var p := CodeParams(cap);
    CodeCap(|w|, cap);
    hide Project, Sum, ClipAll, Accepted, Lifted;
    if AboveBand(w, p.band) {
      CodeSlack(|w|, cap);
      ProjectNearExact(w, p, maxIter);
    } else {
      var i :| 0 <= i < |w| && w[i] <= p.band;
      BandMisses(w, cap, maxIter, i);
    }
  }

  lemma CodeSlack(n: nat, cap: real)
    requires n <= 200
    ensures Slack(n, CodeParams(cap)) < 1.0
  {
    MultipleIsProduct(n, BAND);
  }

  /** A positive weight in the band falls short of the exact projection by more than twice the slack. */
  lemma BandMisses(w: seq<real>, cap: real, maxIter: nat, i: nat)
    requires 0 < |w| <= 200 && |w| <= maxIter && Positive(w)
    requires Sum(ClipAll(w, cap)) <= 1.0 && Multiple(|w|, cap) >= 1.0
    requires !Accepted(w, CodeParams(cap)) && Lifted(w, CodeParams(cap)) > 0
    requires i < |w| && w[i] <= CodeParams(cap).band
    ensures var p := CodeParams(cap);
      Project(w, ExactOf(p), maxIter)[i] - Project(w, p, maxIter)[i] > 2.0 * Slack(|w|, p)
  {
    hide *;
    CodeBand(|w|, cap);
    BandShares(w, CodeParams(cap), maxIter, i);
    CodeGap(|w|, cap, Project(w, CodeParams(cap), maxIter)[i], Project(w, ExactOf(CodeParams(cap)), maxIter)[i]);
  }

  lemma CodeBand(n: nat, cap: real)
    requires 0 < n <= 200 && Multiple(n, cap) >= 1.0
    ensures CodeParams(cap).band < cap
  {
    CodeCap(n, cap);
  }

  lemma BandShares(w: seq<real>, p: Params, maxIter: nat, i: nat)
    requires p.Valid() && 0 < |w| <= maxIter && Positive(w) && Sum(ClipAll(w, p.cap)) <= 1.0
    requires Multiple(|w|, p.cap) >= 1.0 && !Accepted(w, p) && Lifted(w, p) > 0
    requires i < |w| && w[i] <= p.band < p.cap
    ensures Multiple(|w|, Project(w, ExactOf(p), maxIter)[i]) >= p.close
    ensures Project(w, p, maxIter)[i] * Min(1.0 - p.sum, p.cap - p.band) <= p.band
  {
    assert w[i] > 0.0;
    hide *;
    ExactRaises(w, p, maxIter, i);
    BandStaysSmall(w, p, maxIter, i);
  }

  lemma CodeGap(n: nat, cap: real, r: real, u: real)
    requires 0 < n <= 200 && Multiple(n, cap) >= 1.0
    requires var p := CodeParams(cap); Multiple(n, u) >= p.close && r * Min(1.0 - p.sum, p.cap - p.band) <= p.band
    ensures u - r > 2.0 * Slack(n, CodeParams(cap))
  {
    MultipleIsProduct(n, u);
    MultipleIsProduct(n, cap);
    MultipleIsProduct(n, BAND);
    hide Multiple, Min;
    CodeScalars(n, n as real, cap, r, u, Max(SUM_TOLERANCE, n as real * BAND));
  }
}
