/**
  The cap at the code's own tolerances: when it cannot be met, when it is broken,
  and what happens when nothing is above the freezing band. Concrete inputs close
  the module.
*/
module CapSlack {
  import opened Reals
  import opened Projection
  import opened ProjectionTheorems
  import opened ProjectionCap
  import opened ProjectionSlack

  // ---------------------------------------------------------------- an infeasible cap

  /** Entries of f are at most cap and within e of it. */
  ghost predicate NearCap(f: seq<real>, cap: real, e: real) {
    forall i :: 0 <= i < |f| ==> cap - e <= f[i] <= cap
  }

  lemma NearCapOfSum(f: seq<real>, cap: real)
    requires (forall i :: 0 <= i < |f| ==> f[i] <= cap) && Multiple(|f|, cap) < 1.0
    ensures NearCap(f, cap, 1.0 - Sum(f))
  {
    GapAtMostSums(f, Const(|f|, cap));
    SumConst(|f|, cap);
  }

  lemma InfeasibleClip(w: seq<real>, cap: real)
    requires Multiple(|w|, cap) < 1.0
    ensures Sum(ClipAll(w, cap)) < 1.0
    ensures NearCap(ClipAll(w, cap), cap, 1.0 - Sum(ClipAll(w, cap)))
  {
    SumAtMostCaps(ClipAll(w, cap), cap);
    NearCapOfSum(ClipAll(w, cap), cap);
  }

  lemma InfeasibleFinal(w: seq<real>, p: Params, maxIter: nat)
    requires p.Valid() && 0 < |w| <= maxIter && AboveBand(w, p.band) && p.cap > p.band
    requires Multiple(|w|, p.cap) < 1.0
    ensures NearCap(Final(w, p, maxIter), p.cap, Max(p.sum, p.band)) && Sum(Final(w, p, maxIter)) > 0.0
  {
    hide *;
    InfeasibleClip(w, p.cap);
    InfeasibleEnds(w, p, maxIter);
    FinalNearCap(Final(w, p, maxIter), p);
  }

  lemma InfeasibleEnds(w: seq<real>, p: Params, maxIter: nat)
    requires p.Valid() && 0 < |w| <= maxIter && AboveBand(w, p.band) && p.cap > p.band
    requires Sum(ClipAll(w, p.cap)) < 1.0
    ensures var f := Final(w, p, maxIter);
      && (forall i :: 0 <= i < |f| ==> p.band < f[i] <= p.cap)
      && (Sum(f) == 1.0 || Abs(1.0 - Sum(f)) < p.sum || FreeCount(f, p) == 0)
  {
    var theta := FinalNearLevel(w, p, maxIter);
    hide Level;
    ClipAllInBox(w, p);
    PassesFinish(ClipAll(w, p.cap), p, maxIter);
  }

  lemma FinalNearCap(f: seq<real>, p: Params)
    requires p.Valid() && |f| > 0 && Multiple(|f|, p.cap) < 1.0
    requires forall i :: 0 <= i < |f| ==> p.band < f[i] <= p.cap
    requires Sum(f) == 1.0 || Abs(1.0 - Sum(f)) < p.sum || FreeCount(f, p) == 0
    ensures NearCap(f, p.cap, Max(p.sum, p.band)) && Sum(f) > 0.0
  {
    SumAtMostCaps(f, p.cap);
    NearCapOfSum(f, p.cap);
    SumNonNegative(f);
    assert f[0] > 0.0;
    if FreeCount(f, p) == 0 {
      NoneFree(f, p);
    }
  }

  /** x and y differ by at most e / t. */
  ghost predicate WithinShare(x: real, y: real, t: real, e: real) {
    Abs(x - y) * t <= e
  }

  lemma SharesNear(q: real, t: real, x: real, y: real, x': real, y': real, e: real)
    requires t > 0.0 && q * t == 1.0 && Abs(x - y) <= e && x' == q * x && y' == q * y
    ensures WithinShare(x', y', t, e)
  {
    var d := x' - y';
    assert d == q * (x - y);
    assert d * t == (q * t) * (x - y) == x - y;
    assert (-d) * t == -(d * t);
  }

  lemma NormalizedShares(q: real, t: real, f: seq<real>, e: real, i: nat, j: nat)
    requires t > 0.0 && q * t == 1.0 && i < |f| && j < |f| && Abs(f[i] - f[j]) <= e
    ensures WithinShare(Scale(q, f)[i], Scale(q, f)[j], t, e)
  {
    hide *;
    ScaleAt(q, f, i);
    ScaleAt(q, f, j);
    SharesNear(q, t, f[i], f[j], Scale(q, f)[i], Scale(q, f)[j], e);
  }

  lemma NearCapPair(f: seq<real>, cap: real, e: real, i: nat, j: nat)
    requires i < |f| && j < |f| && NearCap(f, cap, e)
    ensures Abs(f[i] - f[j]) <= e
  {
  }

  lemma NormalizeNearCap(f: seq<real>, cap: real, e: real, i: nat, j: nat)
    requires i < |f| && j < |f| && NearCap(f, cap, e) && Sum(f) > 0.0
    ensures WithinShare(Normalize(f)[i], Normalize(f)[j], Sum(f), e)
  {
    hide *;
    NearCapPair(f, cap, e, i, j);
    NormalizeIsScale(f);
    Reciprocal(Sum(f));
    NormalizedShares(1.0 / Sum(f), Sum(f), f, e, i, j);
  }

  /**
    A cap that n weights cannot meet, at any tolerances: weights above the band
    become equal up to the band or the loop tolerance over the final total, or
    up to the tolerance of the early return.
  */
  lemma InfeasibleCapNearlyEqual(w: seq<real>, p: Params, maxIter: nat, i: nat, j: nat)
    requires p.Valid() && 0 < |w| <= maxIter && AboveBand(w, p.band) && p.cap > p.band
    requires Multiple(|w|, p.cap) < 1.0 && i < |w| && j < |w|
    ensures var r, t := Project(w, p, maxIter), Sum(Final(w, p, maxIter));
      if Accepted(w, p) then Abs(r[i] - r[j]) <= p.close else WithinShare(r[i], r[j], t, Max(p.sum, p.band))
  {
    hide Multiple, Sum, Project, Final, WithinShare, ClipAll;
    if Accepted(w, p) {
      InfeasibleClip(w, p.cap);
      ProjectIsClipped(w, p, maxIter);
    } else {
      hide Accepted;
      InfeasibleFinal(w, p, maxIter);
      ProjectIsNormalized(w, p, maxIter);
      NormalizeNearCap(Final(w, p, maxIter), p.cap, Max(p.sum, p.band), i, j);
    }
  }

  // ---------------------------------------------------------------- the cap broken, at any tolerances

  lemma {:induction false} SumAtMostCounted(f: seq<real>, p: Params)
    requires p.band >= 0.0 && forall i :: 0 <= i < |f| ==> f[i] <= p.cap
    ensures Sum(f) <= Multiple(CountAbove(f, p.band), p.cap) + Multiple(|f| - CountAbove(f, p.band), p.band)
  {
    if |f| != 0 {
      SumAtMostCounted(f[1..], p);
    }
  }

  /** The most that k coordinates at the cap and the others in the band can hold. */
  function Capacity(n: nat, k: nat, p: Params): real
    requires k <= n
  {
    Multiple(k, p.cap) + Multiple(n - k, p.band)
  }

  /** A total of at most capacity gives a weight within the band of the cap more than the cap. */
  ghost predicate Exceeds(cap: real, capacity: real, band: real) {
    cap * capacity + band < cap
  }

  lemma BrokenFinal(w: seq<real>, p: Params, maxIter: nat) returns (i: nat)
    requires p.Valid() && 0 < |w| <= maxIter && p.cap > p.band
    requires Sum(ClipAll(w, p.cap)) < 1.0 && 0 < Lifted(w, p) <= |w| && Capacity(|w|, Lifted(w, p), p) < 1.0 - p.sum
    ensures i < |w| && Final(w, p, maxIter)[i] >= p.cap - p.band
    ensures 0.0 < Sum(Final(w, p, maxIter)) <= Capacity(|w|, Lifted(w, p), p)
  {
    FinalOfDeficit(w, p, maxIter);
    hide Final, ClipAll, Lifted;
    i := FrozenShort(Final(w, p, maxIter), p);
  }

  /** What the loop leaves of weights that sum to less than 1. */
  lemma FinalOfDeficit(w: seq<real>, p: Params, maxIter: nat)
    requires p.Valid() && 0 < |w| <= maxIter && Sum(ClipAll(w, p.cap)) < 1.0
    ensures var f := Final(w, p, maxIter);
      && InBox(f, p) && CountAbove(f, p.band) == Lifted(w, p)
      && (Sum(f) == 1.0 || Abs(1.0 - Sum(f)) < p.sum || FreeCount(f, p) == 0)
  {
    ClipAllInBox(w, p);
    PassesKeep(ClipAll(w, p.cap), p, maxIter);
    PassesFinish(ClipAll(w, p.cap), p, maxIter);
  }

  /** Coordinates that cannot hold nearly 1 are all frozen, one of them near the cap. */
  lemma FrozenShort(f: seq<real>, p: Params) returns (i: nat)
    requires p.Valid() && p.cap > p.band && InBox(f, p) && CountAbove(f, p.band) > 0
    requires Sum(f) == 1.0 || Abs(1.0 - Sum(f)) < p.sum || FreeCount(f, p) == 0
    requires Capacity(|f|, CountAbove(f, p.band), p) < 1.0 - p.sum
    ensures i < |f| && f[i] >= p.cap - p.band && 0.0 < Sum(f) <= Capacity(|f|, CountAbove(f, p.band), p)
  {
    SumAtMostCounted(f, p);
    NoneFree(f, p);
    SomeLifted(f, p.band);
    SumNonNegative(f);
    hide Sum, Multiple, FreeCount, CountAbove;
    i :| 0 <= i < |f| && f[i] > p.band;
  }

  lemma ShareAbove(q: real, t: real, x: real, cap: real, band: real, capacity: real)
    requires q > 0.0 && q * t == 1.0 && 0.0 < t <= capacity && x >= cap - band && cap > 0.0 && Exceeds(cap, capacity, band)
    ensures q * x > cap
  {
    ProductNonNegative(cap, capacity - t);
    assert cap * (capacity - t) == cap * capacity - cap * t;
    assert x > cap * t;
    assert q * (x - cap * t) == q * x - cap * (q * t);
    PositiveProduct(q, x - cap * t);
  }

  /**
    The converse of the slack bound: when the lifted coordinates at the cap and
    the others in the band hold too little - less than 1 by the loop tolerance,
    and by a band's share - some weight exceeds the cap.
  */
  lemma CapBrokenBeyondSlack(w: seq<real>, p: Params, maxIter: nat)
    requires p.Valid() && 0 < |w| <= maxIter && p.cap > p.band && !Accepted(w, p)
    requires Sum(ClipAll(w, p.cap)) < 1.0 && 0 < Lifted(w, p) <= |w|
    requires Capacity(|w|, Lifted(w, p), p) < 1.0 - p.sum
    requires Exceeds(p.cap, Capacity(|w|, Lifted(w, p), p), p.band)
    ensures exists i :: 0 <= i < |w| && Project(w, p, maxIter)[i] > p.cap
  {
    assert p.cap > 0.0;
    hide *;
    var i := BrokenFinal(w, p, maxIter);
    ProjectIsNormalized(w, p, maxIter);
    BrokenShare(Final(w, p, maxIter), i, p.cap, p.band, Capacity(|w|, Lifted(w, p), p));
    assert Project(w, p, maxIter)[i] > p.cap;
  }

  lemma BrokenShare(f: seq<real>, i: nat, cap: real, band: real, capacity: real)
    requires i < |f| && f[i] >= cap - band && 0.0 < Sum(f) <= capacity && cap > 0.0 && Exceeds(cap, capacity, band)
    ensures Normalize(f)[i] > cap
  {
    hide *;
    NormalizeIsScale(f);
    Reciprocal(Sum(f));
    ScaleAt(1.0 / Sum(f), f, i);
    ShareAbove(1.0 / Sum(f), Sum(f), f[i], cap, band, capacity);
  }

  lemma {:induction false} NothingIsFree(v: seq<real>, p: Params)
    requires CountAbove(v, p.band) == 0
    ensures FreeCount(v, p) == 0 && forall i :: 0 <= i < |v| ==> v[i] <= p.band
  {
    if |v| != 0 {
      NothingIsFree(v[1..], p);
      assert forall i :: 0 < i < |v| ==> v[i] == v[1..][i - 1];
    }
  }

  lemma ShareMeets(q: real, t: real, x: real, cap: real)
    requires q > 0.0 && t > 0.0 && q * t == 1.0
    ensures q * x <= cap <==> x <= cap * t
  {
    assert t * (q * x) == (q * t) * x;
    if q * x <= cap {
      ProductNonNegative(t, cap - q * x);
      assert t * (cap - q * x) == cap * t - x;
    }
    if x <= cap * t {
      ProductNonNegative(q, cap * t - x);
      assert q * (cap * t - x) == cap * (q * t) - q * x;
    }
  }

  /**
    The remaining case, nothing lifted: the loop does nothing and the clipped
    weights are divided by their total. The cap is kept if and only if it holds
    for the clipped weights relative to their total, or for equal weights when
    that total is not positive.
  */
  lemma NothingLiftedExactlyWhen(w: seq<real>, p: Params, maxIter: nat)
    requires p.Valid() && |w| > 0 && !Accepted(w, p) && Lifted(w, p) == 0
    ensures var v := ClipAll(w, p.cap);
      (forall i :: 0 <= i < |w| ==> Project(w, p, maxIter)[i] <= p.cap) <==>
      if Sum(v) <= 0.0 then Multiple(|w|, p.cap) >= 1.0 else forall i :: 0 <= i < |w| ==> v[i] <= p.cap * Sum(v)
  {
    hide *;
    NothingLiftedFinal(w, p, maxIter);
    ProjectIsNormalized(w, p, maxIter);
    NormalizedCap(ClipAll(w, p.cap), p.cap);
  }

  lemma NothingLiftedFinal(w: seq<real>, p: Params, maxIter: nat)
    requires Lifted(w, p) == 0
    ensures Final(w, p, maxIter) == ClipAll(w, p.cap)
  {
    NothingIsFree(ClipAll(w, p.cap), p);
  }

  lemma NormalizedCap(v: seq<real>, cap: real)
    requires |v| > 0
    ensures (forall i :: 0 <= i < |v| ==> Normalize(v)[i] <= cap) <==>
      if Sum(v) <= 0.0 then Multiple(|v|, cap) >= 1.0 else forall i :: 0 <= i < |v| ==> v[i] <= cap * Sum(v)
  {
    if Sum(v) <= 0.0 {
      ReciprocalMeetsCap(|v|, cap);
      assert Normalize(v)[0] == 1.0 / |v| as real;
    } else {
      NormalizeIsScale(v);
      hide Normalize, Sum;
      Reciprocal(Sum(v));
      ScaledCap(1.0 / Sum(v), Sum(v), v, Normalize(v), cap, cap * Sum(v));
    }
  }

  lemma ScaledCap(q: real, t: real, v: seq<real>, r: seq<real>, cap: real, bound: real)
    requires q > 0.0 && t > 0.0 && q * t == 1.0 && r == Scale(q, v) && bound == cap * t
    ensures (forall i :: 0 <= i < |v| ==> r[i] <= cap) <==> (forall i :: 0 <= i < |v| ==> v[i] <= bound)
  {
    forall i | 0 <= i < |v| ensures r[i] <= cap <==> v[i] <= bound {
      ScaleAt(q, v, i);
      ShareMeets(q, t, v[i], cap);
    }
  }

  // ---------------------------------------------------------------- examples

  /** The cap is not unconditional, neither at zero tolerances nor at the code's. */
  lemma CapIsNotUnconditional(p: Params)
    requires p == Params(0.6, 0.0, 0.0, 0.0) || p == CodeParams(0.6)
    ensures Project([5.0, -1.0, -1.0], p, 200) == [1.0, 0.0, 0.0]
  {
    var w := [5.0, -1.0, -1.0];
    var v := ClipAll(w, 0.6);
    assert v == [0.6, 0.0, 0.0];
    Triple(0.6, 0.0, 0.0, p);
    assert Passes(v, p, 200) == v;
    hide Passes, ClipAll, FreeCount;
    var r := Scale(1.0 / 0.6, v);
    ScaleAt(1.0 / 0.6, v, 0);
    ScaleAt(1.0 / 0.6, v, 1);
    ScaleAt(1.0 / 0.6, v, 2);
    assert r == [1.0, 0.0, 0.0];
  }

  /**
    A positive weight in the band, at the code's values: every hypothesis of the
    exact theorem holds but the tolerances, the exact projection gives the third
    weight 2/15, the code leaves it where it is.
  */
  lemma BandExample()
    ensures var w, p := [0.3, 0.3, 0.0000000000001], CodeParams(0.6);
      && Positive(w) && Sum(ClipAll(w, p.cap)) <= 1.0 && Multiple(|w|, p.cap) >= 1.0
      && Project(w, p, 200)[0] > 0.4999 && Project(w, p, 200)[2] <= 0.000000000001
  {
    var w, p := [0.3, 0.3, 0.0000000000001], CodeParams(0.6);
    Triple(0.3, 0.3, 0.0000000000001, p);
    MultipleIsProduct(3, 0.6);
    assert ClipAll(w, 0.6) == w;
    var v := [0.49999999999995, 0.49999999999995, 0.0000000000001];
    assert Pass(w, p) == v;
    Triple(0.49999999999995, 0.49999999999995, 0.0000000000001, p);
    assert Passes(w, p, 200) == Passes(v, p, 199) == v;
    hide Passes, Pass;
    ScaleByOne(v);
  }
}
