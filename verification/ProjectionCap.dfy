/**
  When the projection keeps the cap, and when it keeps the order of the weights.

  The cap is not unconditional: (5, -1, -1) with cap 0.6 is clipped to
  (0.6, 0, 0), has no free coordinate, and is normalised to (1, 0, 0).
*/
module ProjectionCap {
  import opened Reals
  import opened Projection
  import opened ProjectionTheorems

  /** How many coordinates are above the freezing band after the first clip. */
  function Lifted(w: seq<real>, p: Params): nat {
    CountAbove(ClipAll(w, p.cap), p.band)
  }

  // ---------------------------------------------------------------- arithmetic of normalising

  lemma InverseShrinks(q: real, t: real, x: real)
    requires q > 0.0 && q * t == 1.0 && t >= 1.0 && x >= 0.0
    ensures q * x <= x
  {
    ProductNonNegative(q, t - 1.0);
    assert q * (t - 1.0) == q * t - q;
    ProductNonNegative(1.0 - q, x);
    assert (1.0 - q) * x == x - q * x;
  }

  lemma DivideShrinks(t: real, x: real)
    requires t >= 1.0 && x >= 0.0
    ensures (1.0 / t) * x <= x
  {
    Reciprocal(t);
    InverseShrinks(1.0 / t, t, x);
  }

  lemma ScaleShrinks(t: real, f: seq<real>)
    requires t >= 1.0 && NonNegative(f)
    ensures forall i :: 0 <= i < |f| ==> Scale(1.0 / t, f)[i] <= f[i]
  {
    forall i | 0 <= i < |f| ensures Scale(1.0 / t, f)[i] <= f[i] {
      ScaleAt(1.0 / t, f, i);
      DivideShrinks(t, f[i]);
    }
  }

  lemma NormalizeIsScale(f: seq<real>)
    requires |f| > 0 && Sum(f) > 0.0
    ensures Normalize(f) == Scale(1.0 / Sum(f), f)
  {
    hide Sum, Scale, Const;
  }

  lemma NormalizeShrinks(f: seq<real>, cap: real)
    requires |f| > 0 && Sum(f) >= 1.0 && NonNegative(f)
    requires forall i :: 0 <= i < |f| ==> f[i] <= cap
    ensures forall i :: 0 <= i < |f| ==> Normalize(f)[i] <= cap
  {
    hide *;
    NormalizeIsScale(f);
    ScaleShrinks(Sum(f), f);
    assert forall i :: 0 <= i < |f| ==> Normalize(f)[i] <= f[i];
  }

  lemma ReciprocalMeetsCap(n: nat, c: real)
    requires n > 0
    ensures 1.0 / n as real <= c <==> Multiple(n, c) >= 1.0
  {
    MultipleIsProduct(n, c);
    ReciprocalMeets(n as real, c);
  }

  lemma ReciprocalMeets(t: real, c: real)
    requires t > 0.0
    ensures 1.0 / t <= c <==> t * c >= 1.0
  {
    Reciprocal(t);
    InverseMeets(1.0 / t, t, c);
  }

  lemma InverseMeets(q: real, t: real, c: real)
    requires q > 0.0 && t > 0.0 && q * t == 1.0
    ensures q <= c <==> t * c >= 1.0
  {
    if q <= c {
      ProductNonNegative(t, c - q);
      assert t * (c - q) == t * c - q * t;
    }
    if t * c >= 1.0 {
      ProductNonNegative(q, t * c - 1.0);
      assert q * (t * c - 1.0) == (q * t) * c - q;
    }
  }

  // ---------------------------------------------------------------- the exact condition

  /** Passes below a sum of 1 only raise coordinates. */
  lemma {:induction false} PassesRaise(v: seq<real>, p: Params, fuel: nat)
    requires p.Valid() && InBox(v, p) && Sum(v) <= 1.0
    ensures forall i :: 0 <= i < |v| ==> v[i] <= Passes(v, p, fuel)[i]
    decreases fuel
  {
    if fuel > 0 && !Stops(v, p) {
      PassProgress(v, p);
      ShiftHandsOutDeficit(v, p);
      PassesRaise(Pass(v, p), p, fuel - 1);
      forall i | 0 <= i < |v| ensures v[i] <= Pass(v, p)[i] {
        MoveRaises(v[i], p, Shift(v, p));
      }
    }
  }

  lemma MoveRaises(x: real, p: Params, d: real)
    requires Clip(x, p.cap) == x && d >= 0.0
    ensures x <= Move(x, p, d)
  {
  }

  /** Without free coordinates, and with zero tolerances, every weight is 0 or the cap. */
  lemma {:induction false} TwoValued(f: seq<real>, p: Params)
    requires p.Exact() && p.cap > 0.0 && InBox(f, p) && FreeCount(f, p) == 0
    ensures forall i :: 0 <= i < |f| ==> f[i] == if f[i] > 0.0 then p.cap else 0.0
    ensures Sum(f) == Multiple(CountAbove(f, 0.0), p.cap)
  {
    if |f| != 0 {
      TwoValued(f[1..], p);
      assert forall i :: 0 < i < |f| ==> f[i] == f[1..][i - 1];
    }
  }

  lemma {:induction false} SumAtMostPositiveCaps(f: seq<real>, p: Params)
    requires p.Exact() && p.cap > 0.0 && InBox(f, p)
    ensures Sum(f) <= Multiple(CountAbove(f, 0.0), p.cap)
    ensures Sum(f) > 0.0 <==> CountAbove(f, 0.0) > 0
    ensures Sum(f) >= 0.0
  {
    if |f| != 0 {
      SumAtMostPositiveCaps(f[1..], p);
    }
  }

  /** Where the loop ends when the clipped weights are positive somewhere but sum to less than 1. */
  lemma DeficitEnd(w: seq<real>, p: Params, maxIter: nat)
    requires p.Valid() && p.Exact() && 0 < |w| <= maxIter && p.cap > 0.0
    requires Sum(ClipAll(w, p.cap)) < 1.0
    ensures var v, f, k := ClipAll(w, p.cap), Final(w, p, maxIter), Lifted(w, p);
      && InBox(f, p)
      && (forall i :: 0 <= i < |w| ==> (f[i] > 0.0 <==> v[i] > 0.0))
      && (if Multiple(k, p.cap) >= 1.0 then Sum(f) == 1.0
          else Sum(f) == Multiple(k, p.cap) && FreeCount(f, p) == 0)
  {
    var v, f := ClipAll(w, p.cap), Final(w, p, maxIter);
    ClipAllInBox(w, p);
    PassesKeep(v, p, maxIter);
    PassesFinish(v, p, maxIter);
    PassesRaise(v, p, maxIter);
    forall i | 0 <= i < |w| ensures f[i] > 0.0 <==> v[i] > 0.0 {
      assert v[i] <= f[i];
      assert !Free(v[i], p) ==> f[i] == v[i];
    }
    SumAtMostPositiveCaps(f, p);
    if FreeCount(f, p) == 0 {
      TwoValued(f, p);
    }
  }

  /**
    If the clipped sum is below 1 and the k > 0 positive coordinates cannot hold
    weight 1 under the cap, the result is 1/k on each of them - above the cap -
    and 0 elsewhere.
  */
  lemma CapBrokenValue(w: seq<real>, p: Params, maxIter: nat)
    requires p.Valid() && p.Exact() && 0 < |w| <= maxIter && p.cap > 0.0
    requires Sum(ClipAll(w, p.cap)) < 1.0
    requires Lifted(w, p) > 0 && Multiple(Lifted(w, p), p.cap) < 1.0
    ensures forall i :: 0 <= i < |w| ==>
      Project(w, p, maxIter)[i] == if ClipAll(w, p.cap)[i] > 0.0 then 1.0 / Lifted(w, p) as real else 0.0
    ensures 1.0 / Lifted(w, p) as real > p.cap
  {
    hide *;
    BrokenIsNormalizedTwoValued(w, p, maxIter);
    ReciprocalMeetsCap(Lifted(w, p), p.cap);
    NormalizeTwoValued(Final(w, p, maxIter), p.cap, Lifted(w, p));
  }

  lemma DeficitIsNormalized(w: seq<real>, p: Params, maxIter: nat)
    requires p.Exact() && |w| > 0 && Sum(ClipAll(w, p.cap)) < 1.0
    ensures Project(w, p, maxIter) == Normalize(Final(w, p, maxIter))
  {
    hide Normalize, Passes, Sum;
  }

  lemma BrokenIsNormalizedTwoValued(w: seq<real>, p: Params, maxIter: nat)
    requires p.Valid() && p.Exact() && 0 < |w| <= maxIter && p.cap > 0.0
    requires Sum(ClipAll(w, p.cap)) < 1.0 && Multiple(Lifted(w, p), p.cap) < 1.0
    ensures var v, f := ClipAll(w, p.cap), Final(w, p, maxIter);
      && Project(w, p, maxIter) == Normalize(f)
      && Sum(f) == Multiple(Lifted(w, p), p.cap)
      && forall i :: 0 <= i < |w| ==>
        (f[i] > 0.0 <==> v[i] > 0.0) && f[i] == if f[i] > 0.0 then p.cap else 0.0
  {
    hide *;
    DeficitIsNormalized(w, p, maxIter);
    DeficitEnd(w, p, maxIter);
    TwoValued(Final(w, p, maxIter), p);
  }

  lemma NormalizeTwoValued(f: seq<real>, cap: real, k: nat)
    requires |f| > 0 && k > 0 && cap > 0.0 && Sum(f) == Multiple(k, cap)
    requires forall i :: 0 <= i < |f| ==> f[i] == if f[i] > 0.0 then cap else 0.0
    ensures forall i :: 0 <= i < |f| ==> Normalize(f)[i] == if f[i] > 0.0 then 1.0 / k as real else 0.0
  {
    hide Sum, Multiple;
    ReciprocalOfMultiple(k, cap, Sum(f));
    ScaleTwoValued(1.0 / Sum(f), f, cap, 1.0 / k as real);
  }

  lemma ReciprocalOfMultiple(k: nat, cap: real, t: real)
    requires k > 0 && cap > 0.0 && t == Multiple(k, cap)
    ensures t > 0.0 && (1.0 / t) * cap == 1.0 / k as real
  {
    MultipleIsProduct(k, cap);
    ReciprocalOfProduct(k as real, cap, t);
  }

  lemma ScaleTwoValued(q: real, f: seq<real>, cap: real, x: real)
    requires q * cap == x
    requires forall i :: 0 <= i < |f| ==> f[i] == if f[i] > 0.0 then cap else 0.0
    ensures forall i :: 0 <= i < |f| ==> Scale(q, f)[i] == if f[i] > 0.0 then x else 0.0
  {
    forall i | 0 <= i < |f| ensures Scale(q, f)[i] == if f[i] > 0.0 then x else 0.0 {
      ScaleAt(q, f, i);
    }
  }

  /** What a caller can check before the call. */
  predicate CapCondition(w: seq<real>, p: Params) {
    || Sum(ClipAll(w, p.cap)) >= 1.0
    || Multiple(Lifted(w, p), p.cap) >= 1.0
    || (Lifted(w, p) == 0 && Multiple(|w|, p.cap) >= 1.0)
  }

  /** The cap is kept if and only if the condition holds, for every cap and input. */
  lemma CapKeptExactlyWhen(w: seq<real>, p: Params, maxIter: nat)
    requires p.Valid() && p.Exact() && 0 < |w| <= maxIter
    ensures (forall i :: 0 <= i < |w| ==> Project(w, p, maxIter)[i] <= p.cap) <==> CapCondition(w, p)
  {
    if p.cap <= 0.0 {
      NonPositiveCap(w, p, maxIter);
    } else if Sum(ClipAll(w, p.cap)) >= 1.0 {
      CapKeptWithSurplus(w, p, maxIter);
    } else if Lifted(w, p) == 0 {
      NothingLifted(w, p, maxIter);
    } else if Multiple(Lifted(w, p), p.cap) < 1.0 {
      CapBrokenValue(w, p, maxIter);
      SomeLifted(ClipAll(w, p.cap), 0.0);
    } else {
      DeficitEnd(w, p, maxIter);
      ProjectIsFinal(w, p, maxIter);
    }
  }

  lemma {:induction false} SomeLifted(v: seq<real>, band: real)
    requires CountAbove(v, band) > 0
    ensures exists i :: 0 <= i < |v| && v[i] > band
  {
    if v[0] > band {
      assert 0 < |v|;
    } else {
      SomeLifted(v[1..], band);
      var i :| 0 <= i < |v[1..]| && v[1..][i] > band;
      assert v[i + 1] > band;
    }
  }

  lemma {:induction false} NoneLifted(v: seq<real>, band: real)
    requires forall i :: 0 <= i < |v| ==> v[i] <= band
    ensures CountAbove(v, band) == 0
  {
    if |v| != 0 {
      NoneLifted(v[1..], band);
    }
  }

  lemma NonPositiveCap(w: seq<real>, p: Params, maxIter: nat)
    requires p.Valid() && p.Exact() && 0 < |w| && p.cap <= 0.0
    ensures Project(w, p, maxIter)[0] > p.cap && !CapCondition(w, p)
  {
    var v := ClipAll(w, p.cap);
    FinalNonPositive(w, p, maxIter);
    SumOfNonPositive(v);
    NoneLifted(v, 0.0);
    MultipleMonotone(|w|, p.cap, 0.0);
    Reciprocal(|w| as real);
  }

  /** A surplus never breaks the cap, at any tolerance. */
  lemma CapKeptWithSurplus(w: seq<real>, p: Params, maxIter: nat)
    requires p.Valid() && |w| > 0 && Sum(ClipAll(w, p.cap)) >= 1.0
    ensures forall i :: 0 <= i < |w| ==> Project(w, p, maxIter)[i] <= p.cap
  {
    hide *;
    if Accepted(w, p) {
      ProjectIsClipped(w, p, maxIter);
    } else {
      SurplusEnd(w, p, maxIter);
      ProjectIsNormalized(w, p, maxIter);
      NormalizeShrinks(Final(w, p, maxIter), p.cap);
    }
  }

  lemma ProjectIsNormalized(w: seq<real>, p: Params, maxIter: nat)
    requires |w| > 0 && !Accepted(w, p)
    ensures Project(w, p, maxIter) == Normalize(Final(w, p, maxIter))
  {
    hide Normalize, Passes, Sum;
  }

  lemma ProjectIsClipped(w: seq<real>, p: Params, maxIter: nat)
    requires |w| > 0 && Accepted(w, p)
    ensures Project(w, p, maxIter) == ClipAll(w, p.cap)
    ensures forall i :: 0 <= i < |w| ==> ClipAll(w, p.cap)[i] <= p.cap
  {
    hide Normalize, Passes, Sum;
  }

  lemma SurplusEnd(w: seq<real>, p: Params, maxIter: nat)
    requires p.Valid() && Sum(ClipAll(w, p.cap)) >= 1.0
    ensures var f := Final(w, p, maxIter);
      && Sum(f) >= 1.0 && NonNegative(f)
      && forall i :: 0 <= i < |w| ==> f[i] <= p.cap
  {
    ClipAllInBox(w, p);
    PassesKeep(ClipAll(w, p.cap), p, maxIter);
    PositiveTotalMeansPositiveCap(Final(w, p, maxIter), p);
  }

  lemma NothingLifted(w: seq<real>, p: Params, maxIter: nat)
    requires p.Valid() && p.Exact() && 0 < |w| <= maxIter && p.cap > 0.0
    requires Lifted(w, p) == 0
    ensures Project(w, p, maxIter) == Const(|w|, 1.0 / |w| as real)
    ensures (forall i :: 0 <= i < |w| ==> Project(w, p, maxIter)[i] <= p.cap) <==> Multiple(|w|, p.cap) >= 1.0
  {
    ClipAllInBox(w, p);
    SumAtMostPositiveCaps(ClipAll(w, p.cap), p);
    DeficitEnd(w, p, maxIter);
    ReciprocalMeetsCap(|w|, p.cap);
    assert Const(|w|, 1.0 / |w| as real)[0] == 1.0 / |w| as real;
  }

  // ---------------------------------------------------------------- the cap at the code's tolerances

  /** Without free coordinates every lifted coordinate is within the band of the cap. */
  lemma {:induction false} FrozenSumAtLeast(f: seq<real>, p: Params)
    requires p.Valid() && NonNegative(f) && FreeCount(f, p) == 0
    ensures Sum(f) >= Multiple(CountAbove(f, p.band), p.cap - p.band)
  {
    if |f| != 0 {
      FrozenSumAtLeast(f[1..], p);
    }
  }

  /** The share of a full weight that the cap condition guarantees before normalising. */
  function GuaranteedTotal(w: seq<real>, p: Params): real {
    if Sum(ClipAll(w, p.cap)) >= 1.0 then 1.0
    else Min(1.0 - p.sum, Multiple(Lifted(w, p), p.cap - p.band))
  }

  lemma FinalReachesGuarantee(w: seq<real>, p: Params, maxIter: nat)
    requires p.Valid() && 0 < |w| <= maxIter && GuaranteedTotal(w, p) > 0.0
    ensures var f := Final(w, p, maxIter);
      && Sum(f) >= GuaranteedTotal(w, p)
      && NonNegative(f)
      && forall i :: 0 <= i < |w| ==> f[i] <= p.cap
  {
    hide Passes;
    var v, f := ClipAll(w, p.cap), Final(w, p, maxIter);
    if Sum(v) >= 1.0 {
      SurplusEnd(w, p, maxIter);
    } else {
      ClipAllInBox(w, p);
      if Lifted(w, p) > 0 {
        SomeLifted(v, p.band);
      }
      PassesKeep(v, p, maxIter);
      PassesFinish(v, p, maxIter);
      if FreeCount(f, p) == 0 {
        FrozenSumAtLeast(f, p);
      }
    }
  }

  lemma InverseBound(q: real, t: real, x: real, g: real, cap: real)
    requires q > 0.0 && q * t == 1.0 && 0.0 < g <= t && 0.0 <= x <= cap
    ensures (q * x) * g <= cap
  {
    ProductNonNegative(q, x);
    ProductNonNegative(q * x, t - g);
    assert (q * x) * (t - g) == (q * t) * x - (q * x) * g;
  }

  lemma NormalizeBound(f: seq<real>, g: real, cap: real)
    requires |f| > 0 && 0.0 < g <= Sum(f) && NonNegative(f)
    requires forall i :: 0 <= i < |f| ==> f[i] <= cap
    ensures forall i :: 0 <= i < |f| ==> Normalize(f)[i] * g <= cap
  {
    hide *;
    NormalizeIsScale(f);
    ScaleBound(Sum(f), f, g, cap);
  }

  lemma ScaleBound(t: real, f: seq<real>, g: real, cap: real)
    requires 0.0 < g <= t && NonNegative(f)
    requires forall i :: 0 <= i < |f| ==> f[i] <= cap
    ensures var r := Scale(1.0 / t, f); forall i :: 0 <= i < |f| ==> r[i] * g <= cap
  {
    Reciprocal(t);
    var r := Scale(1.0 / t, f);
    forall i | 0 <= i < |f| ensures r[i] * g <= cap {
      ScaleAt(1.0 / t, f, i);
      InverseBound(1.0 / t, t, f[i], g, cap);
    }
  }

  /**
    The cap at any tolerances. With k coordinates above the band after the
    clip, every weight is at most cap / min(1 - sum, k (cap - band)), and at
    most the cap when the clipped sum is at least 1. So k (cap - band) >= 1
    keeps the cap up to the factor 1 / (1 - sum) of the early loop exit.
  */
  lemma CapWithinSlack(w: seq<real>, p: Params, maxIter: nat)
    requires p.Valid() && 0 < |w| <= maxIter && GuaranteedTotal(w, p) > 0.0
    ensures forall i :: 0 <= i < |w| ==> Project(w, p, maxIter)[i] * GuaranteedTotal(w, p) <= p.cap
  {
    hide *;
    if Accepted(w, p) {
      AcceptedWithinSlack(w, p, maxIter);
    } else {
      FinalReachesGuarantee(w, p, maxIter);
      ProjectIsNormalized(w, p, maxIter);
      NormalizeBound(Final(w, p, maxIter), GuaranteedTotal(w, p), p.cap);
    }
  }

  lemma AcceptedWithinSlack(w: seq<real>, p: Params, maxIter: nat)
    requires p.Valid() && |w| > 0 && Accepted(w, p) && GuaranteedTotal(w, p) > 0.0
    ensures forall i :: 0 <= i < |w| ==> Project(w, p, maxIter)[i] * GuaranteedTotal(w, p) <= p.cap
  {
    var v := ClipAll(w, p.cap);
    hide Sum, Normalize, Passes, ClipAll;
    ClipAllInBox(w, p);
    PositiveTotalMeansPositiveCap(v, p);
    assert 0.0 < GuaranteedTotal(w, p) <= 1.0;
    forall i | 0 <= i < |w| ensures v[i] * GuaranteedTotal(w, p) <= p.cap {
      FractionBelow(v[i], GuaranteedTotal(w, p), p.cap);
    }
  }

  lemma FractionBelow(x: real, g: real, cap: real)
    requires 0.0 <= x <= cap && 0.0 < g <= 1.0
    ensures x * g <= cap
  {
    ProductNonNegative(x, 1.0 - g);
    assert x * (1.0 - g) == x - x * g;
  }

  /**
    Counting merely positive coordinates is not enough at the code's band: here
    two are positive and 2 * 0.6 >= 1, yet the first weight comes out above 0.9.
  */
  lemma PositiveCountIsNotEnough()
    ensures var w, p := [5.0, 0.0000000000001, -1.0], CodeParams(0.6);
      && CountAbove(ClipAll(w, p.cap), 0.0) == 2 && Multiple(2, p.cap) >= 1.0
      && Project(w, p, 200)[0] > 0.9
  {
    var w, p := [5.0, 0.0000000000001, -1.0], CodeParams(0.6);
    var v := ClipAll(w, p.cap);
    assert v == [0.6, 0.0000000000001, 0.0];
    Triple(0.6, 0.0000000000001, 0.0, p);
    assert Passes(v, p, 200) == v;
    assert Multiple(2, p.cap) == 1.2 by { MultipleIsProduct(2, p.cap); }
    Reciprocal(Sum(v));
    InverseAbove(1.0 / Sum(v), Sum(v), 0.6);
  }

  lemma InverseAbove(q: real, t: real, x: real)
    requires q * t == 1.0 && t == 0.6000000000001 && x == 0.6
    ensures q * x > 0.9
  {
  }

  lemma Triple(a: real, b: real, c: real, p: Params)
    ensures Sum([a, b, c]) == a + b + c
    ensures FreeCount([a, b, c], p) ==
      (if Free(a, p) then 1 else 0) + (if Free(b, p) then 1 else 0) + (if Free(c, p) then 1 else 0)
    ensures CountAbove([a, b, c], 0.0) ==
      (if a > 0.0 then 1 else 0) + (if b > 0.0 then 1 else 0) + (if c > 0.0 then 1 else 0)
  {
    assert [a, b, c][1..] == [b, c] && [b, c][1..] == [c] && [c][1..] == [];
    assert Sum([c]) == c + Sum([]) && Sum([b, c]) == b + Sum([c]);
    assert FreeCount([c], p) == (if Free(c, p) then 1 else 0) + FreeCount([], p);
    assert FreeCount([b, c], p) == (if Free(b, p) then 1 else 0) + FreeCount([c], p);
    assert CountAbove([c], 0.0) == (if c > 0.0 then 1 else 0) + CountAbove([], 0.0);
    assert CountAbove([b, c], 0.0) == (if b > 0.0 then 1 else 0) + CountAbove([c], 0.0);
  }

  // ---------------------------------------------------------------- order

  /** x is at most y, or one of them has been frozen against its bound. */
  predicate Ordered(x: real, y: real, p: Params) {
    x <= y || x <= p.band || y >= p.cap - p.band
  }

  lemma MoveKeepsOrder(x: real, y: real, p: Params, d: real)
    requires p.Valid() && Clip(x, p.cap) == x && Clip(y, p.cap) == y && Ordered(x, y, p)
    ensures Ordered(Move(x, p, d), Move(y, p, d), p)
  {
  }

  lemma {:induction false} PassesKeepOrder(v: seq<real>, p: Params, fuel: nat, i: nat, j: nat)
    requires p.Valid() && InBox(v, p) && i < |v| && j < |v| && Ordered(v[i], v[j], p)
    ensures Ordered(Passes(v, p, fuel)[i], Passes(v, p, fuel)[j], p)
    decreases fuel
  {
    if fuel > 0 && !Stops(v, p) {
      PassProgress(v, p);
      MoveKeepsOrder(v[i], v[j], p, Shift(v, p));
      PassesKeepOrder(Pass(v, p), p, fuel - 1, i, j);
    }
  }

  lemma NormalizeKeepsOrder(f: seq<real>, band: real, i: nat, j: nat)
    requires i < |f| && j < |f| && band >= 0.0 && f[i] <= f[j] + band
    ensures var r := Normalize(f);
      if Sum(f) <= 0.0 then r[i] == r[j] else r[i] <= r[j] + (1.0 / Sum(f)) * band
  {
    hide Sum, Scale;
    if Sum(f) > 0.0 {
      Reciprocal(Sum(f));
      ScaleKeepsOrder(1.0 / Sum(f), f, band, i, j);
    }
  }

  lemma ScaleKeepsOrder(q: real, f: seq<real>, band: real, i: nat, j: nat)
    requires q > 0.0 && i < |f| && j < |f| && f[i] <= f[j] + band
    ensures Scale(q, f)[i] <= Scale(q, f)[j] + q * band
  {
    hide Scale;
    MultiplyThrough(q, f[i], f[j], band);
    ScaleAt(q, f, i);
    ScaleAt(q, f, j);
  }

  lemma MultiplyThrough(q: real, x: real, y: real, band: real)
    requires q > 0.0 && x <= y + band
    ensures q * x <= q * y + q * band
  {
    ProductNonNegative(q, y + band - x);
    assert q * (y + band - x) == q * y + q * band - q * x;
  }

  /**
    The projection never inverts two weights, up to the freezing band divided
    by the final total; with a zero band it never inverts them at all.
  */
  lemma ProjectKeepsOrder(w: seq<real>, p: Params, maxIter: nat, i: nat, j: nat)
    requires p.Valid() && i < |w| && j < |w| && w[i] <= w[j]
    ensures var r, t := Project(w, p, maxIter), Sum(Final(w, p, maxIter));
      if Accepted(w, p) || t <= 0.0 then r[i] <= r[j] else r[i] <= r[j] + (1.0 / t) * p.band
    ensures p.band == 0.0 ==> Project(w, p, maxIter)[i] <= Project(w, p, maxIter)[j]
  {
    hide Normalize, Passes, Sum;
    if !Accepted(w, p) {
      ProjectIsNormalized(w, p, maxIter);
      FinalOrder(w, p, maxIter, i, j);
      NormalizeKeepsOrder(Final(w, p, maxIter), p.band, i, j);
    }
  }

  lemma FinalOrder(w: seq<real>, p: Params, maxIter: nat, i: nat, j: nat)
    requires p.Valid() && i < |w| && j < |w| && w[i] <= w[j]
    ensures var f := Final(w, p, maxIter); f[i] <= f[j] + p.band
  {
    hide Passes;
    ClipAllInBox(w, p);
    PassesKeep(ClipAll(w, p.cap), p, maxIter);
    PassesKeepOrder(ClipAll(w, p.cap), p, maxIter, i, j);
  }
}
