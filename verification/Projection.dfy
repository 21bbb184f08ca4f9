/**
  The iterative weight projection: clip to [0, cap], spread the missing (or
  surplus) weight over the coordinates strictly inside the box, clip again,
  repeat, normalise.

  The arithmetic is exact; the three tolerances of the code are parameters.
*/
module Projection {
  import opened Reals

  /**
    cap   - upper bound of a weight (any real: the code does not check it)
    close - an initial sum within this distance of 1 is returned as it is
    sum   - the loop stops once the sum is strictly nearer to 1 than this
    band  - coordinates within this distance of a bound are frozen
  */
  datatype Params = Params(cap: real, close: real, sum: real, band: real) {
    predicate Valid() {
      0.0 <= close < 1.0 && 0.0 <= sum < 1.0 && 0.0 <= band
    }

    /** All three tolerances are zero. */
    predicate Exact() {
      close == 0.0 && sum == 0.0 && band == 0.0
    }
  }

  /** np.isclose(x, 1.0) is |x - 1| <= 1e-8 + 1e-5. */
  const ISCLOSE: real := 0.00001001

  /** The loop stops once the sum is nearer to 1 than this. */
  const SUM_TOLERANCE: real := 0.0000000001

  /** Coordinates within this distance of a bound are frozen. */
  const BAND: real := 0.000000000001

  /** The tolerances of the code. */
  function CodeParams(cap: real): (p: Params)
    ensures p.Valid() && p.cap == cap
  {
    Params(cap, ISCLOSE, SUM_TOLERANCE, BAND)
  }

  /** np.clip with lower bound 0: when cap is negative the upper bound wins. */
  function Clip(x: real, cap: real): real {
    Min(Max(x, 0.0), cap)
  }

  function ClipAll(w: seq<real>, cap: real): (v: seq<real>)
    ensures |v| == |w|
    ensures forall i :: 0 <= i < |w| ==> v[i] == Clip(w[i], cap)
  {
    if |w| == 0 then [] else [Clip(w[0], cap)] + ClipAll(w[1..], cap)
  }

  predicate Free(x: real, p: Params) {
    x > p.band && x < p.cap - p.band
  }

  function FreeCount(v: seq<real>, p: Params): (k: nat)
    ensures k <= |v|
  {
    if |v| == 0 then 0 else (if Free(v[0], p) then 1 else 0) + FreeCount(v[1..], p)
  }

  /** What one pass does to one coordinate. */
  function Move(x: real, p: Params, d: real): real {
    Clip(if Free(x, p) then x + d else x, p.cap)
  }

  function MoveAll(v: seq<real>, p: Params, d: real): (v': seq<real>)
    ensures |v'| == |v|
    ensures forall i :: 0 <= i < |v| ==> v'[i] == Move(v[i], p, d)
  {
    if |v| == 0 then [] else [Move(v[0], p, d)] + MoveAll(v[1..], p, d)
  }

  predicate Stops(v: seq<real>, p: Params) {
    Abs(1.0 - Sum(v)) < p.sum || FreeCount(v, p) == 0
  }

  function Shift(v: seq<real>, p: Params): real
    requires FreeCount(v, p) > 0
  {
    (1.0 - Sum(v)) / FreeCount(v, p) as real
  }

  function Pass(v: seq<real>, p: Params): (v': seq<real>)
    requires FreeCount(v, p) > 0
    ensures |v'| == |v|
  {
    MoveAll(v, p, Shift(v, p))
  }

  function Passes(v: seq<real>, p: Params, fuel: nat): (v': seq<real>)
    ensures |v'| == |v|
    decreases fuel
  {
    if fuel == 0 || Stops(v, p) then v else Passes(Pass(v, p), p, fuel - 1)
  }

  function Normalize(v: seq<real>): (r: seq<real>)
    requires |v| > 0
    ensures |r| == |v|
  {
    if Sum(v) <= 0.0 then Const(|v|, 1.0 / |v| as real) else Scale(1.0 / Sum(v), v)
  }

  function Project(w: seq<real>, p: Params, maxIter: nat): (r: seq<real>)
    requires |w| > 0
    ensures |r| == |w|
  {
    var v := ClipAll(w, p.cap);
    if Abs(Sum(v) - 1.0) <= p.close then v else Normalize(Passes(v, p, maxIter))
  }

  // ---------------------------------------------------------------- one pass

  /** v lies where clipping has no effect. */
  ghost predicate InBox(v: seq<real>, p: Params) {
    forall i :: 0 <= i < |v| ==> Clip(v[i], p.cap) == v[i]
  }

  /** The number of coordinates above the lower freezing band. */
  function CountAbove(v: seq<real>, band: real): (k: nat)
    ensures k <= |v|
  {
    if |v| == 0 then 0 else (if v[0] > band then 1 else 0) + CountAbove(v[1..], band)
  }

  /** The weight a pass hands out before clipping: d per free coordinate. */
  ghost function Handed(v: seq<real>, p: Params, d: real): real {
    if |v| == 0 then 0.0 else (if Free(v[0], p) then d else 0.0) + Handed(v[1..], p, d)
  }

  lemma {:induction false} HandedIsCountTimes(v: seq<real>, p: Params, d: real)
    ensures Handed(v, p, d) == FreeCount(v, p) as real * d
  {
    if |v| != 0 {
      HandedIsCountTimes(v[1..], p, d);
    }
  }

  /**
    Moving every free coordinate by d and clipping: the sum goes in the
    direction of d but by no more than what is handed out, and if it falls
    short then some coordinate got frozen.
  */
  lemma {:induction false} MoveAllEffect(v: seq<real>, p: Params, d: real)
    requires p.Valid() && InBox(v, p)
    ensures var v' := MoveAll(v, p, d);
      && InBox(v', p)
      && FreeCount(v', p) <= FreeCount(v, p)
      && (d >= 0.0 ==> Sum(v) <= Sum(v') <= Sum(v) + Handed(v, p, d))
      && (d <= 0.0 ==> Sum(v) >= Sum(v') >= Sum(v) + Handed(v, p, d))
      && (Sum(v') == Sum(v) + Handed(v, p, d) || FreeCount(v', p) < FreeCount(v, p))
  {
    if |v| != 0 {
      MoveAllEffect(v[1..], p, d);
      assert Clip(v[0], p.cap) == v[0];
    }
  }

  /** A frozen coordinate does not move and does not become free. */
  lemma FrozenStaysFrozen(x: real, p: Params, d: real)
    requires p.Valid() && Clip(x, p.cap) == x && !Free(x, p)
    ensures Move(x, p, d) == x
  {
  }

  /** A pass hands out exactly the deficit, so its shift has the deficit's sign. */
  lemma ShiftHandsOutDeficit(v: seq<real>, p: Params)
    requires FreeCount(v, p) > 0
    ensures Handed(v, p, Shift(v, p)) == 1.0 - Sum(v)
    ensures Sum(v) <= 1.0 ==> Shift(v, p) >= 0.0
    ensures Sum(v) >= 1.0 ==> Shift(v, p) <= 0.0
  {
    var k, d, diff := FreeCount(v, p) as real, Shift(v, p), 1.0 - Sum(v);
    HandedIsCountTimes(v, p, d);
    assert d == diff / k;
    assert k * d == diff;
  }

  /**
    One pass: the sign of the deficit does not flip, no frozen coordinate is
    freed or moved, and either the sum is exactly 1 or the free set shrinks.
  */
  lemma PassProgress(v: seq<real>, p: Params)
    requires p.Valid() && InBox(v, p) && FreeCount(v, p) > 0
    ensures var v' := Pass(v, p);
      && InBox(v', p)
      && (Sum(v) <= 1.0 ==> Sum(v) <= Sum(v') <= 1.0)
      && (Sum(v) >= 1.0 ==> 1.0 <= Sum(v') <= Sum(v))
      && (Sum(v') == 1.0 || FreeCount(v', p) < FreeCount(v, p))
    ensures forall i :: 0 <= i < |v| && !Free(v[i], p) ==> Pass(v, p)[i] == v[i]
  {
    ShiftHandsOutDeficit(v, p);
    MoveAllEffect(v, p, Shift(v, p));
    forall i | 0 <= i < |v| && !Free(v[i], p)
      ensures Pass(v, p)[i] == v[i]
    {
      FrozenStaysFrozen(v[i], p, Shift(v, p));
    }
  }

  // ---------------------------------------------------------------- the loop

  lemma ClipAllInBox(w: seq<real>, p: Params)
    ensures InBox(ClipAll(w, p.cap), p)
  {
  }

  /** Once the sum is exactly 1 further passes change nothing. */
  lemma {:induction false} FixedAtOne(v: seq<real>, p: Params, fuel: nat)
    requires p.Valid() && InBox(v, p) && Sum(v) == 1.0
    ensures Passes(v, p, fuel) == v
  {
    if fuel > 0 && !Stops(v, p) {
      assert Pass(v, p) == v by {
        assert Shift(v, p) == 0.0;
        assert forall i :: 0 <= i < |v| ==> Pass(v, p)[i] == v[i];
      }
      FixedAtOne(v, p, fuel - 1);
    }
  }

  /** At most FreeCount(v) <= n passes ever change the vector. */
  lemma {:induction false} PassesSaturate(v: seq<real>, p: Params, fuel: nat)
    requires p.Valid() && InBox(v, p) && fuel >= FreeCount(v, p)
    ensures Passes(v, p, fuel) == Passes(v, p, FreeCount(v, p))
    decreases fuel
  {
    if !Stops(v, p) {
      var v' := Pass(v, p);
      PassProgress(v, p);
      if Sum(v') == 1.0 {
        FixedAtOne(v', p, fuel - 1);
        FixedAtOne(v', p, FreeCount(v, p) - 1);
      } else {
        PassesSaturate(v', p, fuel - 1);
        PassesSaturate(v', p, FreeCount(v, p) - 1);
      }
    }
  }

  /** The iteration limit never changes the answer once it is at least n. */
  lemma IterationLimitIrrelevant(w: seq<real>, p: Params, m1: nat, m2: nat)
    requires p.Valid() && 0 < |w| <= m1 && |w| <= m2
    ensures Project(w, p, m1) == Project(w, p, m2)
  {
    var v := ClipAll(w, p.cap);
    PassesSaturate(v, p, m1);
    PassesSaturate(v, p, m2);
  }

  /** What the loop keeps, whatever the number of passes. */
  lemma {:induction false} PassesKeep(v: seq<real>, p: Params, fuel: nat)
    requires p.Valid() && InBox(v, p)
    ensures var f := Passes(v, p, fuel);
      && InBox(f, p)
      && (Sum(v) <= 1.0 ==> Sum(v) <= Sum(f) <= 1.0 && CountAbove(f, p.band) == CountAbove(v, p.band))
      && (Sum(v) >= 1.0 ==> 1.0 <= Sum(f) <= Sum(v))
      && (forall i :: 0 <= i < |v| && !Free(v[i], p) ==> f[i] == v[i])
    decreases fuel
  {
    if fuel > 0 && !Stops(v, p) {
      var v' := Pass(v, p);
      PassProgress(v, p);
      if Sum(v) <= 1.0 {
        ShiftHandsOutDeficit(v, p);
        MoveUpKeepsAbove(v, p, Shift(v, p));
      }
      PassesKeep(v', p, fuel - 1);
      forall i | 0 <= i < |v| && !Free(v[i], p)
        ensures Passes(v', p, fuel - 1)[i] == v[i]
      {
        assert v'[i] == v[i];
      }
    }
  }

  lemma {:induction false} MoveUpKeepsAbove(v: seq<real>, p: Params, d: real)
    requires p.Valid() && InBox(v, p) && d >= 0.0
    ensures CountAbove(MoveAll(v, p, d), p.band) == CountAbove(v, p.band)
  {
    if |v| != 0 {
      MoveUpKeepsAbove(v[1..], p, d);
    }
  }

  /** With enough iterations the loop ends for a reason other than the limit. */
  lemma {:induction false} PassesFinish(v: seq<real>, p: Params, fuel: nat)
    requires p.Valid() && InBox(v, p) && fuel >= FreeCount(v, p)
    ensures var f := Passes(v, p, fuel);
      Sum(f) == 1.0 || Abs(1.0 - Sum(f)) < p.sum || FreeCount(f, p) == 0
    decreases fuel
  {
    if !Stops(v, p) {
      var v' := Pass(v, p);
      PassProgress(v, p);
      if Sum(v') == 1.0 {
        FixedAtOne(v', p, fuel - 1);
      } else {
        PassesFinish(v', p, fuel - 1);
      }
    }
  }

  // ---------------------------------------------------------------- the code

  /** v[free] += diff / count, then clip again, in place. */
  method Redistribute(v: array<real>, p: Params)
    requires FreeCount(v[..], p) > 0
    modifies v
    ensures v[..] == Pass(old(v[..]), p)
  {
    hide Sum, FreeCount;
    ghost var before := v[..];
    var d := (1.0 - Sum(v[..])) / FreeCount(v[..], p) as real;
    forall i | 0 <= i < v.Length && Free(v[i], p) {
      v[i] := v[i] + d;
    }
    forall i | 0 <= i < v.Length {
      v[i] := Clip(v[i], p.cap);
    }
    hide Clip, Free;
    assert forall i :: 0 <= i < v.Length ==> v[i] == Move(before[i], p, d);
  }

  /** The loop of the code; an empty vector runs into the division 1.0 / n. */
  method ProjectWeights(w: seq<real>, p: Params, maxIter: nat) returns (r: Result<seq<real>>)
    requires p.Valid()
    ensures |w| == 0 ==> r == ZeroDivision
    ensures |w| > 0 ==> r == Success(Project(w, p, maxIter))
  {
    hide Pass, Clip, FreeCount;
    var n := |w|;
    var v := new real[n];
    forall i | 0 <= i < n {
      v[i] := Clip(w[i], p.cap);
    }
    ghost var clipped := ClipAll(w, p.cap);
    assert v[..] == clipped;
    if Abs(Sum(v[..]) - 1.0) <= p.close {
      return Success(v[..]);
    }

    for k := 0 to maxIter
      invariant Passes(clipped, p, maxIter) == Passes(v[..], p, maxIter - k)
    {
      if Abs(1.0 - Sum(v[..])) < p.sum {
        break;
      }
      if FreeCount(v[..], p) == 0 {
        break;
      }
      Redistribute(v, p);
    }

    var total := Sum(v[..]);
    if total <= 0.0 {
      if n == 0 {
        return ZeroDivision;
      }
      return Success(Const(n, 1.0 / n as real));
    }
    return Success(Scale(1.0 / total, v[..]));
  }
}
