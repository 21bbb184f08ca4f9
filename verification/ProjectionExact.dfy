/**
  For which weights the projection is the nearest point of the capped simplex, at
  zero tolerances: the exact condition over all inputs. The loop never frees a
  coordinate it froze, so a coordinate clipped at the wrong bound stays there.
*/
module ProjectionExact {
  import opened Reals
  import opened Projection
  import opened ProjectionTheorems
  import opened ProjectionCap
  import opened ProjectionSlack
  import opened NearestPoint

  // ---------------------------------------------------------------- the condition

  /** Every weight lowered by x. */
  function Shifted(w: seq<real>, x: real): (s: seq<real>)
    ensures |s| == |w|
    ensures forall i :: 0 <= i < |w| ==> s[i] == w[i] - x
  {
    if |w| == 0 then [] else [w[0] - x] + Shifted(w[1..], x)
  }

  /** What the weights hold when lowered by x and clipped. */
  function ShiftedSum(w: seq<real>, cap: real, x: real): real {
    Sum(ClipAll(Shifted(w, x), cap))
  }

  /** How many weights the first clip puts at the cap. */
  function FullCount(w: seq<real>, cap: real): (h: nat)
    ensures h <= |w|
  {
    if |w| == 0 then 0 else (if w[0] >= cap then 1 else 0) + FullCount(w[1..], cap)
  }

  predicate AllEqual(w: seq<real>) {
    forall i, j :: 0 <= i < |w| && 0 <= j < |w| ==> w[i] == w[j]
  }

  /** No weight was clipped at 0 that the rise of the others would lift: the sum reaches 1 before. */
  predicate NoneLeftBelow(w: seq<real>, cap: real) {
    forall j :: 0 <= j < |w| && w[j] <= 0.0 ==> ShiftedSum(w, cap, w[j]) >= 1.0
  }

  /** No weight was clipped at the cap that the fall of the others would lower: the sum reaches 1 before. */
  predicate NoneLeftAbove(w: seq<real>, cap: real) {
    forall i :: 0 <= i < |w| && w[i] >= cap ==> ShiftedSum(w, cap, w[i] - cap) <= 1.0
  }

  /** The h weights at the cap share everything: they are equal, and 1 / h above the others. */
  predicate FullShareAll(w: seq<real>, cap: real) {
    var h := FullCount(w, cap);
    && h > 0 && Multiple(h, cap) > 1.0
    && (forall i, j :: 0 <= i < |w| && 0 <= j < |w| && w[i] >= cap ==>
          if w[j] >= cap then w[i] == w[j] else w[j] <= w[i] - 1.0 / h as real)
  }

  /** What a caller can check before the call. */
  predicate NearestCondition(w: seq<real>, cap: real) {
    var s := Sum(ClipAll(w, cap));
    if s == 1.0 then true
    else if s > 1.0 then NoneLeftAbove(w, cap) || FullShareAll(w, cap)
    else if CountAbove(w, 0.0) > 0 then NoneLeftBelow(w, cap)
    else AllEqual(w) || Multiple(|w|, cap) == 1.0
  }

  // ---------------------------------------------------------------- counting

  lemma {:induction false} ClipAbove(w: seq<real>, cap: real)
    requires cap > 0.0
    ensures CountAbove(ClipAll(w, cap), 0.0) == CountAbove(w, 0.0)
  {
    if |w| != 0 {
      ClipAbove(w[1..], cap);
    }
  }

  lemma {:induction false} AllAbove(w: seq<real>)
    ensures CountAbove(w, 0.0) == |w| <==> forall i :: 0 <= i < |w| ==> w[i] > 0.0
    ensures CountAbove(w, 0.0) == 0 <==> forall i :: 0 <= i < |w| ==> w[i] <= 0.0
  {
    if |w| != 0 {
      AllAbove(w[1..]);
      assert forall i :: 0 < i < |w| ==> w[i] == w[1..][i - 1];
    }
  }

  /** At most cap on each positive weight. */
  lemma {:induction false} SumAtMostAbove(x: seq<real>, w: seq<real>, cap: real)
    requires |x| == |w| && forall i :: 0 <= i < |w| ==> x[i] <= if w[i] > 0.0 then cap else 0.0
    ensures Sum(x) <= Multiple(CountAbove(w, 0.0), cap)
  {
    if |w| != 0 {
      SumAtMostAbove(x[1..], w[1..], cap);
    }
  }

  /** At least cap on each full weight, exactly that if the others carry nothing. */
  lemma {:induction false} SumOfFull(x: seq<real>, w: seq<real>, cap: real)
    requires |x| == |w| && forall i :: 0 <= i < |w| ==> x[i] >= (if w[i] >= cap then cap else 0.0)
    ensures Sum(x) >= Multiple(FullCount(w, cap), cap)
    ensures (forall i :: 0 <= i < |w| ==> x[i] == (if w[i] >= cap then cap else 0.0)) ==>
      Sum(x) == Multiple(FullCount(w, cap), cap)
  {
    if |w| != 0 {
      SumOfFull(x[1..], w[1..], cap);
    }
  }

  lemma {:induction false} SomeFull(w: seq<real>, cap: real)
    ensures FullCount(w, cap) > 0 <==> exists i :: 0 <= i < |w| && w[i] >= cap
  {
    if |w| != 0 {
      SomeFull(w[1..], cap);
      if w[0] < cap && FullCount(w[1..], cap) > 0 {
        var i :| 0 <= i < |w[1..]| && w[1..][i] >= cap;
        assert w[i + 1] >= cap;
      }
      if exists i :: 0 <= i < |w| && w[i] >= cap {
        var i :| 0 <= i < |w| && w[i] >= cap;
        if i > 0 {
          assert w[1..][i - 1] >= cap;
        }
      }
    }
  }

  /** The greatest of the first k weights that are not positive. */
  lemma {:induction false} GreatestBelow(w: seq<real>, k: nat) returns (m: nat)
    requires k <= |w| && exists i :: 0 <= i < k && w[i] <= 0.0
    ensures m < k && w[m] <= 0.0 && forall i :: 0 <= i < k && w[i] <= 0.0 ==> w[i] <= w[m]
  {
    if exists i :: 0 <= i < k - 1 && w[i] <= 0.0 {
      m := GreatestBelow(w, k - 1);
      if w[m] < w[k - 1] <= 0.0 {
        m := k - 1;
      }
    } else {
      m := k - 1;
    }
  }

  /** The least of the first k weights that are at least the cap. */
  lemma {:induction false} LeastFull(w: seq<real>, cap: real, k: nat) returns (m: nat)
    requires k <= |w| && exists i :: 0 <= i < k && w[i] >= cap
    ensures m < k && w[m] >= cap && forall i :: 0 <= i < k && w[i] >= cap ==> w[i] >= w[m]
  {
    if exists i :: 0 <= i < k - 1 && w[i] >= cap {
      m := LeastFull(w, cap, k - 1);
      if cap <= w[k - 1] < w[m] {
        m := k - 1;
      }
    } else {
      m := k - 1;
    }
  }

  // ---------------------------------------------------------------- too little: the loop lifts

  /** The positive weights have been raised by theta, up to the cap; the others stay at 0. */
  ghost predicate Lifts(f: seq<real>, w: seq<real>, cap: real, theta: real) {
    |f| == |w| && forall i :: 0 <= i < |w| ==> f[i] == if w[i] <= 0.0 then 0.0 else Min(cap, w[i] + theta)
  }

  lemma PassLifts(w: seq<real>, p: Params, v: seq<real>, theta: real)
    requires p.Valid() && p.Exact() && p.cap > 0.0 && Lifts(v, w, p.cap, theta) && theta >= 0.0
    requires Sum(v) <= 1.0 && !Stops(v, p)
    ensures Shift(v, p) >= 0.0 && Lifts(Pass(v, p), w, p.cap, theta + Shift(v, p)) && Sum(Pass(v, p)) <= 1.0
  {
    ShiftHandsOutDeficit(v, p);
    assert InBox(v, p);
    PassProgress(v, p);
    hide Shift, Sum, FreeCount, Stops, InBox;
  }

  lemma {:induction false} PassesLift(w: seq<real>, p: Params, v: seq<real>, theta: real, fuel: nat)
    returns (theta': real)
    requires p.Valid() && p.Exact() && p.cap > 0.0 && Lifts(v, w, p.cap, theta) && theta >= 0.0 && Sum(v) <= 1.0
    ensures theta' >= 0.0 && Lifts(Passes(v, p, fuel), w, p.cap, theta')
    decreases fuel
  {
    theta' := theta;
    if fuel > 0 && !Stops(v, p) {
      PassLifts(w, p, v, theta);
      hide Pass, Lifts, Stops;
      theta' := PassesLift(w, p, Pass(v, p), theta + Shift(v, p), fuel - 1);
    }
  }

  lemma FinalLifts(w: seq<real>, p: Params, maxIter: nat) returns (theta: real)
    requires p.Valid() && p.Exact() && p.cap > 0.0 && Sum(ClipAll(w, p.cap)) <= 1.0
    ensures theta >= 0.0 && Lifts(Final(w, p, maxIter), w, p.cap, theta)
  {
    theta := PassesLift(w, p, ClipAll(w, p.cap), 0.0, maxIter);
  }

  /** If nothing can be exchanged, every weight clipped at 0 belongs there. */
  lemma LiftedNeedsNone(f: seq<real>, w: seq<real>, cap: real, theta: real)
    requires cap > 0.0 && Lifts(f, w, cap, theta) && theta >= 0.0 && Sum(f) == 1.0 && NoExchange(f, w, cap)
    ensures NoneLeftBelow(w, cap)
  {
    forall j | 0 <= j < |w| && w[j] <= 0.0 ensures ShiftedSum(w, cap, w[j]) >= 1.0 {
      var c := ClipAll(Shifted(w, w[j]), cap);
      forall i | 0 <= i < |w| ensures f[i] <= c[i] {
        assert f[i] > 0.0 ==> f[i] - w[i] <= f[j] - w[j];
      }
      hide Sum, ClipAll, Shifted, NoExchange, Lifts;
      SumMonotone(f, c);
    }
  }

  lemma SumMonotone(a: seq<real>, b: seq<real>)
    requires |a| == |b| && forall i :: 0 <= i < |a| ==> a[i] <= b[i]
    ensures Sum(a) <= Sum(b)
    ensures (exists i :: 0 <= i < |a| && a[i] < b[i]) ==> Sum(a) < Sum(b)
  {
    if |a| > 0 {
      GapAtMostSums(a, b);
      assert b[0] - a[0] <= Sum(b) - Sum(a);
    }
    hide Sum;
  }

  /** And if every weight clipped at 0 belongs there, nothing can be exchanged. */
  lemma LiftedIsEnough(f: seq<real>, w: seq<real>, cap: real, theta: real)
    requires cap > 0.0 && Lifts(f, w, cap, theta) && theta >= 0.0 && Sum(f) == 1.0 && NoneLeftBelow(w, cap)
    ensures NoExchange(f, w, cap)
  {
    if i, j :| 0 <= i < |f| && 0 <= j < |f| && f[i] > 0.0 && f[j] < cap && f[i] - w[i] > f[j] - w[j] {
      assert w[j] <= 0.0;
      hide Sum, NoneLeftBelow;
      var m := GreatestBelow(w, |w|);
      ShiftedBelow(f, w, cap, theta, i, m);
    }
  }

  /** A pair that could be exchanged shows a sum of less than 1 at the greatest non-positive weight. */
  lemma ShiftedBelow(f: seq<real>, w: seq<real>, cap: real, theta: real, i: nat, m: nat)
    requires cap > 0.0 && Lifts(f, w, cap, theta) && Sum(f) == 1.0 && i < |w| && m < |w|
    requires f[i] > 0.0 && f[i] - w[i] > -w[m]
    requires w[m] <= 0.0 && forall l :: 0 <= l < |w| && w[l] <= 0.0 ==> w[l] <= w[m]
    ensures ShiftedSum(w, cap, w[m]) < 1.0
  {
    var c := ClipAll(Shifted(w, w[m]), cap);
    forall l | 0 <= l < |w| ensures c[l] <= f[l] {
    }
    assert c[i] < f[i];
    hide Sum, ClipAll, Shifted, Lifts;
    SumMonotone(c, f);
  }

  // ---------------------------------------------------------------- too much: the loop lowers

  /** The weights below the cap have been lowered by delta, down to 0; the others stay at the cap. */
  ghost predicate Lowers(f: seq<real>, w: seq<real>, cap: real, delta: real) {
    |f| == |w| && forall i :: 0 <= i < |w| ==> f[i] == if w[i] >= cap then cap else Max(0.0, w[i] - delta)
  }

  lemma PassLowers(w: seq<real>, p: Params, v: seq<real>, delta: real)
    requires p.Valid() && p.Exact() && p.cap > 0.0 && Lowers(v, w, p.cap, delta) && delta >= 0.0
    requires Sum(v) >= 1.0 && !Stops(v, p)
    ensures Shift(v, p) <= 0.0 && Lowers(Pass(v, p), w, p.cap, delta - Shift(v, p)) && Sum(Pass(v, p)) >= 1.0
  {
    ShiftHandsOutDeficit(v, p);
    assert InBox(v, p);
    PassProgress(v, p);
    hide Shift, Sum, FreeCount, Stops, InBox;
  }

  lemma {:induction false} PassesLower(w: seq<real>, p: Params, v: seq<real>, delta: real, fuel: nat)
    returns (delta': real)
    requires p.Valid() && p.Exact() && p.cap > 0.0 && Lowers(v, w, p.cap, delta) && delta >= 0.0 && Sum(v) >= 1.0
    ensures delta' >= 0.0 && Lowers(Passes(v, p, fuel), w, p.cap, delta')
    decreases fuel
  {
    delta' := delta;
    if fuel > 0 && !Stops(v, p) {
      PassLowers(w, p, v, delta);
      hide Pass, Lowers, Stops;
      delta' := PassesLower(w, p, Pass(v, p), delta - Shift(v, p), fuel - 1);
    }
  }

  lemma FinalLowers(w: seq<real>, p: Params, maxIter: nat) returns (delta: real)
    requires p.Valid() && p.Exact() && p.cap > 0.0 && Sum(ClipAll(w, p.cap)) >= 1.0
    ensures delta >= 0.0 && Lowers(Final(w, p, maxIter), w, p.cap, delta)
  {
    delta := PassesLower(w, p, ClipAll(w, p.cap), 0.0, maxIter);
  }

  lemma LoweredNeedsNone(f: seq<real>, w: seq<real>, cap: real, delta: real)
    requires cap > 0.0 && Lowers(f, w, cap, delta) && delta >= 0.0 && Sum(f) == 1.0 && NoExchange(f, w, cap)
    ensures NoneLeftAbove(w, cap)
  {
    forall i | 0 <= i < |w| && w[i] >= cap ensures ShiftedSum(w, cap, w[i] - cap) <= 1.0 {
      var c := ClipAll(Shifted(w, w[i] - cap), cap);
      forall l | 0 <= l < |w| ensures c[l] <= f[l] {
        assert f[l] < cap ==> f[i] - w[i] <= f[l] - w[l];
      }
      hide Sum, ClipAll, Shifted, NoExchange, Lowers;
      SumMonotone(c, f);
    }
  }

  lemma LoweredIsEnough(f: seq<real>, w: seq<real>, cap: real, delta: real)
    requires cap > 0.0 && Lowers(f, w, cap, delta) && delta >= 0.0 && Sum(f) == 1.0 && NoneLeftAbove(w, cap)
    ensures NoExchange(f, w, cap)
  {
    if i, j :| 0 <= i < |f| && 0 <= j < |f| && f[i] > 0.0 && f[j] < cap && f[i] - w[i] > f[j] - w[j] {
      assert w[i] >= cap && w[j] < cap;
      hide Sum, NoneLeftAbove;
      var m := LeastFull(w, cap, |w|);
      ShiftedAbove(f, w, cap, delta, j, m);
    }
  }

  /** A pair that could be exchanged shows a sum of more than 1 at the least full weight. */
  lemma ShiftedAbove(f: seq<real>, w: seq<real>, cap: real, delta: real, j: nat, m: nat)
    requires cap > 0.0 && Lowers(f, w, cap, delta) && Sum(f) == 1.0 && j < |w| && m < |w|
    requires w[j] < cap && cap - w[m] > f[j] - w[j]
    requires w[m] >= cap && forall l :: 0 <= l < |w| && w[l] >= cap ==> w[l] >= w[m]
    ensures ShiftedSum(w, cap, w[m] - cap) > 1.0
  {
    var c := ClipAll(Shifted(w, w[m] - cap), cap);
    forall l | 0 <= l < |w| ensures c[l] >= f[l] {
    }
    assert c[j] > f[j];
    hide Sum, ClipAll, Shifted, Lowers;
    SumMonotone(f, c);
  }

  // ---------------------------------------------------------------- nothing positive

  lemma EqualExactlyWhen(w: seq<real>, cap: real)
    requires |w| > 0 && Multiple(|w|, cap) >= 1.0
    ensures NoExchange(Const(|w|, 1.0 / |w| as real), w, cap) <==> AllEqual(w) || Multiple(|w|, cap) == 1.0
  {
    var x, u := 1.0 / |w| as real, Const(|w|, 1.0 / |w| as real);
    Reciprocal(|w| as real);
    ReciprocalMeetsCap(|w|, cap);
    ReciprocalIsCap(|w|, cap);
    hide Multiple;
    if NoExchange(u, w, cap) && x < cap {
      forall i, j | 0 <= i < |w| && 0 <= j < |w| ensures w[i] == w[j] {
        assert u[i] > 0.0 && u[j] < cap && u[j] > 0.0 && u[i] < cap;
      }
    }
  }

  lemma ReciprocalIsCap(n: nat, cap: real)
    requires n > 0
    ensures 1.0 / n as real == cap <==> Multiple(n, cap) == 1.0
  {
    MultipleIsProduct(n, cap);
    var t := n as real;
    Reciprocal(t);
    hide Multiple;
    ReciprocalOnly(1.0 / t, t, cap, t * cap);
  }

  lemma ReciprocalOnly(q: real, t: real, c: real, y: real)
    requires t > 0.0 && q * t == 1.0 && y == t * c
    ensures q == c <==> y == 1.0
  {
    assert t * (q - c) == q * t - y;
  }

  // ---------------------------------------------------------------- everything shared by the full weights

  /** 1 / h on the full weights, nothing on the others. */
  ghost predicate SharedByFull(r: seq<real>, w: seq<real>, cap: real, share: real) {
    |r| == |w| && forall i :: 0 <= i < |w| ==> r[i] == if w[i] >= cap then share else 0.0
  }

  lemma SharedExactlyWhen(r: seq<real>, w: seq<real>, cap: real, share: real)
    requires SharedByFull(r, w, cap, share) && 0.0 < share < cap
    ensures NoExchange(r, w, cap) <==>
      forall i, j :: 0 <= i < |w| && 0 <= j < |w| && w[i] >= cap ==>
        if w[j] >= cap then w[i] == w[j] else w[j] <= w[i] - share
  {
    if NoExchange(r, w, cap) {
      forall i, j | 0 <= i < |w| && 0 <= j < |w| && w[i] >= cap
        ensures if w[j] >= cap then w[i] == w[j] else w[j] <= w[i] - share
      {
        assert r[i] > 0.0 && r[i] < cap && r[j] < cap;
        assert r[i] - w[i] <= r[j] - w[j];
      }
    }
  }

  // ---------------------------------------------------------------- the cases

  lemma CapIsPositive(n: nat, cap: real)
    requires Multiple(n, cap) >= 1.0
    ensures cap > 0.0
  {
    if cap <= 0.0 {
      MultipleMonotone(n, cap, 0.0);
    }
  }

  lemma ClippedNoExchange(v: seq<real>, w: seq<real>, cap: real)
    requires cap > 0.0 && v == ClipAll(w, cap) && Sum(v) == 1.0
    ensures Feasible(v, cap) && NoExchange(v, w, cap)
  {
    hide Sum;
  }

  /** The clipped weights are feasible as they are. */
  lemma ClippedIsNearest(w: seq<real>, p: Params, maxIter: nat)
    requires p.Valid() && p.Exact() && |w| > 0 && p.cap > 0.0 && Sum(ClipAll(w, p.cap)) == 1.0
    ensures IsNearest(Project(w, p, maxIter), w, p.cap)
  {
    assert Accepted(w, p);
    hide *;
    ProjectIsClipped(w, p, maxIter);
    ClippedNoExchange(ClipAll(w, p.cap), w, p.cap);
    NearestExactlyWhen(ClipAll(w, p.cap), w, p.cap);
  }

  lemma LiftedFeasible(f: seq<real>, w: seq<real>, cap: real, theta: real)
    requires cap > 0.0 && theta >= 0.0 && Lifts(f, w, cap, theta) && Sum(f) == 1.0
    ensures Feasible(f, cap)
  {
    hide Sum;
  }

  lemma LiftedNearest(f: seq<real>, w: seq<real>, cap: real, theta: real)
    requires cap > 0.0 && theta >= 0.0 && Lifts(f, w, cap, theta) && Sum(f) == 1.0
    ensures |f| == |w| && (IsNearest(f, w, cap) <==> NoneLeftBelow(w, cap))
  {
    LiftedFeasible(f, w, cap, theta);
    assert |f| == |w|;
    hide *;
    NearestExactlyWhen(f, w, cap);
    if NoExchange(f, w, cap) {
      LiftedNeedsNone(f, w, cap, theta);
    }
    if NoneLeftBelow(w, cap) {
      LiftedIsEnough(f, w, cap, theta);
    }
  }

  lemma DeficitReached(w: seq<real>, p: Params, maxIter: nat)
    requires p.Valid() && p.Exact() && 0 < |w| <= maxIter && p.cap > 0.0 && Sum(ClipAll(w, p.cap)) < 1.0
    requires Multiple(CountAbove(w, 0.0), p.cap) >= 1.0
    ensures IsNearest(Project(w, p, maxIter), w, p.cap) <==> NoneLeftBelow(w, p.cap)
  {
    DeficitSum(w, p, maxIter);
    hide *;
    ProjectIsFinal(w, p, maxIter);
    var theta := FinalLifts(w, p, maxIter);
    LiftedNearest(Final(w, p, maxIter), w, p.cap, theta);
  }

  lemma DeficitSum(w: seq<real>, p: Params, maxIter: nat)
    requires p.Valid() && p.Exact() && 0 < |w| <= maxIter && p.cap > 0.0 && Sum(ClipAll(w, p.cap)) < 1.0
    requires Multiple(CountAbove(w, 0.0), p.cap) >= 1.0
    ensures Sum(Final(w, p, maxIter)) == 1.0
  {
    ClipAbove(w, p.cap);
    hide Sum, Multiple, Final, ClipAll, CountAbove;
    DeficitEnd(w, p, maxIter);
  }

  lemma ShiftedHoldsLittle(w: seq<real>, cap: real)
    requires cap > 0.0 && CountAbove(w, 0.0) < |w| && Multiple(CountAbove(w, 0.0), cap) < 1.0
    ensures !NoneLeftBelow(w, cap)
  {
    AllAbove(w);
    hide Multiple, Sum, CountAbove;
    var m := GreatestBelow(w, |w|);
    SumAtMostAbove(ClipAll(Shifted(w, w[m]), cap), w, cap);
    assert ShiftedSum(w, cap, w[m]) < 1.0;
  }

  lemma DeficitBroken(w: seq<real>, p: Params, maxIter: nat)
    requires p.Valid() && p.Exact() && 0 < |w| <= maxIter && p.cap > 0.0 && Sum(ClipAll(w, p.cap)) < 1.0
    requires CountAbove(w, 0.0) > 0 && Multiple(CountAbove(w, 0.0), p.cap) < 1.0 <= Multiple(|w|, p.cap)
    ensures !IsNearest(Project(w, p, maxIter), w, p.cap) && !NoneLeftBelow(w, p.cap)
  {
    hide *;
    LiftedCount(w, p);
    var i := SomeAboveCap(w, p, maxIter);
    AboveCapNotNearest(Project(w, p, maxIter), w, p.cap, i);
    ShiftedHoldsLittle(w, p.cap);
  }

  lemma LiftedCount(w: seq<real>, p: Params)
    requires p.Exact() && p.cap > 0.0
    ensures Lifted(w, p) == CountAbove(w, 0.0)
  {
    ClipAbove(w, p.cap);
  }

  lemma AboveCapNotNearest(r: seq<real>, w: seq<real>, cap: real, i: nat)
    requires i < |r| == |w| && r[i] > cap
    ensures !IsNearest(r, w, cap)
  {
    hide Dist2, Sum;
  }

  lemma SomeAboveCap(w: seq<real>, p: Params, maxIter: nat) returns (i: nat)
    requires p.Valid() && p.Exact() && 0 < |w| <= maxIter && p.cap > 0.0 && Sum(ClipAll(w, p.cap)) < 1.0
    requires Lifted(w, p) > 0 && Multiple(Lifted(w, p), p.cap) < 1.0
    ensures i < |w| && Project(w, p, maxIter)[i] > p.cap
  {
    SomeLifted(ClipAll(w, p.cap), p.band);
    hide Sum, Multiple, Project, ClipAll, CountAbove;
    CapBrokenValue(w, p, maxIter);
    i :| 0 <= i < |w| && ClipAll(w, p.cap)[i] > p.band;
  }

  lemma NothingPositive(w: seq<real>, p: Params, maxIter: nat)
    requires p.Valid() && p.Exact() && 0 < |w| <= maxIter && p.cap > 0.0 && CountAbove(w, 0.0) == 0
    requires Multiple(|w|, p.cap) >= 1.0
    ensures IsNearest(Project(w, p, maxIter), w, p.cap) <==> AllEqual(w) || Multiple(|w|, p.cap) == 1.0
  {
    ClipAbove(w, p.cap);
    NothingLifted(w, p, maxIter);
    hide Project, Multiple, ClipAll, CountAbove, AllEqual;
    ReciprocalMeetsCap(|w|, p.cap);
    EqualWeights(|w|);
    hide Sum, NoExchange;
    NearestExactlyWhen(Const(|w|, 1.0 / |w| as real), w, p.cap);
    EqualExactlyWhen(w, p.cap);
  }

  lemma LoweredEnds(f: seq<real>, w: seq<real>, p: Params, delta: real)
    requires p.Exact() && p.cap > 0.0 && Lowers(f, w, p.cap, delta) && delta >= 0.0
    ensures Sum(f) >= Multiple(FullCount(w, p.cap), p.cap)
    ensures FreeCount(f, p) == 0 ==>
      Sum(f) == Multiple(FullCount(w, p.cap), p.cap) && SharedByFull(f, w, p.cap, p.cap)
  {
    SumOfFull(f, w, p.cap);
    if FreeCount(f, p) == 0 {
      NoneFree(f, p);
      hide Sum, Multiple, FullCount, FreeCount;
      assert SharedByFull(f, w, p.cap, p.cap);
      assert forall i :: 0 <= i < |w| ==> f[i] == (if w[i] >= p.cap then p.cap else 0.0);
    }
  }

  lemma SurplusFinal(w: seq<real>, p: Params, maxIter: nat) returns (delta: real)
    requires p.Valid() && p.Exact() && 0 < |w| <= maxIter && p.cap > 0.0 && Sum(ClipAll(w, p.cap)) > 1.0
    ensures delta >= 0.0 && Lowers(Final(w, p, maxIter), w, p.cap, delta)
    ensures Project(w, p, maxIter) == Normalize(Final(w, p, maxIter))
    ensures Multiple(FullCount(w, p.cap), p.cap) <= 1.0 ==> Sum(Final(w, p, maxIter)) == 1.0
    ensures Multiple(FullCount(w, p.cap), p.cap) > 1.0 ==>
      Sum(Final(w, p, maxIter)) == Multiple(FullCount(w, p.cap), p.cap)
      && SharedByFull(Final(w, p, maxIter), w, p.cap, p.cap)
  {
    delta := FinalLowers(w, p, maxIter);
    ProjectIsNormalized(w, p, maxIter);
    ClipAllInBox(w, p);
    PassesKeep(ClipAll(w, p.cap), p, maxIter);
    PassesFinish(ClipAll(w, p.cap), p, maxIter);
    hide Passes, Lowers, SharedByFull, Normalize, ClipAll, Multiple, FullCount;
    LoweredEnds(Final(w, p, maxIter), w, p, delta);
  }

  lemma NormalizeOne(f: seq<real>)
    requires |f| > 0 && Sum(f) == 1.0
    ensures Normalize(f) == f
  {
    ScaleByOne(f);
  }

  lemma LoweredFeasible(f: seq<real>, w: seq<real>, cap: real, delta: real)
    requires cap > 0.0 && delta >= 0.0 && Lowers(f, w, cap, delta) && Sum(f) == 1.0
    ensures Feasible(f, cap)
  {
    hide Sum;
  }

  lemma LoweredNearest(f: seq<real>, w: seq<real>, cap: real, delta: real)
    requires cap > 0.0 && delta >= 0.0 && Lowers(f, w, cap, delta) && Sum(f) == 1.0
    ensures |f| == |w| && (IsNearest(f, w, cap) <==> NoneLeftAbove(w, cap))
  {
    LoweredFeasible(f, w, cap, delta);
    assert |f| == |w|;
    hide *;
    NearestExactlyWhen(f, w, cap);
    if NoExchange(f, w, cap) {
      LoweredNeedsNone(f, w, cap, delta);
    }
    if NoneLeftAbove(w, cap) {
      LoweredIsEnough(f, w, cap, delta);
    }
  }

  lemma SurplusReached(w: seq<real>, p: Params, maxIter: nat)
    requires p.Valid() && p.Exact() && 0 < |w| <= maxIter && p.cap > 0.0 && Sum(ClipAll(w, p.cap)) > 1.0
    requires Multiple(FullCount(w, p.cap), p.cap) <= 1.0
    ensures IsNearest(Project(w, p, maxIter), w, p.cap) <==> NoneLeftAbove(w, p.cap)
  {
    hide *;
    var delta := SurplusFinal(w, p, maxIter);
    NormalizeOne(Final(w, p, maxIter));
    LoweredNearest(Final(w, p, maxIter), w, p.cap, delta);
  }

  lemma ShiftedHoldsMuch(w: seq<real>, cap: real)
    requires cap > 0.0 && Multiple(FullCount(w, cap), cap) > 1.0
    ensures FullCount(w, cap) > 0 && !NoneLeftAbove(w, cap)
  {
    assert FullCount(w, cap) > 0;
    SomeFull(w, cap);
    hide Multiple, Sum, FullCount;
    var m := LeastFull(w, cap, |w|);
    SumOfFull(ClipAll(Shifted(w, w[m] - cap), cap), w, cap);
    assert ShiftedSum(w, cap, w[m] - cap) > 1.0;
  }

  lemma ShareBelowCap(h: nat, cap: real)
    requires h > 0 && Multiple(h, cap) > 1.0
    ensures 0.0 < 1.0 / h as real < cap
  {
    Reciprocal(h as real);
    ReciprocalMeetsCap(h, cap);
    ReciprocalIsCap(h, cap);
  }

  lemma SurplusShared(w: seq<real>, p: Params, maxIter: nat)
    requires p.Valid() && p.Exact() && 0 < |w| <= maxIter && p.cap > 0.0 && Sum(ClipAll(w, p.cap)) > 1.0
    requires Multiple(FullCount(w, p.cap), p.cap) > 1.0
    ensures IsNearest(Project(w, p, maxIter), w, p.cap) <==> FullShareAll(w, p.cap)
  {
    ShiftedHoldsMuch(w, p.cap);
    hide *;
    var delta := SurplusFinal(w, p, maxIter);
    var h, r := FullCount(w, p.cap), Project(w, p, maxIter);
    ShareBelowCap(h, p.cap);
    SharedNormalized(Final(w, p, maxIter), w, p.cap, h);
    ProjectIsLongOnlyFullyInvested(w, p, maxIter);
    SumOfUnaccepted(w, p, maxIter);
    SharedNearest(r, w, p.cap, h);
  }

  lemma SumOfUnaccepted(w: seq<real>, p: Params, maxIter: nat)
    requires p.Valid() && p.Exact() && |w| > 0 && Sum(ClipAll(w, p.cap)) > 1.0
    ensures Sum(Project(w, p, maxIter)) == 1.0
  {
    ProjectIsLongOnlyFullyInvested(w, p, maxIter);
    hide Project, Passes;
  }

  lemma SharedNormalized(f: seq<real>, w: seq<real>, cap: real, h: nat)
    requires |f| > 0 && h > 0 && cap > 0.0 && SharedByFull(f, w, cap, cap) && Sum(f) == Multiple(h, cap)
    ensures SharedByFull(Normalize(f), w, cap, 1.0 / h as real)
  {
    hide Sum, Multiple, Normalize;
    NormalizeTwoValued(f, cap, h);
  }

  lemma SharedNearest(r: seq<real>, w: seq<real>, cap: real, h: nat)
    requires h > 0 && h == FullCount(w, cap) && Multiple(h, cap) > 1.0 && 0.0 < 1.0 / h as real < cap
    requires SharedByFull(r, w, cap, 1.0 / h as real) && Sum(r) == 1.0
    ensures |r| == |w| && (IsNearest(r, w, cap) <==> FullShareAll(w, cap))
  {
    hide Sum, Multiple, FullCount, IsNearest, NoExchange;
    var share := 1.0 / h as real;
    NearestExactlyWhen(r, w, cap);
    SharedExactlyWhen(r, w, cap, share);
    assert Feasible(r, cap);
  }

  /**
    The exact condition, over all weights: with a cap that n weights can meet,
    the projection is the nearest point of the capped simplex if and only if
    the condition holds.
  */
  lemma ProjectIsNearestExactlyWhen(w: seq<real>, p: Params, maxIter: nat)
    requires p.Valid() && p.Exact() && 0 < |w| <= maxIter && Multiple(|w|, p.cap) >= 1.0
    ensures IsNearest(Project(w, p, maxIter), w, p.cap) <==> NearestCondition(w, p.cap)
  {
    hide Passes, Multiple, FullCount, ClipAll, Project, Sum, IsNearest, NoneLeftAbove, NoneLeftBelow, AllEqual, CountAbove;
    CapIsPositive(|w|, p.cap);
    var s, k, h := Sum(ClipAll(w, p.cap)), CountAbove(w, 0.0), FullCount(w, p.cap);
    if s == 1.0 {
      ClippedIsNearest(w, p, maxIter);
    } else if s > 1.0 {
      if Multiple(h, p.cap) <= 1.0 {
        SurplusReached(w, p, maxIter);
      } else {
        SurplusShared(w, p, maxIter);
        ShiftedHoldsMuch(w, p.cap);
      }
    } else if k == 0 {
      NothingPositive(w, p, maxIter);
    } else if Multiple(k, p.cap) >= 1.0 {
      DeficitReached(w, p, maxIter);
    } else {
      DeficitBroken(w, p, maxIter);
    }
  }

  // ---------------------------------------------------------------- examples

  lemma {:induction false} PassOnce(v: seq<real>, u: seq<real>, p: Params, fuel: nat)
    requires fuel > 0 && !Stops(v, p) && Pass(v, p) == u && Stops(u, p)
    ensures Passes(v, p, fuel) == u
  {
  }

  /**
    A surplus misses too, with no weight near the band and a cap that is kept:
    here the first two weights are clipped at the cap and stay there.
  */
  lemma SurplusExample(p: Params)
    requires p == Params(0.6, 0.0, 0.0, 0.0) || p == CodeParams(0.6)
    ensures var w := [0.7, 0.6, 0.3];
      && Project(w, p, 200) == [0.5, 0.5, 0.0]
      && Feasible([0.5, 0.4, 0.1], 0.6) && Dist2([0.5, 0.4, 0.1], w) < Dist2([0.5, 0.5, 0.0], w)
  {
    SurplusExampleResult(p);
    SurplusExampleNearer();
  }

  lemma SurplusExampleResult(p: Params)
    requires p == Params(0.6, 0.0, 0.0, 0.0) || p == CodeParams(0.6)
    ensures Project([0.7, 0.6, 0.3], p, 200) == [0.5, 0.5, 0.0]
  {
    var w, v, u := [0.7, 0.6, 0.3], [0.6, 0.6, 0.3], [0.6, 0.6, 0.0];
    assert ClipAll(w, 0.6) == v;
    Triple(0.6, 0.6, 0.3, p);
    Triple(0.6, 0.6, 0.0, p);
    assert Pass(v, p) == u;
    PassOnce(v, u, p, 200);
    hide Passes, Pass, ClipAll, FreeCount;
    ScaleAt(1.0 / 1.2, u, 0);
    ScaleAt(1.0 / 1.2, u, 1);
    ScaleAt(1.0 / 1.2, u, 2);
    assert Scale(1.0 / 1.2, u) == [0.5, 0.5, 0.0];
  }

  lemma DotTriple(a: real, b: real, c: real)
    ensures Dot([a, b, c], [a, b, c]) == a * a + b * b + c * c
  {
    assert [a, b, c][1..] == [b, c] && [b, c][1..] == [c] && [c][1..] == [];
    assert Dot([c], [c]) == c * c;
    assert Dot([b, c], [b, c]) == b * b + c * c;
  }

  lemma SurplusExampleNearer()
    ensures var w := [0.7, 0.6, 0.3];
      Feasible([0.5, 0.4, 0.1], 0.6) && Dist2([0.5, 0.4, 0.1], w) < Dist2([0.5, 0.5, 0.0], w)
  {
    var w := [0.7, 0.6, 0.3];
    Triple(0.5, 0.4, 0.1, CodeParams(0.6));
    hide Sum, FreeCount;
    assert Diff([0.5, 0.4, 0.1], w) == [-0.2, -0.2, -0.2];
    assert Diff([0.5, 0.5, 0.0], w) == [-0.2, -0.1, -0.3];
    hide Diff, Dot;
    DotTriple(-0.2, -0.2, -0.2);
    DotTriple(-0.2, -0.1, -0.3);
  }
}
