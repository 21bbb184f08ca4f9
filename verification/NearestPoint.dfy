/**
  The nearest point of the capped simplex, characterised without searching for
  it: a feasible point is nearest if and only if no weight can be moved from one
  coordinate to another with profit.
*/
module NearestPoint {
  import opened Reals
  import opened ProjectionTheorems

  /** u is in the capped simplex and no point of it is closer to w. */
  ghost predicate IsNearest(u: seq<real>, w: seq<real>, cap: real)
    requires |u| == |w|
  {
    Feasible(u, cap) && forall x :: |x| == |w| && Feasible(x, cap) ==> Dist2(x, w) >= Dist2(u, w)
  }

  /** A coordinate that could give weight has not been raised more than one that could take it. */
  ghost predicate NoExchange(u: seq<real>, w: seq<real>, cap: real)
    requires |u| == |w|
  {
    forall i, j :: 0 <= i < |u| && 0 <= j < |u| && u[i] > 0.0 && u[j] < cap ==> u[i] - w[i] <= u[j] - w[j]
  }

  // ---------------------------------------------------------------- no exchange is enough

  /** theta separates the rises of those that could give from those that could take. */
  ghost predicate Separates(theta: real, u: seq<real>, w: seq<real>, cap: real)
    requires |u| == |w|
  {
    forall i :: 0 <= i < |u| ==>
      (u[i] > 0.0 ==> u[i] - w[i] <= theta) && (u[i] < cap ==> u[i] - w[i] >= theta)
  }

  /** The giver that has been raised most, among the first k coordinates. */
  lemma {:induction false} MostRaised(u: seq<real>, w: seq<real>, k: nat) returns (m: nat)
    requires k <= |u| == |w| && exists i :: 0 <= i < k && u[i] > 0.0
    ensures m < k && u[m] > 0.0 && forall i :: 0 <= i < k && u[i] > 0.0 ==> u[i] - w[i] <= u[m] - w[m]
  {
    if exists i :: 0 <= i < k - 1 && u[i] > 0.0 {
      m := MostRaised(u, w, k - 1);
      if u[k - 1] > 0.0 && u[k - 1] - w[k - 1] > u[m] - w[m] {
        m := k - 1;
      }
    } else {
      m := k - 1;
    }
  }

  lemma {:induction false} SomePositive(u: seq<real>)
    requires Sum(u) > 0.0
    ensures exists i :: 0 <= i < |u| && u[i] > 0.0
  {
    if u[0] <= 0.0 {
      SomePositive(u[1..]);
      var i :| 0 <= i < |u[1..]| && u[1..][i] > 0.0;
      assert u[i + 1] > 0.0;
    } else {
      assert 0 < |u|;
    }
  }

  lemma SeparatingLevel(u: seq<real>, w: seq<real>, cap: real) returns (theta: real)
    requires |u| == |w| && Sum(u) == 1.0 && NoExchange(u, w, cap)
    ensures Separates(theta, u, w, cap)
  {
    SomePositive(u);
    hide Sum;
    var m := MostRaised(u, w, |u|);
    theta := u[m] - w[m];
  }

  /** Moving by a takes only where it can be taken, and gives only where it can be given. */
  lemma MoveCoordinate(a: real, b: real, theta: real)
    requires (a > 0.0 ==> b >= theta) && (a < 0.0 ==> b <= theta)
    ensures a * b >= theta * a
  {
    if a > 0.0 {
      ProductNonNegative(a, b - theta);
      assert a * (b - theta) == a * b - theta * a;
    } else if a < 0.0 {
      ProductNonNegative(-a, theta - b);
      assert (-a) * (theta - b) == a * b - theta * a;
    }
  }

  lemma SeparatedVariational(u: seq<real>, w: seq<real>, cap: real, theta: real, x: seq<real>)
    requires |u| == |w| == |x| && Separates(theta, u, w, cap) && Sum(Diff(x, u)) == 0.0
    requires forall i :: 0 <= i < |x| ==> 0.0 <= x[i] <= cap
    ensures Dot(Diff(x, u), Diff(u, w)) >= 0.0
  {
    var a, b := Diff(x, u), Diff(u, w);
    forall i | 0 <= i < |x| ensures a[i] * b[i] >= theta * a[i] {
      MoveCoordinate(a[i], b[i], theta);
    }
    hide Separates, Diff;
    DotDominatesZero(a, b, theta);
  }

  /** A feasible point without exchange is strictly nearer than every other one. */
  lemma NoExchangeIsNearest(u: seq<real>, w: seq<real>, cap: real, x: seq<real>)
    requires |u| == |w| == |x| && Feasible(u, cap) && NoExchange(u, w, cap) && Feasible(x, cap)
    ensures Dist2(x, w) >= Dist2(u, w) + Dist2(x, u)
  {
    hide Dist2, Diff, Dot, Sum, NoExchange, Separates;
    var theta := SeparatingLevel(u, w, cap);
    SumDiff(x, u);
    SeparatedVariational(u, w, cap, theta, x);
    ObtuseAngle(x, u, w);
  }

  lemma Dist2NonNegative(x: seq<real>, u: seq<real>)
    requires |x| == |u|
    ensures Dist2(x, u) >= 0.0
  {
    DotSelfNonNegative(Diff(x, u));
  }

  // ---------------------------------------------------------------- an exchange that pays

  lemma {:induction false} SumUpdate(u: seq<real>, i: nat, x: real)
    requires i < |u|
    ensures Sum(u[i := x]) == Sum(u) - u[i] + x
  {
    if i > 0 {
      SumUpdate(u[1..], i - 1, x);
      assert u[i := x][1..] == u[1..][i - 1 := x];
    }
  }

  function Square(x: real): real {
    x * x
  }

  lemma {:induction false} DotSelfUpdate(d: seq<real>, i: nat, x: real)
    requires i < |d|
    ensures Dot(d[i := x], d[i := x]) == Dot(d, d) - Square(d[i]) + Square(x)
  {
    if i > 0 {
      DotSelfUpdate(d[1..], i - 1, x);
      hide Square;
      assert d[i := x][1..] == d[1..][i - 1 := x];
    }
  }

  lemma DiffUpdate(u: seq<real>, w: seq<real>, i: nat, x: real)
    requires i < |u| == |w|
    ensures Diff(u[i := x], w) == Diff(u, w)[i := x - w[i]]
  {
    hide Diff;
  }

  lemma Dist2Update(u: seq<real>, w: seq<real>, i: nat, x: real)
    requires i < |u| == |w|
    ensures Dist2(u[i := x], w) == Dist2(u, w) - Square(u[i] - w[i]) + Square(x - w[i])
  {
    hide Dot, Square;
    DiffUpdate(u, w, i, x);
    DotSelfUpdate(Diff(u, w), i, x - w[i]);
  }

  lemma ExchangeSquares(a: real, b: real, e: real, g: real)
    requires g == e * ((a - b) - e)
    ensures Square(a - e) + Square(b + e) == Square(a) + Square(b) - 2.0 * g
  {
  }

  /** Moving e from i to j, with the rises of i and j further apart than 2 e. */
  lemma ExchangeGain(a: real, b: real, e: real)
    requires 0.0 < e <= (a - b) / 2.0
    ensures Square(a - e) + Square(b + e) < Square(a) + Square(b)
  {
    hide Square;
    var g := e * ((a - b) - e);
    PositiveProductIs(e, (a - b) - e, g);
    ExchangeSquares(a, b, e, g);
  }

  /** How much can be moved from i to j. */
  function Movable(u: seq<real>, w: seq<real>, cap: real, i: nat, j: nat): (e: real)
    requires i < |u| == |w| && j < |u| && u[i] > 0.0 && u[j] < cap && u[i] - w[i] > u[j] - w[j]
    ensures 0.0 < e <= u[i] && e <= cap - u[j] && e <= ((u[i] - w[i]) - (u[j] - w[j])) / 2.0
  {
    Min(Min(u[i], cap - u[j]), ((u[i] - w[i]) - (u[j] - w[j])) / 2.0)
  }

  lemma ExchangePays(u: seq<real>, w: seq<real>, cap: real, i: nat, j: nat) returns (x: seq<real>)
    requires |u| == |w| && Feasible(u, cap) && i < |u| && j < |u|
    requires u[i] > 0.0 && u[j] < cap && u[i] - w[i] > u[j] - w[j]
    ensures |x| == |w| && Feasible(x, cap) && Dist2(x, w) < Dist2(u, w)
  {
    var e := Movable(u, w, cap, i, j);
    x := u[i := u[i] - e][j := u[j] + e];
    hide *;
    ExchangeFeasible(u, cap, i, j, e, x);
    ExchangeCloser(u, w, i, j, e, x);
  }

  lemma ExchangeFeasible(u: seq<real>, cap: real, i: nat, j: nat, e: real, x: seq<real>)
    requires Feasible(u, cap) && i < |u| && j < |u| && i != j && 0.0 < e <= u[i] && e <= cap - u[j]
    requires x == u[i := u[i] - e][j := u[j] + e]
    ensures Feasible(x, cap)
  {
    hide Sum;
    SumUpdate(u, i, u[i] - e);
    SumUpdate(u[i := u[i] - e], j, u[j] + e);
  }

  lemma ExchangeCloser(u: seq<real>, w: seq<real>, i: nat, j: nat, e: real, x: seq<real>)
    requires |u| == |w| && i < |u| && j < |u| && i != j
    requires 0.0 < e <= ((u[i] - w[i]) - (u[j] - w[j])) / 2.0 && x == u[i := u[i] - e][j := u[j] + e]
    ensures Dist2(x, w) < Dist2(u, w)
  {
    hide Dist2, Square;
    var a, b := u[i] - w[i], u[j] - w[j];
    Dist2Update(u, w, i, u[i] - e);
    Dist2Update(u[i := u[i] - e], w, j, u[j] + e);
    ExchangeGain(a, b, e);
    assert u[i] - e - w[i] == a - e && u[j] + e - w[j] == b + e;
  }

  /** Nearest exactly when no exchange pays; and then strictly nearer than every other feasible point. */
  lemma NearestExactlyWhen(u: seq<real>, w: seq<real>, cap: real)
    requires |u| == |w|
    ensures IsNearest(u, w, cap) <==> Feasible(u, cap) && NoExchange(u, w, cap)
  {
    hide Dist2, Sum, Diff;
    if Feasible(u, cap) && NoExchange(u, w, cap) {
      forall x | |x| == |w| && Feasible(x, cap) ensures Dist2(x, w) >= Dist2(u, w) {
        NoExchangeIsNearest(u, w, cap, x);
        Dist2NonNegative(x, u);
      }
    }
    if Feasible(u, cap) && !NoExchange(u, w, cap) {
      var i, j :| 0 <= i < |u| && 0 <= j < |u| && u[i] > 0.0 && u[j] < cap && u[i] - w[i] > u[j] - w[j];
      var x := ExchangePays(u, w, cap, i, j);
    }
  }
}
