/** Sums over finite sets, independent of the order of iteration. */
module FiniteSums {
  ghost function SumOver<T>(f: T -> real, s: set<T>): real {
    if s == {} then 0.0 else
      var x :| x in s;
      f(x) + SumOver(f, s - {x})
  }

  lemma SomeElement<T>(s: set<T>) returns (x: T)
    requires s != {}
    ensures x in s
  {
    x :| x in s;
  }

  /** Any element may be taken out first. */
  lemma {:induction false} SumOverPick<T>(f: T -> real, s: set<T>, y: T)
    requires y in s
    ensures SumOver(f, s) == f(y) + SumOver(f, s - {y})
    decreases s
  {
    var x :| x in s && SumOver(f, s) == f(x) + SumOver(f, s - {x});
    if x != y {
      SumOverPick(f, s - {x}, y);
      SumOverPick(f, s - {y}, x);
      assert s - {x} - {y} == s - {y} - {x};
    }
  }

  /** Elements on which f vanishes may be added to the index set. */
  lemma {:induction false} SumOverExtend<T>(f: T -> real, s: set<T>, t: set<T>)
    requires s <= t && forall x :: x in t - s ==> f(x) == 0.0
    ensures SumOver(f, t) == SumOver(f, s)
    decreases t
  {
    if x :| x in t && x !in s {
      SumOverPick(f, t, x);
      SumOverExtend(f, s, t - {x});
    } else {
      assert s == t;
    }
  }

  lemma {:induction false} SumOverCongruence<T>(f: T -> real, g: T -> real, s: set<T>)
    requires forall x :: x in s ==> f(x) == g(x)
    ensures SumOver(f, s) == SumOver(g, s)
    decreases s
  {
    if s != {} {
      var x :| x in s;
      SumOverPick(f, s, x);
      SumOverPick(g, s, x);
      SumOverCongruence(f, g, s - {x});
    }
  }

  /** f >= m * g pointwise gives the same for the sums. */
  lemma {:induction false} SumOverAtLeast<T>(f: T -> real, m: real, g: T -> real, s: set<T>)
    requires forall x :: x in s ==> f(x) >= m * g(x)
    ensures SumOver(f, s) >= m * SumOver(g, s)
    decreases s
  {
    if s != {} {
      var x :| x in s;
      SumOverPick(f, s, x);
      SumOverPick(g, s, x);
      SumOverAtLeast(f, m, g, s - {x});
      var rest := SumOver(g, s - {x});
      assert m * (g(x) + rest) == m * g(x) + m * rest;
    }
  }

  /** f <= g + h pointwise gives the same for the sums. */
  lemma {:induction false} SumOverTriangle<T>(f: T -> real, g: T -> real, h: T -> real, s: set<T>)
    requires forall x :: x in s ==> 0.0 <= f(x) <= g(x) + h(x)
    ensures 0.0 <= SumOver(f, s) <= SumOver(g, s) + SumOver(h, s)
    decreases s
  {
    if s != {} {
      var x :| x in s;
      SumOverPick(f, s, x);
      SumOverPick(g, s, x);
      SumOverPick(h, s, x);
      SumOverTriangle(f, g, h, s - {x});
    }
  }

  /** f == g + h pointwise gives the same for the sums. */
  lemma {:induction false} SumOverAdd<T>(f: T -> real, g: T -> real, h: T -> real, s: set<T>)
    requires forall x :: x in s ==> f(x) == g(x) + h(x)
    ensures SumOver(f, s) == SumOver(g, s) + SumOver(h, s)
    decreases s
  {
    if s != {} {
      var x :| x in s;
      SumOverPick(f, s, x);
      SumOverPick(g, s, x);
      SumOverPick(h, s, x);
      SumOverAdd(f, g, h, s - {x});
    }
  }

  /** x == e * (y + z) */
  ghost predicate IsShare(x: real, e: real, y: real, z: real) {
    x == e * (y + z)
  }

  lemma AddShares(x: real, x': real, e: real, y: real, y': real, z: real, z': real)
    requires IsShare(x, e, y, z) && IsShare(x', e, y', z')
    ensures IsShare(x + x', e, y + y', z + z')
  {
  }

  /** f == e * (g + h) pointwise gives the same for the sums. */
  lemma {:induction false} SumOverShare<T>(f: T -> real, e: real, g: T -> real, h: T -> real, s: set<T>)
    requires forall x :: x in s ==> IsShare(f(x), e, g(x), h(x))
    ensures IsShare(SumOver(f, s), e, SumOver(g, s), SumOver(h, s))
    decreases s
  {
    if s == {} {
      assert IsShare(0.0, e, 0.0, 0.0);
    } else {
      hide IsShare;
      var x :| x in s;
      SumOverPick(f, s, x);
      SumOverPick(g, s, x);
      SumOverPick(h, s, x);
      SumOverShare(f, e, g, h, s - {x});
      AddShares(f(x), SumOver(f, s - {x}), e, g(x), SumOver(g, s - {x}), h(x), SumOver(h, s - {x}));
    }
  }
}
