/**
  Exact real arithmetic and real vectors: the vocabulary shared by every
  component. Floating-point rounding is not modelled.
*/
module Reals {

  datatype Option<+T> = None | Some(value: T)

  /** The result of a computation that may raise Python's ZeroDivisionError. */
  datatype Result<+T> = Success(value: T) | ZeroDivision

  function Min(a: real, b: real): real {
    if a <= b then a else b
  }

  function Max(a: real, b: real): real {
    if a >= b then a else b
  }

  function Abs(x: real): real {
    if x >= 0.0 then x else -x
  }

  function Sum(s: seq<real>): real {
    if |s| == 0 then 0.0 else s[0] + Sum(s[1..])
  }

  /** The inner product of two vectors of the same length. */
  function Dot(a: seq<real>, b: seq<real>): real
    requires |a| == |b|
  {
    if |a| == 0 then 0.0 else a[0] * b[0] + Dot(a[1..], b[1..])
  }

  /** The vector a + k * b. */
  function Axpy(a: seq<real>, k: real, b: seq<real>): (r: seq<real>)
    requires |a| == |b|
    ensures |r| == |a|
  {
    if |a| == 0 then [] else [a[0] + k * b[0]] + Axpy(a[1..], k, b[1..])
  }

  function Scale(k: real, a: seq<real>): (r: seq<real>)
    ensures |r| == |a|
  {
    if |a| == 0 then [] else [k * a[0]] + Scale(k, a[1..])
  }

  function Const(n: nat, x: real): (r: seq<real>)
    ensures |r| == n
    ensures forall i :: 0 <= i < n ==> r[i] == x
  {
    if n == 0 then [] else [x] + Const(n - 1, x)
  }

  /** n * x, as a sum of n terms. */
  function Multiple(n: nat, x: real): real {
    if n == 0 then 0.0 else x + Multiple(n - 1, x)
  }

  lemma {:induction false} MultipleIsProduct(n: nat, x: real)
    ensures Multiple(n, x) == n as real * x
  {
    if n != 0 {
      MultipleIsProduct(n - 1, x);
    }
  }

  ghost predicate NonNegative(s: seq<real>) {
    forall i :: 0 <= i < |s| ==> s[i] >= 0.0
  }

  /** A square root: exact on every non-negative number. */
  ghost predicate IsSqrt(sqrt: real -> real) {
    forall x :: x >= 0.0 ==> sqrt(x) * sqrt(x) == x && (if x > 0.0 then sqrt(x) > 0.0 else sqrt(x) == 0.0)
  }

  /** q is t / n, without the division. */
  ghost predicate IsFraction(q: real, n: real, t: real) {
    q * n == t
  }

  // ---------------------------------------------------------------- entries

  lemma {:induction false} AxpyAt(a: seq<real>, k: real, b: seq<real>, i: nat)
    requires |a| == |b| && i < |a|
    ensures Axpy(a, k, b)[i] == a[i] + k * b[i]
  {
    if i > 0 {
      AxpyAt(a[1..], k, b[1..], i - 1);
    }
  }

  lemma {:induction false} ScaleAt(k: real, a: seq<real>, i: nat)
    requires i < |a|
    ensures Scale(k, a)[i] == k * a[i]
  {
    if i > 0 {
      ScaleAt(k, a[1..], i - 1);
    }
  }

  // ---------------------------------------------------------------- sums

  lemma {:induction false} SumNonNegative(s: seq<real>)
    requires NonNegative(s)
    ensures Sum(s) >= 0.0
    ensures forall i :: 0 <= i < |s| ==> s[i] <= Sum(s)
  {
    if |s| != 0 {
      SumNonNegative(s[1..]);
      forall i | 0 <= i < |s| ensures s[i] <= Sum(s) {
        if i > 0 { assert s[i] == s[1..][i - 1]; }
      }
    }
  }

  lemma {:induction false} SumAppend(a: seq<real>, b: seq<real>)
    ensures Sum(a + b) == Sum(a) + Sum(b)
  {
    if |a| == 0 {
      assert a + b == b;
    } else {
      SumAppend(a[1..], b);
      assert (a + b)[1..] == a[1..] + b;
    }
  }

  lemma {:induction false} SumScale(k: real, s: seq<real>)
    ensures Sum(Scale(k, s)) == k * Sum(s)
  {
    if |s| != 0 {
      SumScale(k, s[1..]);
    }
  }

  lemma {:induction false} SumConst(n: nat, x: real)
    ensures Sum(Const(n, x)) == Multiple(n, x)
  {
    if n != 0 {
      SumConst(n - 1, x);
    }
  }

  lemma {:induction false} SumAxpy(a: seq<real>, k: real, b: seq<real>)
    requires |a| == |b|
    ensures Sum(Axpy(a, k, b)) == Sum(a) + k * Sum(b)
  {
    if |a| != 0 {
      SumAxpy(a[1..], k, b[1..]);
    }
  }

  lemma Reciprocal(t: real)
    requires t > 0.0
    ensures 1.0 / t > 0.0 && (1.0 / t) * t == 1.0 && t * (1.0 / t) == 1.0
  {
  }

  lemma PositiveProduct(a: real, b: real)
    requires a > 0.0 && b > 0.0
    ensures a * b > 0.0
  {
  }

  lemma PositiveProductIs(a: real, b: real, y: real)
    requires a > 0.0 && b > 0.0 && y == a * b
    ensures y > 0.0
  {
  }

  lemma ProductNonNegative(a: real, b: real)
    requires a >= 0.0 && b >= 0.0
    ensures a * b >= 0.0
  {
  }

  lemma NonNegativeFactor(c: real, e: real)
    requires c > 0.0 && c * e >= 0.0
    ensures e >= 0.0
  {
  }

  lemma PositiveCofactor(a: real, b: real)
    requires b > 0.0 && a * b > 0.0
    ensures a > 0.0
  {
  }

  lemma CancelOrder(p: real, s: real, t: real)
    requires p > 0.0
    ensures s * p <= t * p ==> s <= t
    ensures s * p == t * p ==> s == t
  {
    assert (t - s) * p == t * p - s * p;
  }

  lemma ScaleNonNegative(k: real, v: seq<real>)
    requires k >= 0.0 && NonNegative(v)
    ensures NonNegative(Scale(k, v))
  {
    forall i | 0 <= i < |v| ensures Scale(k, v)[i] >= 0.0 {
      ScaleAt(k, v, i);
      ProductNonNegative(k, v[i]);
    }
  }

  lemma ScaleToOne(k: real, v: seq<real>)
    requires k * Sum(v) == 1.0
    ensures Sum(Scale(k, v)) == 1.0
  {
    SumScale(k, v);
  }

  /** Dividing by the total makes a vector sum to 1. */
  lemma DivideByTotal(v: seq<real>)
    requires Sum(v) > 0.0
    ensures Sum(Scale(1.0 / Sum(v), v)) == 1.0
  {
    Reciprocal(Sum(v));
    ScaleToOne(1.0 / Sum(v), v);
  }

  lemma ConstToOne(n: nat, x: real)
    requires n as real * x == 1.0
    ensures Sum(Const(n, x)) == 1.0
  {
    SumConst(n, x);
    MultipleIsProduct(n, x);
  }

  /** n equal weights of 1 / n sum to 1. */
  lemma EqualWeights(n: nat)
    requires n > 0
    ensures Sum(Const(n, 1.0 / n as real)) == 1.0
    ensures NonNegative(Const(n, 1.0 / n as real))
  {
    Reciprocal(n as real);
    ConstToOne(n, 1.0 / n as real);
  }

  // ---------------------------------------------------------------- inner products

  lemma {:induction false} DotComm(a: seq<real>, b: seq<real>)
    requires |a| == |b|
    ensures Dot(a, b) == Dot(b, a)
  {
    if |a| != 0 {
      DotComm(a[1..], b[1..]);
    }
  }

  lemma {:induction false} DotScale(k: real, a: seq<real>, b: seq<real>)
    requires |a| == |b|
    ensures Dot(Scale(k, a), b) == k * Dot(a, b)
    ensures Dot(a, Scale(k, b)) == k * Dot(a, b)
  {
    if |a| != 0 {
      DotScale(k, a[1..], b[1..]);
    }
  }

  lemma {:induction false} DotAxpy(a: seq<real>, k: real, b: seq<real>, c: seq<real>)
    requires |a| == |b| == |c|
    ensures Dot(Axpy(a, k, b), c) == Dot(a, c) + k * Dot(b, c)
  {
    if |a| != 0 {
      DotAxpy(a[1..], k, b[1..], c[1..]);
      DistributeOver(a[0], k, b[0], c[0], Dot(b[1..], c[1..]));
    }
  }

  lemma DistributeOver(a: real, k: real, b: real, c: real, d: real)
    ensures (a + k * b) * c == a * c + k * (b * c)
    ensures k * (b * c + d) == k * (b * c) + k * d
  {
  }

  lemma {:induction false} DotSelfNonNegative(a: seq<real>)
    ensures Dot(a, a) >= 0.0
  {
    if |a| != 0 {
      DotSelfNonNegative(a[1..]);
    }
  }

  /** |a + k b|^2 expanded. */
  lemma NormAxpy(a: seq<real>, k: real, b: seq<real>)
    requires |a| == |b|
    ensures Dot(Axpy(a, k, b), Axpy(a, k, b)) == Dot(a, a) + 2.0 * k * Dot(a, b) + k * k * Dot(b, b)
  {
    hide Dot, Axpy;
    var c := Axpy(a, k, b);
    DotAxpy(a, k, b, c);
    DotAxpy(a, k, b, a);
    DotAxpy(a, k, b, b);
    DotComm(a, b);
    DotComm(a, c);
    DotComm(b, c);
  }

  lemma {:induction false} DotConst(a: seq<real>, x: real)
    ensures Dot(a, Const(|a|, x)) == x * Sum(a)
  {
    if |a| != 0 {
      assert Const(|a|, x)[1..] == Const(|a| - 1, x);
      DotConst(a[1..], x);
    }
  }

  lemma SquareNonNegative(x: real)
    ensures x * x >= 0.0
  {
  }

  /** The squared length of a + k * ones is non-negative. */
  lemma {:induction false} ShiftedNorm(a: seq<real>, k: real)
    ensures Dot(a, a) + 2.0 * k * Sum(a) + k * k * (|a| as real) >= 0.0
  {
    if |a| != 0 {
      ShiftedNorm(a[1..], k);
      var n := |a[1..]| as real;
      assert |a| as real == n + 1.0;
      assert k * k * (n + 1.0) == k * k * n + k * k;
      SquareNonNegative(a[0] + k);
      assert (a[0] + k) * (a[0] + k) == a[0] * a[0] + 2.0 * k * a[0] + k * k;
    }
  }

  /** Cauchy-Schwarz against the all-ones vector: (sum a)^2 <= n |a|^2. */
  lemma CauchySchwarzOnes(a: seq<real>)
    requires |a| > 0
    ensures Sum(a) * Sum(a) <= |a| as real * Dot(a, a)
  {
    hide Dot, Sum, Quotient;
    var k := Quotient(-Sum(a), |a| as real);
    ShiftedNorm(a, k);
    MinimumOfParabola(Dot(a, a), Sum(a), |a| as real, k);
  }

  /** The quotient a / b, characterised by multiplication. */
  function Quotient(a: real, b: real): (q: real)
    requires b != 0.0
    ensures q * b == a
  {
    a / b
  }

  lemma MinimumOfParabola(q: real, s: real, n: real, k: real)
    requires n > 0.0 && k * n == -s
    requires q + 2.0 * k * s + k * k * n >= 0.0
    ensures s * s <= n * q
  {
    assert k * k * n == k * (k * n) == -(k * s);
    assert n * (q + k * s) == n * q + (k * n) * s;
    assert n * (q + k * s) >= 0.0;
  }
}
