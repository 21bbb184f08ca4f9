/**
  Means and sample variances, as every component computes them.
*/
module Statistics {
  import opened Reals

  function Mean(xs: seq<real>): real
    requires |xs| > 0
  {
    Sum(xs) / |xs| as real
  }

  function SumSquaredDeviations(vs: seq<real>, mean: real): real {
    if |vs| == 0 then 0.0 else (vs[0] - mean) * (vs[0] - mean) + SumSquaredDeviations(vs[1..], mean)
  }

  /** The unbiased sample variance. */
  function Variance(vs: seq<real>): real
    requires |vs| >= 2
  {
    SumSquaredDeviations(vs, Mean(vs)) / (|vs| - 1) as real
  }

  function SumOfSquares(vs: seq<real>): real {
    if |vs| == 0 then 0.0 else vs[0] * vs[0] + SumOfSquares(vs[1..])
  }

  ghost predicate IsSquare(y: real, x: real) {
    y == x * x
  }

  /** d = q - 2 mean s + n mean^2, for the sums that follow. */
  ghost predicate Expands(d: real, q: real, s: real, n: real, mean: real) {
    d == q - 2.0 * mean * s + n * (mean * mean)
  }

  lemma {:induction false} DeviationsExpand(vs: seq<real>, mean: real, n: real, d: real, q: real, s: real)
    requires n == |vs| as real
    requires d == SumSquaredDeviations(vs, mean) && q == SumOfSquares(vs) && s == Sum(vs)
    ensures Expands(d, q, s, n, mean)
  {
    hide Expands;
    if |vs| == 0 {
      ExpandNothing(vs, mean, n, d, q, s);
    } else {
      var t := vs[1..];
      var d', q', s', n' := SumSquaredDeviations(t, mean), SumOfSquares(t), Sum(t), |t| as real;
      DeviationsExpand(t, mean, n', d', q', s');
      ExpandMore(vs, mean, n', d', q', s', n, d, q, s);
    }
  }

  lemma ExpandNothing(vs: seq<real>, mean: real, n: real, d: real, q: real, s: real)
    requires |vs| == 0 && n == 0.0
    requires d == SumSquaredDeviations(vs, mean) && q == SumOfSquares(vs) && s == Sum(vs)
    ensures Expands(d, q, s, n, mean)
  {
    EmptySums(vs, mean, d, q, s);
    hide SumSquaredDeviations, SumOfSquares, Sum;
    assert n * (mean * mean) == 0.0 && 2.0 * mean * s == 0.0;
  }

  lemma ExpandMore(vs: seq<real>, mean: real, n': real, d': real, q': real, s': real,
                   n: real, d: real, q: real, s: real)
    requires |vs| > 0 && n == n' + 1.0
    requires d == SumSquaredDeviations(vs, mean) && d' == SumSquaredDeviations(vs[1..], mean)
    requires q == SumOfSquares(vs) && q' == SumOfSquares(vs[1..]) && s == Sum(vs) && s' == Sum(vs[1..])
    requires Expands(d', q', s', n', mean)
    ensures Expands(d, q, s, n, mean)
  {
    hide Expands;
    Unfold(vs, mean, d', d, q', q, s', s);
    hide *;
    ExpandStep(vs[0], mean, s', q', n', d', s, q, n, d);
  }

  lemma EmptySums(vs: seq<real>, mean: real, d: real, q: real, s: real)
    requires |vs| == 0 && d == SumSquaredDeviations(vs, mean) && q == SumOfSquares(vs) && s == Sum(vs)
    ensures d == 0.0 && q == 0.0 && s == 0.0
  {
  }

  lemma Unfold(vs: seq<real>, mean: real, d': real, d: real, q': real, q: real, s': real, s: real)
    requires |vs| > 0
    requires d == SumSquaredDeviations(vs, mean) && d' == SumSquaredDeviations(vs[1..], mean)
    requires q == SumOfSquares(vs) && q' == SumOfSquares(vs[1..]) && s == Sum(vs) && s' == Sum(vs[1..])
    ensures IsSquare(d - d', vs[0] - mean) && IsSquare(q - q', vs[0]) && s == vs[0] + s'
  {
  }

  lemma ExpandStep(x: real, m: real, s': real, q': real, n': real, d': real,
                   s: real, q: real, n: real, d: real)
    requires Expands(d', q', s', n', m)
    requires IsSquare(d - d', x - m) && IsSquare(q - q', x) && s == x + s' && n == n' + 1.0
    ensures Expands(d, q, s, n, m)
  {
  }

  /** q = n1 variance + n mean^2 */
  ghost predicate IsDecomposed(q: real, variance: real, mean: real, n1: real, n: real) {
    q == n1 * variance + n * (mean * mean)
  }

  /** (n - 1) variance + n mean^2 is the sum of squares. */
  lemma VarianceDecomposition(vs: seq<real>, variance: real, mean: real, n: real, n1: real, q: real)
    requires |vs| >= 2 && n == |vs| as real && n1 == (|vs| - 1) as real && q == SumOfSquares(vs)
    requires Variance(vs) == variance && Mean(vs) == mean
    ensures IsDecomposed(q, variance, mean, n1, n)
  {
    var s, d := Sum(vs), SumSquaredDeviations(vs, mean);
    hide Variance, Mean, Expands, IsDecomposed;
    VarianceParts(vs, variance, mean, n, n1, s, d);
    DeviationsExpand(vs, mean, n, d, q, s);
    DecompositionScalars(n, s, d, variance, mean, q);
  }

  lemma VarianceParts(vs: seq<real>, variance: real, mean: real, n: real, n1: real, s: real, d: real)
    requires |vs| >= 2 && n == |vs| as real && n1 == (|vs| - 1) as real && variance == Variance(vs) && mean == Mean(vs)
    requires s == Sum(vs) && d == SumSquaredDeviations(vs, mean)
    ensures n1 == n - 1.0 && variance * n1 == d && mean * n == s
  {
    assert variance == Quotient(d, n1) && mean == Quotient(s, n);
    hide *;
  }

  lemma DecompositionScalars(n: real, s: real, d: real, v: real, m: real, q: real)
    requires v * (n - 1.0) == d && m * n == s && Expands(d, q, s, n, m)
    ensures IsDecomposed(q, v, m, n - 1.0, n)
  {
    assert m * s == m * (m * n) == n * (m * m);
  }

  /** No sample variance is negative. */
  lemma VarianceNonNegative(vs: seq<real>)
    requires |vs| >= 2
    ensures Variance(vs) >= 0.0
  {
    DeviationsNonNegative(vs, Mean(vs));
    var d, n1 := SumSquaredDeviations(vs, Mean(vs)), (|vs| - 1) as real;
    assert Variance(vs) == d / n1;
    hide *;
    QuotientNonNegative(d, n1);
  }

  lemma QuotientNonNegative(d: real, n: real)
    requires d >= 0.0 && n > 0.0
    ensures d / n >= 0.0
  {
  }

  /** One more value adds its squared deviation. */
  lemma {:induction false} PushDeviation(vs: seq<real>, x: real, mean: real)
    ensures SumSquaredDeviations(vs + [x], mean) == SumSquaredDeviations(vs, mean) + (x - mean) * (x - mean)
  {
    if |vs| == 0 {
      assert (vs + [x])[1..] == [];
    } else {
      PushDeviation(vs[1..], x, mean);
      assert (vs + [x])[1..] == vs[1..] + [x];
    }
  }

  lemma {:induction false} SumOfSquaresNonNegative(vs: seq<real>)
    ensures SumOfSquares(vs) >= 0.0
  {
    if |vs| != 0 {
      SquareNonNegative(vs[0]);
      SumOfSquaresNonNegative(vs[1..]);
    }
  }

  lemma {:induction false} DeviationsNonNegative(vs: seq<real>, mean: real)
    ensures SumSquaredDeviations(vs, mean) >= 0.0
  {
    if |vs| != 0 {
      SquareNonNegative(vs[0] - mean);
      DeviationsNonNegative(vs[1..], mean);
    }
  }
}
