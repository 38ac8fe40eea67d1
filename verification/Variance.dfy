// The sample variance, accumulated in one pass.
module Variances {
  import opened Wrappers
  import opened Values

  function Power(x: real, p: nat): real {
    if p == 0 then 1.0 else x * Power(x, p - 1)
  }

  // The sum of the p-th powers.
  function Moment(xs: seq<real>, p: nat): real {
    if |xs| == 0 then 0.0 else Moment(xs[..|xs| - 1], p) + Power(xs[|xs| - 1], p)
  }

  function Square(d: real): real {
    d * d
  }

  function Mean(xs: seq<real>): real
    requires |xs| > 0
  {
    Moment(xs, 1) / (|xs| as real)
  }

  function Deviations(xs: seq<real>, m: real): real {
    if |xs| == 0 then 0.0
    else
      var x := xs[|xs| - 1];
      Deviations(xs[..|xs| - 1], m) + Square(x - m)
  }

  // The second pass of the two-pass definition: squared deviations from the mean.
  function SumOfSquares(xs: seq<real>): real {
    if |xs| == 0 then 0.0 else Deviations(xs, Mean(xs))
  }

  function SampleVariance(xs: seq<real>): Value {
    if |xs| > 1 then Some(SumOfSquares(xs) / ((|xs| - 1) as real)) else None
  }

  lemma MomentNext(xs: seq<real>, x: real)
    ensures Moment(xs + [x], 1) == Moment(xs, 1) + x
    ensures Moment(xs + [x], 2) == Moment(xs, 2) + Square(x)
  {
    assert (xs + [x])[..|xs|] == xs;
    SmallPowers(x);
  }

  lemma SmallPowers(x: real)
    ensures Power(x, 1) == x && Power(x, 2) == Square(x)
  {
    assert Power(x, 0) == 1.0;
    assert Power(x, 1) == x * Power(x, 0);
    assert Power(x, 2) == x * Power(x, 1);
  }

  // Squared deviations from m of n values with the moments s and q.
  function Expanded(n: real, q: real, s: real, m: real): real {
    q - 2.0 * m * s + n * (m * m)
  }

  // What one more value x adds in the loop, when s is the sum with it.
  function Increment(n: real, s: real, x: real): real
    requires n > 0.0
  {
    var diff := (n + 1.0) * x - s;
    (diff * diff) / ((n + 1.0) * n)
  }

  lemma {:induction false} DeviationsExpand(xs: seq<real>, m: real)
    ensures Deviations(xs, m) == Expanded(|xs| as real, Moment(xs, 2), Moment(xs, 1), m)
  {
    if |xs| > 0 {
      var front, x := xs[..|xs| - 1], xs[|xs| - 1];
      DeviationsExpand(front, m);
      MomentNext(front, x);
      assert front + [x] == xs;
      ExpandedNext(|front| as real, Moment(front, 2), Moment(front, 1), m, x,
                   |xs| as real, Moment(xs, 2), Moment(xs, 1));
    } else {
      ExpandedNothing(m);
    }
  }

  lemma ExpandedNothing(m: real)
    ensures Expanded(0.0, 0.0, 0.0, m) == 0.0
  {
  }

  lemma ExpandedNext(n: real, q: real, s: real, m: real, x: real, n': real, q': real, s': real)
    requires n' == n + 1.0 && q' == q + Square(x) && s' == s + x
    ensures Expanded(n', q', s', m) == Expanded(n, q, s, m) + Square(x - m)
  {
    assert (x - m) * (x - m) == x * x - 2.0 * m * x + m * m;
    assert 2.0 * m * (s + x) == 2.0 * m * s + 2.0 * m * x;
    assert (n + 1.0) * (m * m) == n * (m * m) + m * m;
  }

  lemma DivideBack(a: real, n: real)
    requires n != 0.0
    ensures a / n * n == a
  {
  }

  lemma MeanAlgebra(n: real, q: real, s: real, m: real)
    requires n != 0.0 && m == s / n
    ensures Scaled(n, q, s, Expanded(n, q, s, m))
  {
    DivideBack(s, n);
    assert n * (2.0 * m * s) == 2.0 * (m * n) * s == 2.0 * (s * s);
    assert n * (n * (m * m)) == (m * n) * (m * n) == s * s;
    assert n * (q - 2.0 * m * s + n * (m * m)) == n * q - n * (2.0 * m * s) + n * (n * (m * m));
  }

  // How the sum of squared deviations d of n values follows from their moments, without division.
  ghost predicate Scaled(n: real, q: real, s: real, d: real) {
    n * d == n * q - s * s
  }

  lemma SumOfSquaresScaled(xs: seq<real>)
    requires |xs| > 0
    ensures Scaled(|xs| as real, Moment(xs, 2), Moment(xs, 1), SumOfSquares(xs))
  {
    DeviationsExpand(xs, Mean(xs));
    MeanAlgebra(|xs| as real, Moment(xs, 2), Moment(xs, 1), Mean(xs));
  }

  lemma CancelFactor(k: real, a: real, b: real)
    requires k != 0.0 && k * a == k * b
    ensures a == b
  {
    assert a == (k * a) / k && b == (k * b) / k;
  }

  lemma StepAlgebra(n: real, q: real, s: real, v: real, x: real, v': real)
    requires n > 0.0 && Scaled(n, q, s, v) && Scaled(n + 1.0, q + x * x, s + x, v')
    ensures v' == v + Increment(n, s + x, x)
  {
    var diff := (n + 1.0) * x - (s + x);
    assert diff == n * x - s;
    DivideBack(diff * diff, (n + 1.0) * n);
    Combine(n, s, q, x, v, v', (diff * diff) / ((n + 1.0) * n));
  }

  lemma StepOfMoments(n: real, q: real, s: real, v: real, x: real, n': real, q': real, s': real, v': real)
    requires n > 0.0 && n' == n + 1.0 && q' == q + Square(x) && s' == s + x
    requires Scaled(n, q, s, v) && Scaled(n', q', s', v')
    ensures v' == v + Increment(n, s', x)
  {
    StepAlgebra(n, q, s, v, x, v');
  }

  // One step of the loop: what the squared difference adds is exactly what the sum of squared
  // deviations grows by, although all earlier deviations change with the mean.
  lemma StepIsExact(xs: seq<real>, x: real)
    requires |xs| > 0
    ensures SumOfSquares(xs + [x]) == SumOfSquares(xs) + Increment(|xs| as real, Moment(xs + [x], 1), x)
  {
    SumOfSquaresScaled(xs);
    SumOfSquaresScaled(xs + [x]);
    MomentNext(xs, x);
    var ys := xs + [x];
    StepOfMoments(|xs| as real, Moment(xs, 2), Moment(xs, 1), SumOfSquares(xs), x,
                  |ys| as real, Moment(ys, 2), Moment(ys, 1), SumOfSquares(ys));
  }

  lemma Combine(n: real, s: real, q: real, x: real, v: real, v': real, added: real)
    requires n > 0.0
    requires n * v == n * q - s * s
    requires (n + 1.0) * v' == (n + 1.0) * (q + x * x) - (s + x) * (s + x)
    requires added * ((n + 1.0) * n) == (n * x - s) * (n * x - s)
    ensures v' == v + added
  {
    var k := (n + 1.0) * n;
    assert k > 0.0;
    assert k * v' == n * ((n + 1.0) * v') == n * ((n + 1.0) * (q + x * x) - (s + x) * (s + x));
    assert k * v == (n + 1.0) * (n * v) == (n + 1.0) * (n * q - s * s);
    SquareOfStep(n, s, q, x);
    assert k * v' == k * v + k * added == k * (v + added);
    CancelFactor(k, v', v + added);
  }

  lemma SquareOfStep(n: real, s: real, q: real, x: real)
    ensures n * ((n + 1.0) * (q + x * x) - (s + x) * (s + x))
         == (n + 1.0) * (n * q - s * s) + (n * x - s) * (n * x - s)
  {
    assert (s + x) * (s + x) == s * s + 2.0 * (s * x) + x * x;
    assert (n * x - s) * (n * x - s) == n * n * (x * x) - 2.0 * n * (s * x) + s * s;
  }

  // The loop over the parameters.
  method Variance(parameters: seq<Value>) returns (result: Value)
    ensures result == SampleVariance(Present(parameters))
  {
    var v, counter, sum := 0.0, 0, 0.0;
    ghost var xs: seq<real> := [];
    for t := 0 to |parameters|
      invariant xs == Present(parameters[..t])
      invariant counter == |xs| && sum == Moment(xs, 1) && v == SumOfSquares(xs)
    {
      PresentNext(parameters, t);
      var val := parameters[t];
      if val.Some? {
        MomentNext(xs, val.value);
        ValueAdded(xs, val.value);
        sum := sum + val.value;
        if counter > 0 {
          v := v + Increment(counter as real, sum, val.value);
        }
        counter := counter + 1;
        xs := xs + [val.value];
      }
    }
    assert parameters[..|parameters|] == parameters;
    if counter > 1 {
      return Some(v / ((counter - 1) as real));
    }
    return None;
  }

  lemma ValueAdded(xs: seq<real>, x: real)
    ensures SumOfSquares(xs + [x]) == SumOfSquares(xs)
              + if |xs| > 0 then Increment(|xs| as real, Moment(xs + [x], 1), x) else 0.0
  {
    if |xs| > 0 {
      StepIsExact(xs, x);
    } else {
      OneValue(x);
      assert xs + [x] == [x];
    }
  }

  lemma OneValue(x: real)
    ensures SumOfSquares([x]) == 0.0
  {
    MomentNext([], x);
    assert [] + [x] == [x];
    assert Mean([x]) == x;
    assert [x][..0] == [];
    assert Deviations([x], x) == Deviations([], x) + Square(x - x);
  }

  // The same for every point of a grid.
  method VarianceGrid(columns: nat, rows: nat, grids: seq<seq<Value>>) returns (out: seq<Value>)
    ensures |out| == columns * rows
    ensures forall s :: 0 <= s < columns * rows ==> out[s] == SampleVariance(Present(Column(grids, s)))
  {
    out := [];
    for s := 0 to columns * rows
      invariant |out| == s
      invariant forall k :: 0 <= k < s ==> out[k] == SampleVariance(Present(Column(grids, k)))
    {
      var res := Variance(Column(grids, s));
      out := out + [res];
    }
  }

  // ---- What the two-pass definition promises ----

  lemma SquareIsNotNegative(d: real)
    ensures Square(d) >= 0.0
  {
  }

  lemma {:induction false} DeviationsAreNotNegative(xs: seq<real>, m: real)
    ensures Deviations(xs, m) >= 0.0
  {
    if |xs| > 0 {
      DeviationsAreNotNegative(xs[..|xs| - 1], m);
      SquareIsNotNegative(xs[|xs| - 1] - m);
    }
  }

  lemma VarianceIsNotNegative(xs: seq<real>)
    ensures SampleVariance(xs).Some? ==> SampleVariance(xs).value >= 0.0
  {
    if |xs| > 1 {
      DeviationsAreNotNegative(xs, Mean(xs));
    }
  }

  lemma {:induction false} MomentWithout(xs: seq<real>, k: nat, p: nat)
    requires k < |xs|
    ensures Moment(xs, p) == Moment(Removed(xs, k), p) + Power(xs[k], p)
  {
    var last := |xs| - 1;
    if k == last {
      assert Removed(xs, k) == xs[..last];
    } else {
      MomentWithout(xs[..last], k, p);
      assert Removed(xs, k)[..last - 1] == Removed(xs[..last], k);
    }
  }

  lemma MomentOfPermutation(a: seq<real>, b: seq<real>, p: nat)
    requires multiset(a) == multiset(b)
    ensures |a| == |b| && Moment(a, p) == Moment(b, p)
  {
    var f := (xs: seq<real>) => Moment(xs, p);
    var g := (x: real, moment: real) => moment + Power(x, p);
    forall xs: seq<real>, k: nat | k < |xs| ensures f(xs) == g(xs[k], f(Removed(xs, k))) {
      MomentWithout(xs, k, p);
    }
    SameForPermutation(a, b, f, g);
  }

  lemma ScaledIsUnique(n: real, q: real, s: real, d: real, d': real)
    requires n > 0.0 && Scaled(n, q, s, d) && Scaled(n, q, s, d')
    ensures d == d'
  {
    CancelFactor(n, d, d');
  }

  lemma SumOfSquaresOfPermutation(xs: seq<real>, ys: seq<real>)
    requires multiset(xs) == multiset(ys)
    ensures |xs| == |ys| && SumOfSquares(xs) == SumOfSquares(ys)
  {
    MomentOfPermutation(xs, ys, 1);
    MomentOfPermutation(xs, ys, 2);
    if |xs| > 0 {
      SumOfSquaresScaled(xs);
      SumOfSquaresScaled(ys);
      ScaledIsUnique(|xs| as real, Moment(xs, 2), Moment(xs, 1), SumOfSquares(xs), SumOfSquares(ys));
    } else {
      assert xs == ys == [];
    }
  }

  // The order of the parameters, missing ones included, does not matter.
  lemma VarianceOfPermutation(a: seq<Value>, b: seq<Value>)
    requires multiset(a) == multiset(b)
    ensures SampleVariance(Present(a)) == SampleVariance(Present(b))
  {
    PresentOfPermutation(a, b);
    SumOfSquaresOfPermutation(Present(a), Present(b));
  }

  // ---- The formula, free of fractions ----

  // With n values, n (n - 1) times the variance is n times the sum of squares less the squared
  // sum; fewer than two values have none.
  lemma VarianceOfMoments(xs: seq<real>)
    ensures |xs| < 2 <==> SampleVariance(xs).None?
    ensures |xs| >= 2 ==>
              var n := |xs| as real;
              n * (n - 1.0) * SampleVariance(xs).value == n * Moment(xs, 2) - Square(Moment(xs, 1))
  {
    if |xs| >= 2 {
      SumOfSquaresScaled(xs);
      ScaledVariance(|xs| as real, Moment(xs, 2), Moment(xs, 1), SumOfSquares(xs), (|xs| - 1) as real);
    }
  }

  lemma ScaledVariance(n: real, q: real, s: real, d: real, k: real)
    requires k == n - 1.0 && k > 0.0 && Scaled(n, q, s, d)
    ensures n * (n - 1.0) * (d / k) == n * q - Square(s)
  {
    DivideBack(d, k);
    assert n * k * (d / k) == n * (d / k * k);
  }

  lemma VarianceOfTwo(x: real, y: real)
    ensures SampleVariance([x, y]) == Some((x - y) * (x - y) / 2.0)
  {
    VarianceOfMoments([x, y]);
    MomentNext([], x);
    MomentNext([x], y);
    assert [] + [x] == [x] && [x] + [y] == [x, y];
    var v := SampleVariance([x, y]).value;
    assert 2.0 * v == 2.0 * (x * x + y * y) - (x + y) * (x + y);
    assert (x - y) * (x - y) == x * x - 2.0 * (x * y) + y * y;
    assert (x + y) * (x + y) == x * x + 2.0 * (x * y) + y * y;
  }
}
