// Parameter values of the ensemble functions: numbers, of which some may be missing.
module Values {
  import opened Wrappers

  type Value = Option<real>

  // The values that are not missing, in order.
  function Present(parameters: seq<Value>): seq<real> {
    if |parameters| == 0 then []
    else
      var last := parameters[|parameters| - 1];
      Present(parameters[..|parameters| - 1]) + if last.Some? then [last.value] else []
  }

  lemma PresentNext(parameters: seq<Value>, t: nat)
    requires t < |parameters|
    ensures Present(parameters[..t + 1])
         == Present(parameters[..t]) + if parameters[t].Some? then [parameters[t].value] else []
  {
    assert parameters[..t + 1][..t] == parameters[..t];
  }

  // Converting to an integer drops the fraction.
  function Truncate(r: real): int {
    if r >= 0.0 then r.Floor else -((-r).Floor)
  }

  // Halves are rounded away from zero.
  function Round(r: real): int {
    if r >= 0.0 then (r + 0.5).Floor else -((-r + 0.5).Floor)
  }

  function PowerOfTen(n: nat): (p: nat)
    ensures p > 0
  {
    if n == 0 then 1 else 10 * PowerOfTen(n - 1)
  }

  // The values of all grids at one point; a grid that is too short has none there.
  function Column(grids: seq<seq<Value>>, s: nat): (column: seq<Value>)
    ensures |column| == |grids|
  {
    seq(|grids|, t requires 0 <= t < |grids| => if s < |grids[t]| then grids[t][s] else None)
  }

  lemma Without<T>(s: seq<T>, k: nat)
    requires k < |s|
    ensures multiset(Removed(s, k)) == multiset(s) - multiset{s[k]}
  {
    assert s == s[..k] + [s[k]] + s[k + 1..];
  }

  lemma SameSize<T>(a: seq<T>, b: seq<T>)
    requires multiset(a) == multiset(b)
    ensures |a| == |b|
  {
    assert |multiset(a)| == |a| && |multiset(b)| == |b|;
  }

  function Removed<T>(s: seq<T>, k: nat): (r: seq<T>)
    requires k < |s|
    ensures |r| == |s| - 1
  {
    s[..k] + s[k + 1..]
  }

  // When removing an element, wherever it stands, changes f in a way that depends on that
  // element only, rearranging does not change f at all.
  lemma {:induction false} SameForPermutation<T(!new), R>(a: seq<T>, b: seq<T>, f: seq<T> -> R, g: (T, R) -> R)
    requires forall s: seq<T>, k: nat :: k < |s| ==> f(s) == g(s[k], f(Removed(s, k)))
    requires multiset(a) == multiset(b)
    ensures |a| == |b| && f(a) == f(b)
    decreases |a|
  {
    SameSize(a, b);
    if |a| > 0 {
      assert a[0] in multiset(b);
      var k :| 0 <= k < |b| && b[k] == a[0];
      Without(a, 0);
      Without(b, k);
      SameForPermutation(Removed(a, 0), Removed(b, k), f, g);
    } else {
      assert a == [] && b == [];
    }
  }

  // Rearranging the parameters rearranges the values that are not missing.
  lemma {:induction false} PresentOfPermutation(a: seq<Value>, b: seq<Value>)
    requires multiset(a) == multiset(b)
    ensures multiset(Present(a)) == multiset(Present(b))
  {
    forall x: real ensures multiset(Present(a))[x] == multiset(Present(b))[x] {
      PresentCounts(a, x);
      PresentCounts(b, x);
    }
  }

  lemma {:induction false} PresentCounts(parameters: seq<Value>, x: real)
    ensures multiset(Present(parameters))[x] == multiset(parameters)[Some(x)]
  {
    if |parameters| > 0 {
      var front, last := parameters[..|parameters| - 1], parameters[|parameters| - 1];
      PresentCounts(front, x);
      assert parameters == front + [last];
    }
  }

  // ---- What the helpers mean ----

  // The fraction goes, towards zero.
  lemma TruncateDropsFraction(r: real)
    ensures r >= 0.0 ==> 0.0 <= r - Truncate(r) as real < 1.0 && Truncate(r) >= 0
    ensures r <= 0.0 ==> 0.0 <= Truncate(r) as real - r < 1.0 && Truncate(r) <= 0
  {
  }

  lemma HalvesGoAwayFromZero(k: nat)
    ensures Round(k as real + 0.5) == k + 1 && Round(-(k as real) - 0.5) == 0 - k - 1
  {
    assert (k as real + 0.5 + 0.5).Floor == k + 1;
  }

  // A grid that is too short at a point has a missing value there.
  lemma ShortGridsAreMissing(grids: seq<seq<Value>>, s: nat, t: nat)
    requires t < |grids|
    ensures s < |grids[t]| ==> Column(grids, s)[t] == grids[t][s]
    ensures s >= |grids[t]| ==> Column(grids, s)[t] == None
  {
  }
}
