// The most frequent of the rounded values that are not missing.
module Modes {
  import opened Wrappers
  import opened Values

  // ---- Rounding ----

  function Multiplier(decimals: int): (mul: real)
    ensures mul != 0.0
  {
    if decimals > 0 then PowerOfTen(decimals) as real else 1.0
  }

  lemma RoundIsNearest(r: real, k: int)
    ensures var near := Round(r) as real;
            -0.5 <= near - r <= 0.5 && (r - near) * (r - near) <= (r - k as real) * (r - k as real)
  {
    var d, e := r - Round(r) as real, r - k as real;
    assert -0.5 <= d <= 0.5;
    if k != Round(r) {
      assert e == d + (Round(r) - k) as real;
      SmallerSquare(d, e);
    }
  }

  lemma SmallerSquare(d: real, e: real)
    requires -0.5 <= d <= 0.5 && (e >= 0.5 || e <= -0.5)
    ensures d * d <= e * e
  {
    var x, y := if d < 0.0 then -d else d, if e < 0.0 then -e else e;
    assert x * x <= x * y <= y * y;
    assert x * x == d * d && y * y == e * e;
  }

  // ---- How often a rounded value occurs ----

  // The value as a multiple of the rounding unit.
  function KeyOf(x: real, mul: real): int {
    Round(x * mul)
  }

  function Count(xs: seq<real>, mul: real, key: int): nat {
    if |xs| == 0 then 0
    else Count(xs[..|xs| - 1], mul, key) + if KeyOf(xs[|xs| - 1], mul) == key then 1 else 0
  }

  lemma CountNext(xs: seq<real>, x: real, mul: real, key: int)
    ensures Count(xs + [x], mul, key) == Count(xs, mul, key) + if KeyOf(x, mul) == key then 1 else 0
  {
    assert (xs + [x])[..|xs|] == xs;
  }

  // The most frequent key, and the smallest such key if several are.
  ghost predicate IsMode(xs: seq<real>, mul: real, w: int) {
    && Count(xs, mul, w) > 0
    && (forall k :: Count(xs, mul, k) <= Count(xs, mul, w))
    && (forall k :: k < w ==> Count(xs, mul, k) < Count(xs, mul, w))
  }

  // ---- The frequency map ----

  // The map is kept and walked through in ascending order of its keys.
  datatype Entry = Entry(key: int, count: nat)

  ghost predicate Ascending(valueCount: seq<Entry>) {
    forall i, j :: 0 <= i < j < |valueCount| ==> valueCount[i].key < valueCount[j].key
  }

  // Counts the key once more, or inserts it where it belongs.
  function CountedIn(valueCount: seq<Entry>, key: int): seq<Entry> {
    if |valueCount| == 0 || key < valueCount[0].key then [Entry(key, 1)] + valueCount
    else if valueCount[0].key == key then [Entry(key, valueCount[0].count + 1)] + valueCount[1..]
    else [valueCount[0]] + CountedIn(valueCount[1..], key)
  }

  function CountOf(valueCount: seq<Entry>, key: int): nat {
    if |valueCount| == 0 then 0
    else if valueCount[0].key == key then valueCount[0].count
    else CountOf(valueCount[1..], key)
  }

  lemma {:induction false} CountOfAt(valueCount: seq<Entry>, i: nat)
    requires Ascending(valueCount) && i < |valueCount|
    ensures CountOf(valueCount, valueCount[i].key) == valueCount[i].count
  {
    if i > 0 {
      CountOfAt(valueCount[1..], i - 1);
    }
  }

  lemma {:induction false} CountOfIsSome(valueCount: seq<Entry>, key: int)
    requires CountOf(valueCount, key) > 0
    ensures exists i :: 0 <= i < |valueCount| && valueCount[i].key == key
  {
    if valueCount[0].key == key {
      assert 0 < |valueCount| && valueCount[0].key == key;
    } else {
      CountOfIsSome(valueCount[1..], key);
      var i :| 0 <= i < |valueCount[1..]| && valueCount[1..][i].key == key;
      assert valueCount[i + 1].key == key;
    }
  }

  lemma {:induction false} NotBefore(valueCount: seq<Entry>, key: int)
    requires forall i :: 0 <= i < |valueCount| ==> key < valueCount[i].key
    ensures CountOf(valueCount, key) == 0
  {
    if |valueCount| > 0 {
      NotBefore(valueCount[1..], key);
    }
  }

  lemma {:induction false} CountedInCounts(valueCount: seq<Entry>, key: int, k: int)
    requires Ascending(valueCount)
    ensures CountOf(CountedIn(valueCount, key), k) == CountOf(valueCount, k) + if k == key then 1 else 0
  {
    if |valueCount| == 0 || key < valueCount[0].key {
      NotBefore(valueCount, key);
      assert ([Entry(key, 1)] + valueCount)[1..] == valueCount;
    } else if valueCount[0].key != key {
      CountedInCounts(valueCount[1..], key, k);
    }
  }

  lemma {:induction false} CountedInStaysAbove(valueCount: seq<Entry>, key: int, b: int)
    requires b < key && forall i :: 0 <= i < |valueCount| ==> b < valueCount[i].key
    ensures forall i :: 0 <= i < |CountedIn(valueCount, key)| ==> b < CountedIn(valueCount, key)[i].key
  {
    if |valueCount| > 0 && valueCount[0].key < key {
      CountedInStaysAbove(valueCount[1..], key, b);
    }
  }

  lemma {:induction false} CountedInAscends(valueCount: seq<Entry>, key: int)
    requires Ascending(valueCount)
    ensures Ascending(CountedIn(valueCount, key)) && |CountedIn(valueCount, key)| > 0
  {
    if |valueCount| > 0 && valueCount[0].key < key {
      CountedInAscends(valueCount[1..], key);
      CountedInStaysAbove(valueCount[1..], key, valueCount[0].key);
    }
  }

  ghost predicate Counts(valueCount: seq<Entry>, xs: seq<real>, mul: real) {
    && Ascending(valueCount) && (forall k :: CountOf(valueCount, k) == Count(xs, mul, k))
    && (forall i :: 0 <= i < |valueCount| ==> valueCount[i].count > 0)
    && (|xs| > 0 ==> |valueCount| > 0)
  }

  lemma {:induction false} CountedInIsPositive(valueCount: seq<Entry>, key: int)
    requires forall i :: 0 <= i < |valueCount| ==> valueCount[i].count > 0
    ensures forall i :: 0 <= i < |CountedIn(valueCount, key)| ==> CountedIn(valueCount, key)[i].count > 0
  {
    if |valueCount| > 0 && valueCount[0].key < key {
      CountedInIsPositive(valueCount[1..], key);
    }
  }

  lemma OneMoreCounts(valueCount: seq<Entry>, xs: seq<real>, mul: real, x: real)
    requires Counts(valueCount, xs, mul)
    ensures Counts(CountedIn(valueCount, KeyOf(x, mul)), xs + [x], mul)
  {
    CountedInAscends(valueCount, KeyOf(x, mul));
    CountedInIsPositive(valueCount, KeyOf(x, mul));
    forall k ensures CountOf(CountedIn(valueCount, KeyOf(x, mul)), k) == Count(xs + [x], mul, k) {
      CountedInCounts(valueCount, KeyOf(x, mul), k);
      CountNext(xs, x, mul, k);
    }
  }

  method CountValues(parameters: seq<Value>, mul: real) returns (valueCount: seq<Entry>)
    ensures Counts(valueCount, Present(parameters), mul)
  {
    valueCount := [];
    ghost var xs: seq<real> := [];
    for s := 0 to |parameters|
      invariant xs == Present(parameters[..s])
      invariant Counts(valueCount, xs, mul)
    {
      PresentNext(parameters, s);
      var val := parameters[s];
      if val.Some? {
        OneMoreCounts(valueCount, xs, mul, val.value);
        valueCount := CountedIn(valueCount, KeyOf(val.value, mul));
        xs := xs + [val.value];
      }
    }
    assert parameters[..|parameters|] == parameters;
  }

  // The scan of the map: a later key has to be strictly more frequent to win.
  method MostFrequent(valueCount: seq<Entry>, ghost xs: seq<real>, mul: real) returns (maxKey: int)
    requires Counts(valueCount, xs, mul) && |valueCount| > 0
    ensures IsMode(xs, mul, maxKey)
  {
    var maxVal, place := 0, 0;
    maxKey := 0;
    for it := 0 to |valueCount|
      invariant if it == 0 then maxVal == place == 0 else place < it && valueCount[place] == Entry(maxKey, maxVal)
      invariant forall i :: 0 <= i < it ==> valueCount[i].count <= maxVal
      invariant forall i :: 0 <= i < place ==> valueCount[i].count < maxVal
    {
      if valueCount[it].count > maxVal {
        maxVal, maxKey, place := valueCount[it].count, valueCount[it].key, it;
      }
    }
    CountOfAt(valueCount, place);
    forall k ensures Count(xs, mul, k) <= maxVal && (k < maxKey ==> Count(xs, mul, k) < maxVal) {
      KeyIsPlaced(valueCount, k, place);
    }
  }

  lemma KeyIsPlaced(valueCount: seq<Entry>, k: int, place: nat)
    requires Ascending(valueCount) && place < |valueCount|
    ensures CountOf(valueCount, k) == 0
         || exists i :: 0 <= i < |valueCount| && valueCount[i].count == CountOf(valueCount, k)
                        && (k < valueCount[place].key ==> i < place)
  {
    if CountOf(valueCount, k) > 0 {
      CountOfIsSome(valueCount, k);
      var i :| 0 <= i < |valueCount| && valueCount[i].key == k;
      CountOfAt(valueCount, i);
    }
  }

  // ---- The function ----

  // What the result says about the values, rounded to the given unit.
  ghost predicate IsModeOf(result: Value, xs: seq<real>, mul: real)
    requires mul != 0.0
  {
    if |xs| == 0 then result.None?
    else exists w :: IsMode(xs, mul, w) && result == Some(w as real / mul)
  }

  // The first parameter is the number of decimals; when it is missing, the number that stands
  // for missing values is taken.
  method Mode(parameters: seq<Value>, missingValue: real) returns (result: Value)
    ensures |parameters| < 2 ==> result.None?
    ensures |parameters| >= 2 ==>
              var mul := Multiplier(Truncate(if parameters[0].Some? then parameters[0].value else missingValue));
              IsModeOf(result, Present(parameters[1..]), mul)
  {
    if |parameters| < 2 {
      return None;
    }
    var decimals := Truncate(if parameters[0].Some? then parameters[0].value else missingValue);
    var mul := 1.0;
    if decimals > 0 {
      mul := PowerOfTen(decimals) as real;
    }
    ghost var xs := Present(parameters[1..]);
    var valueCount := CountValues(parameters[1..], mul);
    if |valueCount| == 0 {
      return None;
    }
    NoneCounted(valueCount, xs, mul);
    var maxKey := MostFrequent(valueCount, xs, mul);
    return Some(maxKey as real / mul);
  }

  lemma NoneCounted(valueCount: seq<Entry>, xs: seq<real>, mul: real)
    requires Counts(valueCount, xs, mul)
    ensures |valueCount| == 0 <==> |xs| == 0
  {
    if |xs| == 0 && |valueCount| > 0 {
      CountOfAt(valueCount, 0);
    }
  }

  // ---- The order of the values does not matter ----

  lemma {:induction false} CountWithout(xs: seq<real>, n: nat, mul: real, key: int)
    requires n < |xs|
    ensures Count(xs, mul, key) == Count(Removed(xs, n), mul, key) + if KeyOf(xs[n], mul) == key then 1 else 0
  {
    var last := |xs| - 1;
    if n == last {
      assert Removed(xs, n) == xs[..last];
    } else {
      CountWithout(xs[..last], n, mul, key);
      assert Removed(xs, n)[..last - 1] == Removed(xs[..last], n);
    }
  }

  lemma CountOfPermutation(a: seq<real>, b: seq<real>, mul: real, key: int)
    requires multiset(a) == multiset(b)
    ensures Count(a, mul, key) == Count(b, mul, key)
  {
    var f := (xs: seq<real>) => Count(xs, mul, key) as int;
    var g := (x: real, count: int) => count + if KeyOf(x, mul) == key then 1 else 0;
    forall xs: seq<real>, n: nat | n < |xs| ensures f(xs) == g(xs[n], f(Removed(xs, n))) {
      CountWithout(xs, n, mul, key);
    }
    SameForPermutation(a, b, f, g);
  }

  lemma ModeOfSameCounts(xs: seq<real>, ys: seq<real>, mul: real, v: int, w: int)
    requires forall k :: Count(xs, mul, k) == Count(ys, mul, k)
    requires IsMode(xs, mul, v) && IsMode(ys, mul, w)
    ensures v == w
  {
    assert Count(xs, mul, w) <= Count(xs, mul, v) && Count(ys, mul, v) <= Count(ys, mul, w);
    assert w < v ==> Count(xs, mul, w) < Count(xs, mul, v);
    assert v < w ==> Count(ys, mul, v) < Count(ys, mul, w);
  }

  // Two calls whose data values are a permutation of each other give the same result.
  lemma ModeOfPermutation(a: seq<Value>, b: seq<Value>, mul: real, r: Value, q: Value)
    requires mul != 0.0 && multiset(a) == multiset(b)
    requires IsModeOf(r, Present(a), mul) && IsModeOf(q, Present(b), mul)
    ensures r == q
  {
    var xs, ys := Present(a), Present(b);
    PresentOfPermutation(a, b);
    SameSize(xs, ys);
    if |xs| > 0 {
      var v :| IsMode(xs, mul, v) && r == Some(v as real / mul);
      var w :| IsMode(ys, mul, w) && q == Some(w as real / mul);
      forall k ensures Count(xs, mul, k) == Count(ys, mul, k) {
        CountOfPermutation(xs, ys, mul, k);
      }
      ModeOfSameCounts(xs, ys, mul, v, w);
    }
  }

  // ---- What the parts mean ----

  // The key is the nearest multiple of the unit, and of two that are as near the one farther from
  // zero.
  lemma KeyIsNearest(x: real, mul: real, k: int)
    ensures var d, e := x * mul - KeyOf(x, mul) as real, x * mul - k as real;
            -0.5 <= d <= 0.5 && d * d <= e * e
    ensures x * mul >= 0.0 ==> x * mul - KeyOf(x, mul) as real < 0.5
    ensures x * mul <= 0.0 ==> x * mul - KeyOf(x, mul) as real > -0.5
  {
    RoundIsNearest(x * mul, k);
  }

  // So many decimals are kept; a negative number keeps none.
  lemma UnitOfDecimals(decimals: nat)
    ensures Multiplier(0) == 1.0 && Multiplier(0 - decimals) == 1.0
    ensures Multiplier(decimals + 1) == 10.0 * Multiplier(decimals)
  {
    assert PowerOfTen(1) == 10 * PowerOfTen(0);
  }

  // Of two values that round to different keys the smaller key wins, unless the other occurs
  // twice.
  lemma SmallestOfMostFrequent(x: real, y: real, r: Value)
    requires Round(x) < Round(y)
    ensures IsModeOf(r, [x, y], 1.0) ==> r == Some(Round(x) as real)
    ensures IsModeOf(r, [y, x], 1.0) ==> r == Some(Round(x) as real)
    ensures IsModeOf(r, [x, y, y], 1.0) ==> r == Some(Round(y) as real)
    ensures IsModeOf(r, [], 1.0) ==> r == None
  {
    CountsOfThree(x, y, Round(x));
    CountsOfThree(x, y, Round(y));
    if IsModeOf(r, [x, y], 1.0) {
      var w :| IsMode([x, y], 1.0, w) && r == Some(w as real / 1.0);
      CountsOfThree(x, y, w);
    }
    if IsModeOf(r, [y, x], 1.0) {
      var w :| IsMode([y, x], 1.0, w) && r == Some(w as real / 1.0);
      CountsOfThree(x, y, w);
    }
    if IsModeOf(r, [x, y, y], 1.0) {
      var w :| IsMode([x, y, y], 1.0, w) && r == Some(w as real / 1.0);
      CountsOfThree(x, y, w);
    }
  }

  lemma CountsOfThree(x: real, y: real, key: int)
    ensures var a, b := if Round(x) == key then 1 else 0, if Round(y) == key then 1 else 0;
            && Count([x, y], 1.0, key) == Count([y, x], 1.0, key) == a + b
            && Count([x, y, y], 1.0, key) == a + 2 * b
  {
    assert x * 1.0 == x && y * 1.0 == y;
    CountNext([], x, 1.0, key);
    CountNext([], y, 1.0, key);
    CountNext([x], y, 1.0, key);
    CountNext([y], x, 1.0, key);
    CountNext([x, y], y, 1.0, key);
    assert [] + [x] == [x] && [] + [y] == [y] && [x] + [y] == [x, y] && [y] + [x] == [y, x];
    assert [x, y] + [y] == [x, y, y];
  }
}
