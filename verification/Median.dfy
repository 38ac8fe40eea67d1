// The median and the shifted median of the values that are not missing.
module Medians {
  import opened Wrappers
  import opened Values

  ghost predicate Ordered(s: seq<real>) {
    forall i, j :: 0 <= i <= j < |s| ==> s[i] <= s[j]
  }

  function Insert(x: real, s: seq<real>): seq<real> {
    if |s| == 0 || x <= s[0] then [x] + s else [s[0]] + Insert(x, s[1..])
  }

  // What std::sort leaves in the vector.
  function Sorted(xs: seq<real>): seq<real> {
    if |xs| == 0 then [] else Insert(xs[0], Sorted(xs[1..]))
  }

  lemma {:induction false} InsertKeepsOrder(x: real, s: seq<real>)
    requires Ordered(s)
    ensures Ordered(Insert(x, s)) && multiset(Insert(x, s)) == multiset{x} + multiset(s)
    ensures forall y :: y in Insert(x, s) ==> y == x || y in s
  {
    if |s| > 0 && s[0] < x {
      InsertKeepsOrder(x, s[1..]);
      assert s == [s[0]] + s[1..];
      var rest := Insert(x, s[1..]);
      forall j | 0 <= j < |rest| ensures s[0] <= rest[j] {
        assert rest[j] == x || rest[j] in s[1..];
      }
    }
  }

  lemma {:induction false} SortedIsOrderedPermutation(xs: seq<real>)
    ensures Ordered(Sorted(xs)) && multiset(Sorted(xs)) == multiset(xs) && |Sorted(xs)| == |xs|
  {
    if |xs| > 0 {
      SortedIsOrderedPermutation(xs[1..]);
      InsertKeepsOrder(xs[0], Sorted(xs[1..]));
      assert xs == [xs[0]] + xs[1..];
    }
    SameSize(Sorted(xs), xs);
  }

  // There is only one way to put values in order.
  lemma {:induction false} OrderIsUnique(a: seq<real>, b: seq<real>)
    requires Ordered(a) && Ordered(b) && multiset(a) == multiset(b)
    ensures a == b
  {
    SameSize(a, b);
    if |a| > 0 {
      LeastIsFirst(a, b);
      LeastIsFirst(b, a);
      TailCounts(a);
      TailCounts(b);
      OrderIsUnique(a[1..], b[1..]);
      assert a == [a[0]] + a[1..] && b == [b[0]] + b[1..];
    }
  }

  lemma TailCounts(a: seq<real>)
    requires |a| > 0
    ensures multiset(a[1..]) == multiset(a) - multiset{a[0]}
  {
    assert a == [a[0]] + a[1..];
  }

  lemma LeastIsFirst(a: seq<real>, b: seq<real>)
    requires Ordered(a) && multiset(a) == multiset(b) && |a| > 0 && |b| > 0
    ensures a[0] <= b[0]
  {
    assert b[0] in multiset(a);
    var j :| 0 <= j < |a| && a[j] == b[0];
  }

  // ---- Picking the middle ----

  function Halved(a: real, b: real): real {
    (a + b) / 2.0
  }

  function Middle(s: seq<real>): real
    requires |s| > 0
  {
    var idx := (|s| + 1) / 2;
    if |s| % 2 == 1 then s[idx - 1] else Halved(s[idx - 1], s[idx])
  }

  // The position asked for, forced into the positions 0 to top.
  function Clamped(i: int, top: nat): (r: nat)
    ensures r <= top && (0 <= i <= top ==> r == i)
  {
    if i < 0 then 0 else if i > top then top else i
  }

  function Shifted(s: seq<real>, shift: int): real
    requires |s| > 0
  {
    var i := (|s| + 1) / 2 - 1 + shift;
    if |s| % 2 == 1 then s[Clamped(i, |s| - 1)]
    else
      var k := Clamped(i, |s| - 2);
      Halved(s[k], s[k + 1])
  }

  function MedianOf(parameters: seq<Value>): Value {
    var s := Sorted(Present(parameters));
    if |s| == 0 then None else Some(Middle(s))
  }

  function ShiftedMedianOf(parameters: seq<Value>, shift: int): Value {
    var s := Sorted(Present(parameters));
    if |s| == 0 then None else Some(Shifted(s, shift))
  }

  // ---- The functions ----

  method CollectValues(parameters: seq<Value>, from: nat) returns (values: seq<real>)
    requires from <= |parameters|
    ensures values == Present(parameters[from..])
  {
    values := [];
    for t := from to |parameters|
      invariant values == Present(parameters[from..][..t - from])
    {
      PresentNext(parameters[from..], t - from);
      var val := parameters[t];
      if val.Some? {
        values := values + [val.value];
      }
    }
    assert parameters[from..][..|parameters| - from] == parameters[from..];
  }

  method Median(parameters: seq<Value>) returns (result: Value)
    ensures result == MedianOf(parameters)
  {
    var values := CollectValues(parameters, 0);
    assert parameters[0..] == parameters;
    values := Sorted(values);
    var sz := |values|;
    if sz == 0 {
      return None;
    }
    var idx := (sz + 1) / 2;
    if sz % 2 == 1 {
      return Some(values[idx - 1]);
    }
    return Some((values[idx - 1] + values[idx]) / 2.0);
  }

  // The first parameter is the shift; when it is missing, the number that stands for missing
  // values is taken.
  function ShiftOf(first: Value, missingValue: real): int {
    Truncate(if first.Some? then first.value else missingValue)
  }

  method ShiftedMedian(parameters: seq<Value>, missingValue: real) returns (result: Value)
    ensures result == if |parameters| < 2 then None
                      else ShiftedMedianOf(parameters[1..], ShiftOf(parameters[0], missingValue))
  {
    if |parameters| < 2 {
      return None;
    }
    var shift := ShiftOf(parameters[0], missingValue);
    var values := CollectValues(parameters, 1);
    values := Sorted(values);
    var sz := |values|;
    if sz == 0 {
      return None;
    }
    var i := (sz + 1) / 2 - 1 + shift;
    if sz % 2 == 1 {
      i := if i < 0 then 0 else i;
      if i >= sz {
        i := sz - 1;
      }
      return Some(values[i]);
    }
    if i >= sz - 1 {
      i := sz - 2;
    }
    i := if i < 0 then 0 else i;
    return Some((values[i] + values[i + 1]) / 2.0);
  }

  // Every point of a grid; without exactly one shift there is no result at all.
  method ShiftedMedianGrid(columns: nat, rows: nat, grids: seq<seq<Value>>, extParameters: seq<real>)
    returns (out: seq<Value>)
    ensures |extParameters| != 1 ==> out == []
    ensures |extParameters| == 1 ==>
              && |out| == columns * rows
              && forall s :: 0 <= s < columns * rows ==>
                   out[s] == ShiftedMedianOf(Column(grids, s), Truncate(extParameters[0]))
  {
    out := [];
    if |extParameters| != 1 {
      return;
    }
    for s := 0 to columns * rows
      invariant |out| == s
      invariant forall k :: 0 <= k < s ==> out[k] == ShiftedMedianOf(Column(grids, k), Truncate(extParameters[0]))
    {
      var res := ShiftedMedian([Some(extParameters[0])] + Column(grids, s), 0.0);
      assert ([Some(extParameters[0])] + Column(grids, s))[1..] == Column(grids, s);
      out := out + [res];
    }
  }

  // ---- What they promise ----

  lemma ZeroShiftIsMedian(parameters: seq<Value>)
    ensures ShiftedMedianOf(parameters, 0) == MedianOf(parameters)
  {
  }

  lemma ClampedIsMonotone(i: int, j: int, top: nat)
    requires i <= j
    ensures Clamped(i, top) <= Clamped(j, top)
  {
  }

  lemma HalvedIsMonotone(a: real, b: real, c: real, d: real)
    requires a <= c && b <= d
    ensures Halved(a, b) <= Halved(c, d)
  {
  }

  lemma ShiftedIsMonotone(s: seq<real>, shift: int, more: int)
    requires |s| > 0 && Ordered(s) && shift <= more
    ensures Shifted(s, shift) <= Shifted(s, more)
  {
    var i, j, top := (|s| + 1) / 2 - 1 + shift, (|s| + 1) / 2 - 1 + more, |s| - 2 + |s| % 2;
    ClampedIsMonotone(i, j, top);
    if |s| % 2 == 0 {
      var k, l := Clamped(i, top), Clamped(j, top);
      HalvedIsMonotone(s[k], s[k + 1], s[l], s[l + 1]);
    }
  }

  // A larger shift never gives a smaller result.
  lemma ShiftedMedianIsMonotone(parameters: seq<Value>, shift: int, more: int)
    requires shift <= more
    ensures var a, b := ShiftedMedianOf(parameters, shift), ShiftedMedianOf(parameters, more);
            (a.Some? <==> b.Some?) && (a.Some? ==> a.value <= b.value)
  {
    SortedIsOrderedPermutation(Present(parameters));
    if |Present(parameters)| > 0 {
      ShiftedIsMonotone(Sorted(Present(parameters)), shift, more);
    }
  }

  // The result lies between two of the values.
  lemma ShiftedMedianIsBetween(parameters: seq<Value>, shift: int)
    requires Present(parameters) != []
    ensures ShiftedMedianOf(parameters, shift).Some?
    ensures exists x, y :: x in Present(parameters) && y in Present(parameters)
                           && x <= ShiftedMedianOf(parameters, shift).value <= y
  {
    var xs := Present(parameters);
    SortedIsOrderedPermutation(xs);
    var s := Sorted(xs);
    ShiftedIsBetween(s, shift);
    var first, last := s[0], s[|s| - 1];
    assert first in multiset(xs) && last in multiset(xs);
    assert first in xs && last in xs && first <= ShiftedMedianOf(parameters, shift).value <= last;
  }

  lemma ShiftedIsBetween(s: seq<real>, shift: int)
    requires |s| > 0 && Ordered(s)
    ensures s[0] <= Shifted(s, shift) <= s[|s| - 1]
  {
    if |s| % 2 == 0 {
      var k := Clamped((|s| + 1) / 2 - 1 + shift, |s| - 2);
      HalvedIsMonotone(s[0], s[0], s[k], s[k + 1]);
      HalvedIsMonotone(s[k], s[k + 1], s[|s| - 1], s[|s| - 1]);
    }
  }

  // ---- Symmetry ----

  function NegatedValue(v: Value): Value {
    if v.Some? then Some(-v.value) else None
  }

  function Negated(parameters: seq<Value>): (r: seq<Value>)
    ensures |r| == |parameters|
  {
    seq(|parameters|, k requires 0 <= k < |parameters| => NegatedValue(parameters[k]))
  }

  function Mirrored(s: seq<real>): (r: seq<real>)
    ensures |r| == |s|
  {
    seq(|s|, k requires 0 <= k < |s| => -s[|s| - 1 - k])
  }

  lemma MirroredNext(s: seq<real>)
    requires |s| > 0
    ensures Mirrored(s) == Mirrored(s[1..]) + [-s[0]]
  {
  }

  lemma CountsOfSum(a: seq<real>, b: seq<real>, x: real)
    ensures multiset(a + b)[x] == multiset(a)[x] + multiset(b)[x]
  {
    assert multiset(a + b) == multiset(a) + multiset(b);
  }

  lemma {:induction false} MirroredCounts(s: seq<real>, x: real)
    ensures multiset(Mirrored(s))[x] == multiset(s)[-x]
  {
    if |s| > 0 {
      MirroredCounts(s[1..], x);
      MirroredNext(s);
      CountsOfSum([s[0]], s[1..], -x);
      CountsOfSum(Mirrored(s[1..]), [-s[0]], x);
      assert [s[0]] + s[1..] == s;
    }
  }

  lemma {:induction false} NegatedCounts(parameters: seq<Value>, v: Value)
    ensures multiset(Negated(parameters))[v] == multiset(parameters)[NegatedValue(v)]
  {
    if |parameters| > 0 {
      var front, last := parameters[..|parameters| - 1], parameters[|parameters| - 1];
      NegatedCounts(front, v);
      assert parameters == front + [last];
      assert Negated(parameters) == Negated(front) + [NegatedValue(last)];
      assert NegatedValue(NegatedValue(last)) == last && NegatedValue(NegatedValue(v)) == v;
    }
  }

  lemma PresentOfNegated(parameters: seq<Value>, x: real)
    ensures multiset(Present(Negated(parameters)))[x] == multiset(Present(parameters))[-x]
  {
    calc {
      multiset(Present(Negated(parameters)))[x];
    == { PresentCounts(Negated(parameters), x); }
      multiset(Negated(parameters))[Some(x)];
    == { NegatedCounts(parameters, Some(x)); assert NegatedValue(Some(x)) == Some(-x); }
      multiset(parameters)[Some(-x)];
    == { PresentCounts(parameters, -x); }
      multiset(Present(parameters))[-x];
    }
  }

  lemma SortedOfNegated(parameters: seq<Value>)
    ensures Sorted(Present(Negated(parameters))) == Mirrored(Sorted(Present(parameters)))
  {
    var s, t := Sorted(Present(parameters)), Sorted(Present(Negated(parameters)));
    SortedIsOrderedPermutation(Present(parameters));
    SortedIsOrderedPermutation(Present(Negated(parameters)));
    forall x: real ensures multiset(t)[x] == multiset(Mirrored(s))[x] {
      PresentOfNegated(parameters, x);
      MirroredCounts(s, x);
    }
    forall i, j | 0 <= i <= j < |s| ensures Mirrored(s)[i] <= Mirrored(s)[j] {
    }
    OrderIsUnique(t, Mirrored(s));
  }

  lemma HalvedNegated(a: real, b: real)
    ensures Halved(-b, -a) == -Halved(a, b)
  {
  }

  lemma ClampedMirrored(i: int, top: nat)
    ensures Clamped(top - i, top) == top - Clamped(i, top)
  {
  }

  lemma ShiftedOfMirrored(s: seq<real>, shift: int)
    requires |s| > 0
    ensures Shifted(Mirrored(s), -shift) == -Shifted(s, shift)
  {
    var n, i := |s|, (|s| + 1) / 2 - 1 + shift;
    if n % 2 == 1 {
      assert n - 1 - i == (n + 1) / 2 - 1 - shift;
      ClampedMirrored(i, n - 1);
    } else {
      assert n - 2 - i == (n + 1) / 2 - 1 - shift;
      ClampedMirrored(i, n - 2);
      PairMirrored(s, Clamped(i, n - 2));
    }
  }

  lemma PairMirrored(s: seq<real>, k: nat)
    requires k + 1 < |s|
    ensures var l := |s| - 2 - k; Halved(Mirrored(s)[l], Mirrored(s)[l + 1]) == -Halved(s[k], s[k + 1])
  {
    var t, l := Mirrored(s), |s| - 2 - k;
    assert t[l] == -s[k + 1] && t[l + 1] == -s[k];
    HalvedNegated(s[k], s[k + 1]);
  }

  lemma TruncateIsOdd(r: real)
    ensures Truncate(-r) == -Truncate(r)
  {
  }

  // Negating all values together with the shift negates the result.
  lemma ShiftedMedianIsOdd(parameters: seq<Value>, shift: real)
    ensures ShiftedMedianOf(Negated(parameters), Truncate(-shift))
         == NegatedValue(ShiftedMedianOf(parameters, Truncate(shift)))
  {
    TruncateIsOdd(shift);
    WholeShiftIsOdd(parameters, Truncate(shift));
  }

  lemma WholeShiftIsOdd(parameters: seq<Value>, shift: int)
    ensures ShiftedMedianOf(Negated(parameters), -shift) == NegatedValue(ShiftedMedianOf(parameters, shift))
  {
    SortedOfNegated(parameters);
    if |Sorted(Present(parameters))| > 0 {
      ShiftedOfMirrored(Sorted(Present(parameters)), shift);
    }
  }

  lemma ShiftedMedianOfPermutation(a: seq<Value>, b: seq<Value>, shift: int)
    requires multiset(a) == multiset(b)
    ensures ShiftedMedianOf(a, shift) == ShiftedMedianOf(b, shift)
  {
    PresentOfPermutation(a, b);
    SortedIsOrderedPermutation(Present(a));
    SortedIsOrderedPermutation(Present(b));
    OrderIsUnique(Sorted(Present(a)), Sorted(Present(b)));
  }

  // ---- The median is in the middle ----

  function CountBelow(s: seq<real>, x: real): (c: nat)
    ensures c <= |s|
  {
    if |s| == 0 then 0 else CountBelow(s[..|s| - 1], x) + if s[|s| - 1] < x then 1 else 0
  }

  function CountAbove(s: seq<real>, x: real): (c: nat)
    ensures c <= |s|
  {
    if |s| == 0 then 0 else CountAbove(s[..|s| - 1], x) + if s[|s| - 1] > x then 1 else 0
  }

  lemma {:induction false} BelowInOrder(s: seq<real>, k: nat, x: real)
    requires k <= |s| && forall i :: k <= i < |s| ==> s[i] >= x
    ensures CountBelow(s, x) <= k
  {
    if |s| > 0 {
      if k < |s| {
        BelowInOrder(s[..|s| - 1], k, x);
      }
    }
  }

  lemma {:induction false} AboveInOrder(s: seq<real>, k: nat, x: real)
    requires k <= |s| && forall i :: 0 <= i < k ==> s[i] <= x
    ensures CountAbove(s, x) <= |s| - k
  {
    if |s| > 0 {
      if k == |s| {
        AboveInOrder(s[..|s| - 1], k - 1, x);
      } else {
        AboveInOrder(s[..|s| - 1], k, x);
      }
    }
  }

  lemma MiddleSplits(s: seq<real>)
    requires |s| > 0 && Ordered(s)
    ensures 2 * CountBelow(s, Middle(s)) <= |s| && 2 * CountAbove(s, Middle(s)) <= |s|
  {
    var h := |s| / 2;
    if |s| % 2 == 1 {
      BelowInOrder(s, h, s[h]);
      AboveInOrder(s, h + 1, s[h]);
    } else {
      HalvedIsMonotone(s[h - 1], s[h - 1], s[h - 1], s[h]);
      HalvedIsMonotone(s[h - 1], s[h], s[h], s[h]);
      BelowInOrder(s, h, Middle(s));
      AboveInOrder(s, h, Middle(s));
    }
  }

  lemma CountsOfAppended(front: seq<real>, last: real, x: real)
    ensures CountBelow(front + [last], x) == CountBelow(front, x) + if last < x then 1 else 0
    ensures CountAbove(front + [last], x) == CountAbove(front, x) + if last > x then 1 else 0
  {
    assert (front + [last])[..|front|] == front;
  }

  lemma {:induction false} CountsWithout(s: seq<real>, k: nat, x: real)
    requires k < |s|
    ensures CountBelow(s, x) == CountBelow(Removed(s, k), x) + if s[k] < x then 1 else 0
    ensures CountAbove(s, x) == CountAbove(Removed(s, k), x) + if s[k] > x then 1 else 0
  {
    var last := |s| - 1;
    if k == last {
      assert Removed(s, k) == s[..last];
    } else {
      CountsWithout(s[..last], k, x);
      CountsOfAppended(s[..last], s[last], x);
      CountsOfAppended(Removed(s[..last], k), s[last], x);
      assert s == s[..last] + [s[last]] && Removed(s, k) == Removed(s[..last], k) + [s[last]];
    }
  }

  lemma CountsOfPermutation(a: seq<real>, b: seq<real>, x: real)
    requires multiset(a) == multiset(b)
    ensures CountBelow(a, x) == CountBelow(b, x) && CountAbove(a, x) == CountAbove(b, x)
  {
    var below := (s: seq<real>) => CountBelow(s, x) as int;
    var above := (s: seq<real>) => CountAbove(s, x) as int;
    var withBelow := (y: real, count: int) => count + if y < x then 1 else 0;
    var withAbove := (y: real, count: int) => count + if y > x then 1 else 0;
    forall s: seq<real>, k: nat | k < |s|
      ensures below(s) == withBelow(s[k], below(Removed(s, k)))
      ensures above(s) == withAbove(s[k], above(Removed(s, k)))
    {
      CountsWithout(s, k, x);
    }
    SameForPermutation(a, b, below, withBelow);
    SameForPermutation(a, b, above, withAbove);
  }

  // At most half of the values that are not missing lie below the median, and at most half above.
  lemma MedianSplits(parameters: seq<Value>)
    requires Present(parameters) != []
    ensures MedianOf(parameters).Some?
    ensures var xs, m := Present(parameters), MedianOf(parameters).value;
            2 * CountBelow(xs, m) <= |xs| && 2 * CountAbove(xs, m) <= |xs|
  {
    var xs := Present(parameters);
    SortedIsOrderedPermutation(xs);
    MiddleSplits(Sorted(xs));
    CountsOfPermutation(Sorted(xs), xs, Middle(Sorted(xs)));
  }

  // ---- Which of the values the shifted median is ----

  // One of the values, with at most r values below and at most the other n - 1 - r above.
  ghost predicate HasRank(xs: seq<real>, x: real, r: nat) {
    x in xs && CountBelow(xs, x) <= r && CountAbove(xs, x) + r + 1 <= |xs|
  }

  lemma SortedHasRank(xs: seq<real>, r: nat)
    requires r < |xs|
    ensures r < |Sorted(xs)| && HasRank(xs, Sorted(xs)[r], r)
  {
    var s := Sorted(xs);
    SortedIsOrderedPermutation(xs);
    BelowInOrder(s, r, s[r]);
    AboveInOrder(s, r + 1, s[r]);
    CountsOfPermutation(s, xs, s[r]);
    assert s[r] in multiset(xs);
  }

  lemma ShiftedPlace(s: seq<real>, shift: int)
    requires |s| % 2 == 1
    ensures var place := |s| / 2 + shift;
            Shifted(s, shift) == s[if place < 0 then 0 else if place >= |s| then |s| - 1 else place]
  {
    assert (|s| + 1) / 2 - 1 == |s| / 2;
  }

  // Of an odd number of values it is the one `shift` places from the middle, or the first or the
  // last one if there is no such place.
  lemma ShiftedMedianOfOdd(parameters: seq<Value>, shift: int)
    requires |Present(parameters)| % 2 == 1
    ensures ShiftedMedianOf(parameters, shift).Some?
    ensures var n, place := |Present(parameters)|, |Present(parameters)| / 2 + shift;
            HasRank(Present(parameters), ShiftedMedianOf(parameters, shift).value,
                    if place < 0 then 0 else if place >= n then n - 1 else place)
  {
    var n, place := |Present(parameters)|, |Present(parameters)| / 2 + shift;
    SortedIsOrderedPermutation(Present(parameters));
    ShiftedPlace(Sorted(Present(parameters)), shift);
    SortedHasRank(Present(parameters), if place < 0 then 0 else if place >= n then n - 1 else place);
  }

  // Of an even number it is the mean of two neighbours, `shift` places from the middle two, or of
  // the first or the last two.
  lemma ShiftedMedianOfEven(parameters: seq<Value>, shift: int) returns (a: real, b: real)
    requires |Present(parameters)| % 2 == 0 && Present(parameters) != []
    ensures ShiftedMedianOf(parameters, shift) == Some((a + b) / 2.0)
    ensures var n, place := |Present(parameters)|, |Present(parameters)| / 2 - 1 + shift;
            var first := if place < 0 then 0 else if place > n - 2 then n - 2 else place;
            HasRank(Present(parameters), a, first) && HasRank(Present(parameters), b, first + 1)
  {
    SortedIsOrderedPermutation(Present(parameters));
    var first := ShiftedPair(Sorted(Present(parameters)), shift);
    SortedHasRank(Present(parameters), first);
    SortedHasRank(Present(parameters), first + 1);
    a, b := Sorted(Present(parameters))[first], Sorted(Present(parameters))[first + 1];
  }

  lemma ShiftedPair(s: seq<real>, shift: int) returns (first: nat)
    requires |s| % 2 == 0 && |s| > 0
    ensures var place := |s| / 2 - 1 + shift;
            first == if place < 0 then 0 else if place > |s| - 2 then |s| - 2 else place
    ensures Shifted(s, shift) == (s[first] + s[first + 1]) / 2.0
  {
    assert (|s| + 1) / 2 - 1 == |s| / 2 - 1;
    first := Clamped(|s| / 2 - 1 + shift, |s| - 2);
  }

  // The counts are the numbers of places with smaller and larger values, so only one value has a
  // given rank.
  lemma {:induction false} RankIsUnique(xs: seq<real>, x: real, y: real, r: nat)
    requires HasRank(xs, x, r) && HasRank(xs, y, r)
    ensures x == y
  {
    if x < y {
      SmallerOrNotAbove(xs, x, y);
    } else if y < x {
      SmallerOrNotAbove(xs, y, x);
    }
  }

  // Every value is below y or above x, when x is smaller.
  lemma {:induction false} SmallerOrNotAbove(xs: seq<real>, x: real, y: real)
    requires x < y
    ensures CountBelow(xs, y) + CountAbove(xs, x) >= |xs|
  {
    if |xs| > 0 {
      SmallerOrNotAbove(xs[..|xs| - 1], x, y);
    }
  }
}
