// AND, OR and NOT over parameters of which some may be missing.
module ThreeValued {
  import opened Wrappers
  import opened Values

  // False, missing and true, in this order.
  function Rank(v: Value): (rank: nat)
    ensures rank <= 2
  {
    if v.None? then 1 else if v.value == 0.0 then 0 else 2
  }

  function OfRank(rank: nat): (v: Value)
    requires rank <= 2
    ensures Rank(v) == rank
  {
    if rank == 0 then Some(0.0) else if rank == 1 then None else Some(1.0)
  }

  function Least(parameters: seq<Value>): (rank: nat)
    ensures rank <= 2
  {
    if |parameters| == 0 then 2
    else
      var rest, last := Least(parameters[..|parameters| - 1]), Rank(parameters[|parameters| - 1]);
      if last < rest then last else rest
  }

  function Greatest(parameters: seq<Value>): (rank: nat)
    ensures rank <= 2
  {
    if |parameters| == 0 then 0
    else
      var rest, last := Greatest(parameters[..|parameters| - 1]), Rank(parameters[|parameters| - 1]);
      if last > rest then last else rest
  }

  // Strong three-valued logic: the least and the greatest of the parameters.
  function Conjunction(parameters: seq<Value>): Value {
    if |parameters| < 2 then None else OfRank(Least(parameters))
  }

  function Disjunction(parameters: seq<Value>): Value {
    if |parameters| < 2 then None else OfRank(Greatest(parameters))
  }

  function Negation(v: Value): (r: Value)
    ensures Rank(r) == 2 - Rank(v)
  {
    if v.None? then None else if v.value == 0.0 then Some(1.0) else Some(0.0)
  }

  // ---- What least and greatest mean ----

  lemma {:induction false} LeastIsLeast(parameters: seq<Value>)
    ensures forall v :: v in parameters ==> Least(parameters) <= Rank(v)
    ensures Least(parameters) == 2 || exists v :: v in parameters && Rank(v) == Least(parameters)
  {
    if |parameters| > 0 {
      var front, last := parameters[..|parameters| - 1], parameters[|parameters| - 1];
      LeastIsLeast(front);
      assert parameters == front + [last];
      assert last in parameters;
      if Least(front) < 2 {
        var v :| v in front && Rank(v) == Least(front);
        assert v in parameters;
      }
    }
  }

  lemma LeastIs(parameters: seq<Value>, rank: nat)
    requires rank <= 2 && (forall v :: v in parameters ==> rank <= Rank(v))
    requires rank == 2 || exists v :: v in parameters && Rank(v) == rank
    ensures Least(parameters) == rank
  {
    LeastIsLeast(parameters);
  }

  lemma NegatedAt(parameters: seq<Value>)
    ensures forall v :: v in parameters ==> Negation(v) in Negated(parameters)
    ensures forall w :: w in Negated(parameters) ==> exists v :: v in parameters && w == Negation(v)
  {
    forall v | v in parameters ensures Negation(v) in Negated(parameters) {
      var k :| 0 <= k < |parameters| && parameters[k] == v;
      assert Negated(parameters)[k] == Negation(v);
    }
    forall w | w in Negated(parameters) ensures exists v :: v in parameters && w == Negation(v) {
      var k :| 0 <= k < |parameters| && Negated(parameters)[k] == w;
      assert parameters[k] in parameters;
    }
  }

  function Negated(parameters: seq<Value>): (r: seq<Value>)
    ensures |r| == |parameters|
  {
    seq(|parameters|, k requires 0 <= k < |parameters| => Negation(parameters[k]))
  }

  lemma {:induction false} GreatestOfNegated(parameters: seq<Value>)
    ensures Greatest(Negated(parameters)) == 2 - Least(parameters)
  {
    if |parameters| > 0 {
      var front := parameters[..|parameters| - 1];
      GreatestOfNegated(front);
      assert Negated(parameters)[..|parameters| - 1] == Negated(front);
    }
  }

  // The two are dual to each other, for any number of parameters.
  lemma DeMorgan(parameters: seq<Value>)
    requires |parameters| >= 2
    ensures Negation(Conjunction(parameters)) == Disjunction(Negated(parameters))
    ensures Negation(Disjunction(parameters)) == Conjunction(Negated(parameters))
  {
    GreatestOfNegated(parameters);
    GreatestOfNegated(Negated(parameters));
    RanksOfTwiceNegated(parameters);
  }

  lemma {:induction false} RanksOfTwiceNegated(parameters: seq<Value>)
    ensures Greatest(Negated(Negated(parameters))) == Greatest(parameters)
  {
    if |parameters| > 0 {
      var front := parameters[..|parameters| - 1];
      RanksOfTwiceNegated(front);
      assert Negated(Negated(parameters))[..|parameters| - 1] == Negated(Negated(front));
    }
  }

  // Neither the order of the parameters nor repeating them matters.
  lemma OrderDoesNotMatter(a: seq<Value>, b: seq<Value>)
    requires |a| >= 2 && |b| >= 2 && forall v :: v in a <==> v in b
    ensures Conjunction(a) == Conjunction(b) && Disjunction(a) == Disjunction(b)
  {
    LeastOfSame(a, b);
    NegatedAt(a);
    NegatedAt(b);
    LeastOfSame(Negated(a), Negated(b));
    DeMorgan(a);
    DeMorgan(b);
    GreatestOfNegated(Negated(a));
    GreatestOfNegated(Negated(b));
    RanksOfTwiceNegated(a);
    RanksOfTwiceNegated(b);
  }

  lemma LeastOfSame(a: seq<Value>, b: seq<Value>)
    requires forall v :: v in a <==> v in b
    ensures Least(a) == Least(b)
  {
    LeastIsLeast(b);
    LeastIs(a, Least(b));
  }

  // A call over all parameters can be split into calls over its parts.
  lemma {:induction false} LeastOfParts(a: seq<Value>, b: seq<Value>)
    ensures Least(a + b) == if Least(a) < Least(b) then Least(a) else Least(b)
  {
    if |b| == 0 {
      assert a + b == a;
    } else {
      LeastOfParts(a, b[..|b| - 1]);
      assert (a + b)[..|a + b| - 1] == a + b[..|b| - 1];
    }
  }

  lemma ConjunctionOfParts(a: seq<Value>, b: seq<Value>)
    requires |a| >= 2 && |b| >= 2
    ensures Conjunction(a + b) == Conjunction([Conjunction(a), Conjunction(b)])
  {
    LeastOfParts(a, b);
    var pair := [Conjunction(a), Conjunction(b)];
    assert pair == [Conjunction(a)] + [Conjunction(b)];
    LeastOfParts([Conjunction(a)], [Conjunction(b)]);
    assert [Conjunction(a)][..0] == [] && [Conjunction(b)][..0] == [];
    assert Least([Conjunction(a)]) == Least(a) && Least([Conjunction(b)]) == Least(b);
  }

  // ---- The functions ----

  lemma LeastNext(parameters: seq<Value>, t: nat)
    requires t < |parameters|
    ensures Least(parameters[..t + 1])
         == (if Rank(parameters[t]) < Least(parameters[..t]) then Rank(parameters[t]) else Least(parameters[..t]))
    ensures Greatest(parameters[..t + 1])
         == (if Rank(parameters[t]) > Greatest(parameters[..t]) then Rank(parameters[t]) else Greatest(parameters[..t]))
  {
    assert parameters[..t + 1][..t] == parameters[..t];
  }

  lemma {:induction false} Decided(parameters: seq<Value>, t: nat)
    requires t <= |parameters|
    ensures Least(parameters[..t]) == 0 ==> Least(parameters) == 0
    ensures Greatest(parameters[..t]) == 2 ==> Greatest(parameters) == 2
    decreases |parameters| - t
  {
    if t < |parameters| {
      LeastNext(parameters, t);
      Decided(parameters, t + 1);
    } else {
      assert parameters[..t] == parameters;
    }
  }

  // Leaves the loop at the first false parameter.
  method And(parameters: seq<Value>) returns (result: Value)
    ensures result == Conjunction(parameters)
  {
    var sz := |parameters|;
    if sz < 2 {
      return None;
    }
    var missing := false;
    for t := 0 to sz
      invariant Least(parameters[..t]) == if missing then 1 else 2
    {
      LeastNext(parameters, t);
      if parameters[t].None? {
        missing := true;
      } else if parameters[t].value == 0.0 {
        Decided(parameters, t + 1);
        return Some(0.0);
      }
    }
    assert parameters[..sz] == parameters;
    if missing {
      return None;
    }
    return Some(1.0);
  }

  // Leaves the loop at the first true parameter.
  method Or(parameters: seq<Value>) returns (result: Value)
    ensures result == Disjunction(parameters)
  {
    var sz := |parameters|;
    if sz < 2 {
      return None;
    }
    var missing := false;
    for t := 0 to sz
      invariant Greatest(parameters[..t]) == if missing then 1 else 0
    {
      LeastNext(parameters, t);
      if parameters[t].None? {
        missing := true;
      } else if parameters[t].value != 0.0 {
        Decided(parameters, t + 1);
        return Some(1.0);
      }
    }
    assert parameters[..sz] == parameters;
    if missing {
      return None;
    }
    return Some(0.0);
  }

  datatype NotResult = Answer(value: Value) | WrongNumberOfParameters

  method Not(parameters: seq<Value>) returns (result: NotResult)
    ensures result == if |parameters| == 1 then Answer(Negation(parameters[0])) else WrongNumberOfParameters
  {
    if |parameters| == 1 {
      if parameters[0].Some? {
        if parameters[0].value == 0.0 {
          return Answer(Some(1.0));
        }
        return Answer(Some(0.0));
      }
      return Answer(None);
    }
    return WrongNumberOfParameters;
  }

  // One point of the grid version, which stops at the first deciding grid.
  method AndAt(grids: seq<seq<Value>>, s: nat) returns (result: Value)
    ensures result == OfRank(Least(Column(grids, s)))
  {
    var missing, decided, t := false, false, 0;
    ghost var column := Column(grids, s);
    while t < |grids| && !decided
      invariant t <= |grids|
      invariant Least(column[..t]) == if decided then 0 else if missing then 1 else 2
    {
      LeastNext(column, t);
      if s >= |grids[t]| || grids[t][s].None? {
        missing := true;
      } else if grids[t][s].value == 0.0 {
        decided := true;
      }
      t := t + 1;
    }
    if decided {
      Decided(column, t);
      return Some(0.0);
    }
    assert column[..t] == column;
    if missing {
      return None;
    }
    return Some(1.0);
  }

  method OrAt(grids: seq<seq<Value>>, s: nat) returns (result: Value)
    ensures result == OfRank(Greatest(Column(grids, s)))
  {
    var missing, decided, t := false, false, 0;
    ghost var column := Column(grids, s);
    while t < |grids| && !decided
      invariant t <= |grids|
      invariant Greatest(column[..t]) == if decided then 2 else if missing then 1 else 0
    {
      LeastNext(column, t);
      if s >= |grids[t]| || grids[t][s].None? {
        missing := true;
      } else if grids[t][s].value != 0.0 {
        decided := true;
      }
      t := t + 1;
    }
    if decided {
      Decided(column, t);
      return Some(1.0);
    }
    assert column[..t] == column;
    if missing {
      return None;
    }
    return Some(0.0);
  }

  // At every point the same answer as for the values of the grids there; with fewer than two
  // grids there is no output at all.
  method AndGrid(columns: nat, rows: nat, grids: seq<seq<Value>>) returns (out: seq<Value>)
    ensures |grids| < 2 ==> out == []
    ensures |grids| >= 2 ==>
              && |out| == columns * rows
              && forall s :: 0 <= s < columns * rows ==> out[s] == Conjunction(Column(grids, s))
  {
    out := [];
    if |grids| >= 2 {
      for s := 0 to columns * rows
        invariant |out| == s && forall k :: 0 <= k < s ==> out[k] == Conjunction(Column(grids, k))
      {
        var value := AndAt(grids, s);
        out := out + [value];
      }
    }
  }

  method OrGrid(columns: nat, rows: nat, grids: seq<seq<Value>>) returns (out: seq<Value>)
    ensures |grids| < 2 ==> out == []
    ensures |grids| >= 2 ==>
              && |out| == columns * rows
              && forall s :: 0 <= s < columns * rows ==> out[s] == Disjunction(Column(grids, s))
  {
    out := [];
    if |grids| >= 2 {
      for s := 0 to columns * rows
        invariant |out| == s && forall k :: 0 <= k < s ==> out[k] == Disjunction(Column(grids, k))
      {
        var value := OrAt(grids, s);
        out := out + [value];
      }
    }
  }

  // NOT of a grid has no output unless there is exactly one grid; a short one is missing beyond its end.
  method NotGrid(columns: nat, rows: nat, grids: seq<seq<Value>>) returns (out: seq<Value>)
    ensures |grids| != 1 ==> out == []
    ensures |grids| == 1 ==>
              && |out| == columns * rows
              && forall s :: 0 <= s < columns * rows ==> out[s] == Negation(Column(grids, s)[0])
  {
    out := [];
    if |grids| == 1 {
      for s := 0 to columns * rows
        invariant |out| == s && forall k :: 0 <= k < s ==> out[k] == Negation(Column(grids, k)[0])
      {
        var val: Value := None;
        var val1: Value := None;
        if s < |grids[0]| {
          val1 := grids[0][s];
        }
        if val1.Some? {
          val := if val1.value == 0.0 then Some(1.0) else Some(0.0);
        }
        out := out + [val];
      }
    }
  }

  // ---- The tables ----

  // False if a parameter is false, true if all are, and missing otherwise.
  lemma AndTable(parameters: seq<Value>)
    requires |parameters| >= 2
    ensures Conjunction(parameters) == Some(0.0) <==> Some(0.0) in parameters
    ensures Conjunction(parameters) == Some(1.0) <==> forall v :: v in parameters ==> v.Some? && v.value != 0.0
    ensures Conjunction(parameters) in {Some(0.0), Some(1.0), None}
  {
    LeastIsLeast(parameters);
  }

  // True if a parameter is true, false if all are, and missing otherwise.
  lemma OrTable(parameters: seq<Value>)
    requires |parameters| >= 2
    ensures Disjunction(parameters) == Some(1.0) <==> exists v :: v in parameters && v.Some? && v.value != 0.0
    ensures Disjunction(parameters) == Some(0.0) <==> forall v :: v in parameters ==> v == Some(0.0)
    ensures Disjunction(parameters) in {Some(0.0), Some(1.0), None}
  {
    GreatestIsGreatest(parameters);
  }

  lemma {:induction false} GreatestIsGreatest(parameters: seq<Value>)
    ensures forall v :: v in parameters ==> Greatest(parameters) >= Rank(v)
    ensures Greatest(parameters) == 0 || exists v :: v in parameters && Rank(v) == Greatest(parameters)
  {
    if |parameters| > 0 {
      var front, last := parameters[..|parameters| - 1], parameters[|parameters| - 1];
      GreatestIsGreatest(front);
      assert parameters == front + [last];
      assert last in parameters;
      if Greatest(front) > 0 {
        var v :| v in front && Rank(v) == Greatest(front);
        assert v in parameters;
      }
    }
  }

  lemma NotTable(v: Value)
    ensures Negation(v) == if v.None? then None else if v.value == 0.0 then Some(1.0) else Some(0.0)
    ensures Conjunction([v]) == Disjunction([v]) == Conjunction([]) == Disjunction([]) == None
  {
  }
}
