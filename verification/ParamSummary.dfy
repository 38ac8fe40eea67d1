// The parameter list of a generation: its content records grouped by parameter, level and
// forecast, with the number of records of each group.
module ParamSummaries {
  import opened ContentOrder
  import opened ContentSequences
  import Values

  // fmiName_fmiLevelId_level_starttime_file_message
  const PARAM_ORDER: nat := 10

  datatype Group = Group(name: nat, levelId: nat, level: int, forecastType: int, forecastNumber: int)

  function GroupOf(c: ContentInfo): Group {
    Group(c.fmiParameterName, c.fmiParameterLevelId, c.parameterLevel, c.forecastType, c.forecastNumber)
  }

  // How many of the first t records belong to the group.
  function Count(s: seq<ContentInfo>, t: nat, g: Group): nat
    requires t <= |s|
  {
    if t == 0 then 0 else Count(s, t - 1, g) + if GroupOf(s[t - 1]) == g then 1 else 0
  }

  // The counts are kept in the message index of the summary's records.
  function Sum(params: seq<ContentInfo>): nat {
    if |params| == 0 then 0 else Sum(params[..|params| - 1]) + params[|params| - 1].messageIndex
  }

  // ---- Records of a group stand together ----

  lemma {:induction false} PrefixStaysTogether(a: seq<int>, b: seq<int>, c: seq<int>, i: nat, n: nat)
    requires |a| == |b| == |c| && i <= n <= |a|
    requires LexFrom(a, b, i) <= 0 && LexFrom(b, c, i) <= 0
    requires forall k :: i <= k < n ==> a[k] == c[k]
    ensures forall k :: i <= k < n ==> b[k] == a[k]
    decreases n - i
  {
    if i < n {
      assert a[i] == c[i];
      PrefixStaysTogether(a, b, c, i + 1, n);
    }
  }

  // The group is read off the first five sort keys, whatever order is kept between types 3 and 4.
  lemma GroupIsPrefixOfKeys(x: ContentInfo, y: ContentInfo)
    ensures |x.Keys(PARAM_ORDER)| == |y.Keys(PARAM_ORDER)| == 9
    ensures GroupOf(x) == GroupOf(y)
       <==> forall k :: 0 <= k < 5 ==> x.Keys(PARAM_ORDER)[k] == y.Keys(PARAM_ORDER)[k]
    ensures GroupOf(x) == GroupOf(y) <==>
              && x.fmiParameterName == y.fmiParameterName && x.fmiParameterLevelId == y.fmiParameterLevelId
              && x.parameterLevel == y.parameterLevel && x.forecastType == y.forecastType
              && x.forecastNumber == y.forecastNumber
  {
    var a, b := x.Keys(PARAM_ORDER), y.Keys(PARAM_ORDER);
    if forall k :: 0 <= k < 5 ==> a[k] == b[k] {
      assert a[0] == b[0] && a[1] == b[1] && a[2] == b[2] && a[3] == b[3] && a[4] == b[4];
    }
  }

  lemma GroupsStayTogether(x: ContentInfo, y: ContentInfo, z: ContentInfo)
    requires x.Compare(PARAM_ORDER, y) <= 0 && y.Compare(PARAM_ORDER, z) <= 0
    requires GroupOf(x) == GroupOf(z)
    ensures GroupOf(y) == GroupOf(x)
  {
    CompareIsLexicographic(PARAM_ORDER, x, y);
    CompareIsLexicographic(PARAM_ORDER, y, z);
    GroupIsPrefixOfKeys(x, z);
    GroupIsPrefixOfKeys(x, y);
    PrefixStaysTogether(x.Keys(PARAM_ORDER), y.Keys(PARAM_ORDER), z.Keys(PARAM_ORDER), 0, 5);
  }

  // Each record is compared with the one before it only.
  predicate StartsGroup(s: seq<ContentInfo>, t: nat)
    requires t < |s|
  {
    t == 0 || GroupOf(s[t]) != GroupOf(s[t - 1])
  }

  ghost predicate FirstOfGroup(s: seq<ContentInfo>, t: nat)
    requires t < |s|
  {
    forall k :: 0 <= k < t ==> GroupOf(s[k]) != GroupOf(s[t])
  }

  // What makes that comparison enough.
  ghost predicate Grouped(s: seq<ContentInfo>) {
    forall t :: 0 <= t < |s| && StartsGroup(s, t) ==> FirstOfGroup(s, t)
  }

  lemma SortedIsGrouped(s: seq<ContentInfo>)
    requires SortedBy(PARAM_ORDER, s)
    ensures Grouped(s)
  {
    forall t, k | 0 <= k < t < |s| && StartsGroup(s, t) ensures GroupOf(s[k]) != GroupOf(s[t]) {
      if k < t - 1 && GroupOf(s[k]) == GroupOf(s[t]) {
        GroupsStayTogether(s[k], s[t - 1], s[t]);
      }
    }
  }

  // ---- The summary ----

  // Record i of the summary is the first record of its group, with the number of its records.
  ghost predicate Counted(params: seq<ContentInfo>, firsts: seq<nat>, s: seq<ContentInfo>, t: nat)
    requires t <= |s|
  {
    && |firsts| == |params|
    && forall i :: 0 <= i < |params| ==>
         firsts[i] < t && params[i] == s[firsts[i]].(messageIndex := Count(s, t, GroupOf(s[firsts[i]])))
  }

  ghost predicate Distinct(params: seq<ContentInfo>) {
    forall i, j :: 0 <= i < j < |params| ==> GroupOf(params[i]) != GroupOf(params[j])
  }

  // `places` tells which record of the summary stands for record k.
  ghost predicate Covers(params: seq<ContentInfo>, places: seq<nat>, s: seq<ContentInfo>, t: nat)
    requires t <= |s|
  {
    && |places| == t
    && forall k :: 0 <= k < t ==> places[k] < |params| && GroupOf(params[places[k]]) == GroupOf(s[k])
  }

  ghost predicate Summarises(params: seq<ContentInfo>, firsts: seq<nat>, places: seq<nat>, s: seq<ContentInfo>, t: nat)
    requires t <= |s|
  {
    Counted(params, firsts, s, t) && Distinct(params) && Covers(params, places, s, t) && Sum(params) == t
  }

  lemma {:induction false} CountNone(s: seq<ContentInfo>, t: nat, g: Group)
    requires t <= |s| && forall k :: 0 <= k < t ==> GroupOf(s[k]) != g
    ensures Count(s, t, g) == 0
  {
    if t > 0 {
      CountNone(s, t - 1, g);
    }
  }

  // The record the summary ends with, counted once more.
  function Incremented(params: seq<ContentInfo>): (r: seq<ContentInfo>)
    requires |params| > 0
    ensures |r| == |params|
  {
    var last := params[|params| - 1];
    params[|params| - 1 := last.(messageIndex := last.messageIndex + 1)]
  }

  lemma SumNext(params: seq<ContentInfo>, c: ContentInfo)
    ensures Sum(params + [c]) == Sum(params) + c.messageIndex
    ensures |params| > 0 ==> Sum(Incremented(params)) == Sum(params) + 1
  {
    assert (params + [c])[..|params|] == params;
    if |params| > 0 {
      assert Incremented(params)[..|params| - 1] == params[..|params| - 1];
    }
  }

  lemma FirstIsCounted(params: seq<ContentInfo>, firsts: seq<nat>, s: seq<ContentInfo>, t: nat)
    requires t < |s| && Counted(params, firsts, s, t) && Distinct(params) && FirstOfGroup(s, t)
    ensures Counted(params + [s[t].(messageIndex := 1)], firsts + [t], s, t + 1)
    ensures Distinct(params + [s[t].(messageIndex := 1)])
  {
    CountNone(s, t, GroupOf(s[t]));
    forall i | 0 <= i < |params|
      ensures GroupOf(params[i]) != GroupOf(s[t])
      ensures params[i] == s[firsts[i]].(messageIndex := Count(s, t + 1, GroupOf(s[firsts[i]])))
    {
      assert GroupOf(params[i]) == GroupOf(s[firsts[i]]);
    }
  }

  lemma NextIsCounted(params: seq<ContentInfo>, firsts: seq<nat>, s: seq<ContentInfo>, t: nat)
    requires t < |s| && Counted(params, firsts, s, t) && Distinct(params)
    requires |params| > 0 && GroupOf(params[|params| - 1]) == GroupOf(s[t])
    ensures Counted(Incremented(params), firsts, s, t + 1) && Distinct(Incremented(params))
  {
    forall i | 0 <= i < |params|
      ensures GroupOf(Incremented(params)[i]) == GroupOf(params[i])
      ensures Incremented(params)[i] == s[firsts[i]].(messageIndex := Count(s, t + 1, GroupOf(s[firsts[i]])))
    {
      assert GroupOf(params[i]) == GroupOf(s[firsts[i]]);
    }
  }

  lemma FirstIsCovered(params: seq<ContentInfo>, places: seq<nat>, s: seq<ContentInfo>, t: nat, c: ContentInfo)
    requires t < |s| && Covers(params, places, s, t) && GroupOf(c) == GroupOf(s[t])
    ensures Covers(params + [c], places + [|params|], s, t + 1)
  {
  }

  lemma NextIsCovered(params: seq<ContentInfo>, places: seq<nat>, s: seq<ContentInfo>, t: nat)
    requires t < |s| && Covers(params, places, s, t)
    requires |params| > 0 && GroupOf(params[|params| - 1]) == GroupOf(s[t])
    ensures Covers(Incremented(params), places + [|params| - 1], s, t + 1)
  {
    forall i | 0 <= i < |params| ensures GroupOf(Incremented(params)[i]) == GroupOf(params[i]) {
    }
  }

  // The summary of the first t records, where its records come from, and where each record went.
  function Params(s: seq<ContentInfo>, t: nat): (params: seq<ContentInfo>)
    requires t <= |s|
    ensures t > 0 ==> |params| > 0
  {
    if t == 0 then []
    else if StartsGroup(s, t - 1) then Params(s, t - 1) + [s[t - 1].(messageIndex := 1)]
    else Incremented(Params(s, t - 1))
  }

  ghost function Firsts(s: seq<ContentInfo>, t: nat): seq<nat>
    requires t <= |s|
  {
    if t == 0 then []
    else if StartsGroup(s, t - 1) then Firsts(s, t - 1) + [t - 1]
    else Firsts(s, t - 1)
  }

  ghost function Places(s: seq<ContentInfo>, t: nat): seq<nat>
    requires t <= |s|
  {
    if t == 0 then [] else Places(s, t - 1) + [|Params(s, t)| - 1]
  }

  lemma {:induction false} LastGroup(s: seq<ContentInfo>, t: nat)
    requires 0 < t <= |s|
    ensures GroupOf(Params(s, t)[|Params(s, t)| - 1]) == GroupOf(s[t - 1])
  {
    if t > 1 {
      LastGroup(s, t - 1);
    }
  }

  lemma {:induction false} ParamsAreCounted(s: seq<ContentInfo>, t: nat)
    requires Grouped(s) && t <= |s|
    ensures Counted(Params(s, t), Firsts(s, t), s, t) && Distinct(Params(s, t))
  {
    if t > 0 {
      ParamsAreCounted(s, t - 1);
      if StartsGroup(s, t - 1) {
        FirstIsCounted(Params(s, t - 1), Firsts(s, t - 1), s, t - 1);
      } else {
        LastGroup(s, t - 1);
        NextIsCounted(Params(s, t - 1), Firsts(s, t - 1), s, t - 1);
      }
    }
  }

  lemma {:induction false} ParamsCover(s: seq<ContentInfo>, t: nat)
    requires t <= |s|
    ensures Covers(Params(s, t), Places(s, t), s, t)
  {
    if t > 0 {
      ParamsCover(s, t - 1);
      if StartsGroup(s, t - 1) {
        FirstIsCovered(Params(s, t - 1), Places(s, t - 1), s, t - 1, s[t - 1].(messageIndex := 1));
      } else {
        LastGroup(s, t - 1);
        NextIsCovered(Params(s, t - 1), Places(s, t - 1), s, t - 1);
      }
    }
  }

  lemma {:induction false} ParamsAddUp(s: seq<ContentInfo>, t: nat)
    requires t <= |s|
    ensures Sum(Params(s, t)) == t
  {
    if t > 0 {
      ParamsAddUp(s, t - 1);
      SumNext(Params(s, t - 1), s[t - 1].(messageIndex := 1));
    }
  }

  lemma ParamsSummarise(s: seq<ContentInfo>, t: nat)
    requires Grouped(s) && t <= |s|
    ensures Summarises(Params(s, t), Firsts(s, t), Places(s, t), s, t)
  {
    ParamsAreCounted(s, t);
    ParamsCover(s, t);
    ParamsAddUp(s, t);
  }

  // The result holds each group once, with exactly the number of its records, and the numbers
  // add up to the length of the list.
  method GetContentParamList(contentInfoList: seq<ContentInfo>) returns (contentParamList: seq<ContentInfo>)
    requires SortedBy(PARAM_ORDER, contentInfoList)
    ensures contentParamList == Params(contentInfoList, |contentInfoList|)
    ensures Summarises(contentParamList, Firsts(contentInfoList, |contentInfoList|),
                       Places(contentInfoList, |contentInfoList|), contentInfoList, |contentInfoList|)
  {
    contentParamList := GroupRecords(contentInfoList);
    SortedIsGrouped(contentInfoList);
    ParamsSummarise(contentInfoList, |contentInfoList|);
  }

  method GroupRecords(contentInfoList: seq<ContentInfo>) returns (contentParamList: seq<ContentInfo>)
    ensures contentParamList == Params(contentInfoList, |contentInfoList|)
  {
    contentParamList := [];
    for t := 0 to |contentInfoList|
      invariant contentParamList == Params(contentInfoList, t)
    {
      var info := contentInfoList[t];
      if t == 0 || GroupOf(info) != GroupOf(contentInfoList[t - 1]) {
        contentParamList := contentParamList + [info.(messageIndex := 1)];
      } else {
        var n := |contentParamList| - 1;
        var currentInfo := contentParamList[n];
        contentParamList := contentParamList[n := currentInfo.(messageIndex := currentInfo.messageIndex + 1)];
      }
    }
  }

  // ---- The order of the fetched list does not matter ----

  function CountAll(s: seq<ContentInfo>, g: Group): nat {
    Count(s, |s|, g)
  }

  lemma {:induction false} CountWithout(s: seq<ContentInfo>, k: nat, t: nat, g: Group)
    requires k < t <= |s|
    ensures Count(s, t, g) == Count(Values.Removed(s, k), t - 1, g) + if GroupOf(s[k]) == g then 1 else 0
  {
    if t == k + 1 {
      CountSame(s, Values.Removed(s, k), k, g);
    } else {
      CountWithout(s, k, t - 1, g);
    }
  }

  lemma {:induction false} CountSame(a: seq<ContentInfo>, b: seq<ContentInfo>, t: nat, g: Group)
    requires t <= |a| && t <= |b| && forall k :: 0 <= k < t ==> a[k] == b[k]
    ensures Count(a, t, g) == Count(b, t, g)
  {
    if t > 0 {
      CountSame(a, b, t - 1, g);
    }
  }

  lemma CountOfPermutation(a: seq<ContentInfo>, b: seq<ContentInfo>, g: Group)
    requires multiset(a) == multiset(b)
    ensures |a| == |b| && CountAll(a, g) == CountAll(b, g)
  {
    var f := (s: seq<ContentInfo>) => CountAll(s, g) as int;
    var h := (c: ContentInfo, count: int) => count + if GroupOf(c) == g then 1 else 0;
    forall s: seq<ContentInfo>, k: nat | k < |s| ensures f(s) == h(s[k], f(Values.Removed(s, k))) {
      CountWithout(s, k, |s|, g);
    }
    Values.SameForPermutation(a, b, f, h);
  }

  lemma {:induction false} CountIsPositive(s: seq<ContentInfo>, t: nat, g: Group)
    requires t <= |s|
    ensures Count(s, t, g) > 0 <==> exists k :: 0 <= k < t && GroupOf(s[k]) == g
  {
    if t > 0 {
      CountIsPositive(s, t - 1, g);
    }
  }

  // However the fetched list was sorted, the summary has exactly its groups, each once with
  // exactly the number of fetched records in the group, and the numbers add up to its length.
  lemma SummaryOfFetched(fetched: seq<ContentInfo>, sorted: seq<ContentInfo>)
    requires multiset(fetched) == multiset(sorted) && SortedBy(PARAM_ORDER, sorted)
    ensures var params := Params(sorted, |sorted|);
            && (forall i :: 0 <= i < |params| ==> params[i].messageIndex == CountAll(fetched, GroupOf(params[i])) > 0)
            && (forall c :: c in fetched ==> exists i :: 0 <= i < |params| && GroupOf(params[i]) == GroupOf(c))
            && Distinct(params) && Sum(params) == |fetched|
  {
    var n := |sorted|;
    var params, firsts, places := Params(sorted, n), Firsts(sorted, n), Places(sorted, n);
    SortedIsGrouped(sorted);
    ParamsSummarise(sorted, n);
    CountOfPermutation(fetched, sorted, Group(0, 0, 0, 0, 0));
    forall i | 0 <= i < |params| ensures params[i].messageIndex == CountAll(fetched, GroupOf(params[i])) > 0 {
      CountOfPermutation(fetched, sorted, GroupOf(params[i]));
      CountIsPositive(sorted, n, GroupOf(sorted[firsts[i]]));
    }
    forall c | c in fetched ensures exists i :: 0 <= i < |params| && GroupOf(params[i]) == GroupOf(c) {
      assert c in multiset(sorted);
      var k :| 0 <= k < |sorted| && sorted[k] == c;
      assert GroupOf(params[places[k]]) == GroupOf(c);
    }
  }

  // ---- Which records stand for their groups, and what is counted ----

  ghost predicate HoldsFirsts(params: seq<ContentInfo>, firsts: seq<nat>, s: seq<ContentInfo>, t: nat)
    requires t <= |s|
  {
    && |firsts| == |params| && (forall i, j :: 0 <= i < j < |firsts| ==> firsts[i] < firsts[j])
    && forall i :: 0 <= i < |firsts| ==> firsts[i] < t && FirstOfGroup(s, firsts[i])
                                         && params[i] == s[firsts[i]].(messageIndex := params[i].messageIndex)
  }

  lemma OneMoreFirst(params: seq<ContentInfo>, firsts: seq<nat>, s: seq<ContentInfo>, t: nat)
    requires t < |s| && HoldsFirsts(params, firsts, s, t) && FirstOfGroup(s, t)
    ensures HoldsFirsts(params + [s[t].(messageIndex := 1)], firsts + [t], s, t + 1)
  {
  }

  lemma SameFirsts(params: seq<ContentInfo>, firsts: seq<nat>, s: seq<ContentInfo>, t: nat)
    requires t < |s| && HoldsFirsts(params, firsts, s, t) && |params| > 0
    ensures HoldsFirsts(Incremented(params), firsts, s, t + 1)
  {
  }

  lemma {:induction false} FirstsAreHeld(s: seq<ContentInfo>, t: nat) returns (firsts: seq<nat>)
    requires Grouped(s) && t <= |s|
    ensures HoldsFirsts(Params(s, t), firsts, s, t)
  {
    firsts := [];
    if t > 0 {
      firsts := FirstsAreHeld(s, t - 1);
      if StartsGroup(s, t - 1) {
        OneMoreFirst(Params(s, t - 1), firsts, s, t - 1);
        firsts := firsts + [t - 1];
      } else {
        SameFirsts(Params(s, t - 1), firsts, s, t - 1);
      }
    }
  }

  // Record i of the summary is the first record of its group but for the number, and the groups
  // come in the order of their first records.
  lemma SummaryHoldsFirsts(s: seq<ContentInfo>) returns (firsts: seq<nat>)
    requires SortedBy(PARAM_ORDER, s)
    ensures |firsts| == |Params(s, |s|)| && forall i, j :: 0 <= i < j < |firsts| ==> firsts[i] < firsts[j]
    ensures forall i :: 0 <= i < |firsts| ==>
              && firsts[i] < |s|
              && Params(s, |s|)[i] == s[firsts[i]].(messageIndex := Params(s, |s|)[i].messageIndex)
              && forall k :: 0 <= k < firsts[i] ==> GroupOf(s[k]) != GroupOf(s[firsts[i]])
  {
    SortedIsGrouped(s);
    firsts := FirstsAreHeld(s, |s|);
    forall i | 0 <= i < |firsts|
      ensures forall k :: 0 <= k < firsts[i] ==> GroupOf(s[k]) != GroupOf(s[firsts[i]])
    {
      assert FirstOfGroup(s, firsts[i]);
    }
  }

  lemma {:induction false} CountIsNumberOfSlots(s: seq<ContentInfo>, t: nat, g: Group)
    requires t <= |s|
    ensures Count(s, t, g) == |Slots(s, (c: ContentInfo) => GroupOf(c) == g, t)|
  {
    if t > 0 {
      CountIsNumberOfSlots(s, t - 1, g);
      NextSlot(s, (c: ContentInfo) => GroupOf(c) == g, t - 1);
    }
  }
}
