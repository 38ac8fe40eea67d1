// The generation list of the cache: an array of records in the order of their identifiers.
module GenerationLists {
  import opened Wrappers
  import opened GenerationSync

  datatype Entry = Entry(id: nat, info: Generation, marked: bool) {
    function AsCached(): Cached {
      Cached(info, marked)
    }
  }

  predicate Ascending(s: seq<Entry>) {
    forall i, j :: 0 <= i < j < |s| ==> s[i].id < s[j].id
  }

  // What lookups by identifier see.
  function ListOf(s: seq<Entry>): CachedList {
    if |s| == 0 then map[] else ListOf(s[..|s| - 1])[s[|s| - 1].id := s[|s| - 1].AsCached()]
  }

  predicate Holds(list: CachedList, e: Entry) {
    e.id in list && list[e.id] == e.AsCached()
  }

  lemma HeldEntry(list: CachedList, i: nat)
    ensures i in list ==> Holds(list, Entry(i, list[i].info, list[i].marked))
  {
  }

  lemma {:induction false} ListHolds(s: seq<Entry>)
    requires Ascending(s)
    ensures forall e :: e in s <==> Holds(ListOf(s), e)
  {
    if |s| > 0 {
      var front, last := s[..|s| - 1], s[|s| - 1];
      ListHolds(front);
      assert forall k :: 0 <= k < |front| ==> front[k] == s[k];
      HeldEntry(ListOf(front), last.id);
      assert s == front + [last];
    }
  }

  // A list is told by the entries it holds.
  lemma ListIs(s: seq<Entry>, list: CachedList)
    requires Ascending(s) && forall e :: e in s <==> Holds(list, e)
    ensures ListOf(s) == list
  {
    ListHolds(s);
    forall i
      ensures i in list ==> i in ListOf(s) && ListOf(s)[i] == list[i]
      ensures i in ListOf(s) ==> i in list
    {
      if i in list {
        assert Holds(list, Entry(i, list[i].info, list[i].marked));
      }
      if i in ListOf(s) {
        assert Holds(ListOf(s), Entry(i, ListOf(s)[i].info, ListOf(s)[i].marked));
      }
    }
  }

  // ---- Changes of the sequence, seen by lookups ----

  function InsertedAt(s: seq<Entry>, idx: nat, e: Entry): seq<Entry>
    requires idx <= |s|
  {
    s[..idx] + [e] + s[idx..]
  }

  function RemovedAt(s: seq<Entry>, idx: nat): seq<Entry>
    requires idx < |s|
  {
    s[..idx] + s[idx + 1..]
  }

  // Keeps what is not to be dropped.
  function Filtered(s: seq<Entry>, drop: Entry -> bool): seq<Entry> {
    if |s| == 0 then []
    else Filtered(s[..|s| - 1], drop) + if drop(s[|s| - 1]) then [] else [s[|s| - 1]]
  }

  function Count(s: seq<Entry>, p: Entry -> bool): nat {
    if |s| == 0 then 0 else Count(s[..|s| - 1], p) + if p(s[|s| - 1]) then 1 else 0
  }

  function MarkIf(e: Entry, hit: Entry -> bool): Entry {
    if hit(e) then e.(marked := true) else e
  }

  function MarkedAll(s: seq<Entry>, hit: Entry -> bool): seq<Entry> {
    if |s| == 0 then [] else MarkedAll(s[..|s| - 1], hit) + [MarkIf(s[|s| - 1], hit)]
  }

  predicate IsMarked(e: Entry) {
    e.marked
  }

  lemma SplitAt(s: seq<Entry>, idx: nat)
    requires idx <= |s|
    ensures s == s[..idx] + s[idx..]
    ensures idx < |s| ==> s == s[..idx] + [s[idx]] + s[idx + 1..]
  {
  }

  lemma SlicesAscend(s: seq<Entry>, idx: nat)
    requires Ascending(s) && idx <= |s|
    ensures Ascending(s[..idx]) && Ascending(s[idx..])
  {
    forall i, j | 0 <= i < j < |s| - idx ensures s[idx..][i].id < s[idx..][j].id {
      assert s[idx..][i] == s[idx + i] && s[idx..][j] == s[idx + j];
    }
  }

  lemma FrontIsBelow(s: seq<Entry>, idx: nat, low: nat)
    requires Ascending(s) && idx <= |s| && (idx > 0 ==> s[idx - 1].id < low)
    ensures forall e :: e in s[..idx] ==> e.id < low
  {
    forall e | e in s[..idx] ensures e.id < low {
      var k :| 0 <= k < idx && s[k] == e;
    }
  }

  lemma RestIsAbove(s: seq<Entry>, idx: nat, high: nat)
    requires Ascending(s) && idx <= |s| && (idx < |s| ==> high < s[idx].id)
    ensures forall e :: e in s[idx..] ==> high < e.id
  {
    forall e | e in s[idx..] ensures high < e.id {
      var k :| idx <= k < |s| && s[k] == e;
    }
  }

  // Parts that ascend and lie one behind the other ascend together.
  lemma JoinedAscends(a: seq<Entry>, b: seq<Entry>)
    requires Ascending(a) && Ascending(b)
    requires forall c, d :: c in a && d in b ==> c.id < d.id
    ensures Ascending(a + b)
  {
    forall i, j | 0 <= i < |a| <= j < |a| + |b| ensures (a + b)[i].id < (a + b)[j].id {
      assert (a + b)[i] in a && (a + b)[j] in b;
    }
  }

  // The same with one entry between two parts.
  lemma ThreeAscend(a: seq<Entry>, e: Entry, b: seq<Entry>)
    requires Ascending(a) && Ascending(b)
    requires (forall c :: c in a ==> c.id < e.id) && (forall d :: d in b ==> e.id < d.id)
    ensures Ascending(a + b) && Ascending(a + [e] + b)
  {
    JoinedAscends(a, b);
    JoinedAscends(a, [e]);
    JoinedAscends(a + [e], b);
  }

  lemma InSplit(s: seq<Entry>, idx: nat)
    requires idx <= |s|
    ensures forall c :: c in s <==> c in s[..idx] || c in s[idx..]
    ensures idx < |s| ==> forall c :: c in s[idx..] <==> c == s[idx] || c in s[idx + 1..]
  {
    SplitAt(s, idx);
    if idx < |s| {
      assert s[idx..] == [s[idx]] + s[idx + 1..];
    }
  }

  lemma InsertedAscends(s: seq<Entry>, idx: nat, e: Entry)
    requires Ascending(s) && idx <= |s|
    requires (idx > 0 ==> s[idx - 1].id < e.id) && (idx < |s| ==> e.id < s[idx].id)
    ensures Ascending(InsertedAt(s, idx, e))
    ensures forall c :: c in s ==> c.id != e.id
    ensures forall c :: c in InsertedAt(s, idx, e) <==> c in s || c == e
  {
    SlicesAscend(s, idx);
    InSplit(s, idx);
    FrontIsBelow(s, idx, e.id);
    RestIsAbove(s, idx, e.id);
    ThreeAscend(s[..idx], e, s[idx..]);
  }

  lemma RemovedAscends(s: seq<Entry>, idx: nat)
    requires Ascending(s) && idx < |s|
    ensures Ascending(RemovedAt(s, idx))
    ensures forall c :: c in RemovedAt(s, idx) <==> c in s && c.id != s[idx].id
  {
    SlicesAscend(s, idx);
    SlicesAscend(s, idx + 1);
    InSplit(s, idx);
    FrontIsBelow(s, idx, s[idx].id);
    RestIsAbove(s, idx + 1, s[idx].id);
    ThreeAscend(s[..idx], s[idx], s[idx + 1..]);
  }

  lemma OneMoreHeld(list: CachedList, s: seq<Entry>, t: seq<Entry>, e: Entry)
    requires forall c :: c in s <==> Holds(list, c)
    requires forall c :: c in s ==> c.id != e.id
    requires forall c :: c in t <==> c in s || c == e
    ensures forall c :: c in t <==> Holds(list[e.id := e.AsCached()], c)
  {
  }

  lemma OneLessHeld(list: CachedList, s: seq<Entry>, t: seq<Entry>, i: nat)
    requires forall c :: c in s <==> Holds(list, c)
    requires forall c :: c in t <==> c in s && c.id != i
    ensures forall c :: c in t <==> Holds(list - {i}, c)
  {
  }

  lemma InsertedIsList(s: seq<Entry>, idx: nat, e: Entry)
    requires Ascending(s) && idx <= |s|
    requires (idx > 0 ==> s[idx - 1].id < e.id) && (idx < |s| ==> e.id < s[idx].id)
    ensures Ascending(InsertedAt(s, idx, e))
    ensures e.id !in ListOf(s) && ListOf(InsertedAt(s, idx, e)) == ListOf(s)[e.id := e.AsCached()]
  {
    var list, t := ListOf(s), InsertedAt(s, idx, e);
    InsertedAscends(s, idx, e);
    ListHolds(s);
    HeldEntry(list, e.id);
    OneMoreHeld(list, s, t, e);
    ListIs(t, list[e.id := e.AsCached()]);
  }

  lemma RemovedIsList(s: seq<Entry>, idx: nat)
    requires Ascending(s) && idx < |s|
    ensures Ascending(RemovedAt(s, idx))
    ensures ListOf(RemovedAt(s, idx)) == ListOf(s) - {s[idx].id}
  {
    var list, t := ListOf(s), RemovedAt(s, idx);
    RemovedAscends(s, idx);
    ListHolds(s);
    OneLessHeld(list, s, t, s[idx].id);
    ListIs(t, list - {s[idx].id});
  }

  lemma OverwrittenIsList(s: seq<Entry>, idx: nat, e: Entry)
    requires Ascending(s) && idx < |s| && s[idx].id == e.id
    ensures Ascending(s[idx := e])
    ensures ListOf(s[idx := e]) == ListOf(s)[e.id := e.AsCached()]
  {
    RemovedIsList(s, idx);
    InsertedIsList(RemovedAt(s, idx), idx, e);
    assert InsertedAt(RemovedAt(s, idx), idx, e) == s[idx := e];
  }

  lemma {:induction false} FilteredIn(s: seq<Entry>, drop: Entry -> bool)
    ensures forall e :: e in Filtered(s, drop) <==> e in s && !drop(e)
  {
    if |s| > 0 {
      FilteredIn(s[..|s| - 1], drop);
      assert s == s[..|s| - 1] + [s[|s| - 1]];
    }
  }

  lemma {:induction false} FilteredAscends(s: seq<Entry>, drop: Entry -> bool)
    requires Ascending(s)
    ensures Ascending(Filtered(s, drop))
  {
    if |s| > 0 {
      var front, last := s[..|s| - 1], s[|s| - 1];
      FilteredAscends(front, drop);
      FilteredIn(front, drop);
      LastIsGreatest(s);
      JoinedAscends(Filtered(front, drop), if drop(last) then [] else [last]);
    }
  }

  lemma LastIsGreatest(s: seq<Entry>)
    requires Ascending(s) && |s| > 0
    ensures forall e :: e in s[..|s| - 1] ==> e.id < s[|s| - 1].id
  {
    forall e | e in s[..|s| - 1] ensures e.id < s[|s| - 1].id {
      var k :| 0 <= k < |s| - 1 && s[k] == e;
    }
  }

  lemma {:induction false} FilteredLength(s: seq<Entry>, drop: Entry -> bool)
    ensures |Filtered(s, drop)| + Count(s, drop) == |s|
  {
    if |s| > 0 {
      FilteredLength(s[..|s| - 1], drop);
    }
  }

  lemma {:induction false} MarkedAllAt(s: seq<Entry>, hit: Entry -> bool)
    ensures |MarkedAll(s, hit)| == |s|
    ensures forall k :: 0 <= k < |s| ==> MarkedAll(s, hit)[k] == MarkIf(s[k], hit)
  {
    if |s| > 0 {
      MarkedAllAt(s[..|s| - 1], hit);
    }
  }

  // A marking counts at least the new tombstones.
  lemma {:induction false} MarkedAreCounted(s: seq<Entry>, hit: Entry -> bool)
    ensures Count(MarkedAll(s, hit), IsMarked) <= Count(s, IsMarked) + Count(s, hit)
  {
    if |s| > 0 {
      var front, last := s[..|s| - 1], s[|s| - 1];
      MarkedAreCounted(front, hit);
      CountNext(MarkedAll(front, hit), MarkIf(last, hit), IsMarked);
    }
  }

  lemma CountNext(s: seq<Entry>, e: Entry, p: Entry -> bool)
    ensures Count(s + [e], p) == Count(s, p) + if p(e) then 1 else 0
  {
    assert (s + [e])[..|s|] == s;
  }

  lemma CountUpTo(s: seq<Entry>, t: nat, p: Entry -> bool)
    requires t < |s|
    ensures Count(s[..t + 1], p) == Count(s[..t], p) + if p(s[t]) then 1 else 0
  {
    assert s[..t + 1] == s[..t] + [s[t]];
    CountNext(s[..t], s[t], p);
  }

  lemma FilteredUpTo(s: seq<Entry>, t: nat, drop: Entry -> bool)
    requires t < |s|
    ensures Filtered(s[..t + 1], drop) == Filtered(s[..t], drop) + if drop(s[t]) then [] else [s[t]]
  {
    assert s[..t + 1][..t] == s[..t];
  }

  lemma {:induction false} FilteredIsList(s: seq<Entry>, drop: Entry -> bool, list: CachedList)
    requires Ascending(s)
    requires forall e :: Holds(list, e) <==> Holds(ListOf(s), e) && !drop(e)
    ensures Ascending(Filtered(s, drop)) && ListOf(Filtered(s, drop)) == list
  {
    FilteredIn(s, drop);
    FilteredAscends(s, drop);
    ListHolds(s);
    ListIs(Filtered(s, drop), list);
  }

  // The entries a deletion concerns.
  function HitBy(ev: Event): Entry -> bool {
    (e: Entry) => ev.Kills(e.id, e.info)
  }

  lemma RemovedByEvent(s: seq<Entry>, ev: Event)
    requires Ascending(s)
    ensures var t := Filtered(s, HitBy(ev)); Ascending(t) && ListOf(t) == Removed(ListOf(s), ev)
  {
    FilteredIsList(s, HitBy(ev), Removed(ListOf(s), ev));
  }

  lemma CompactedIsList(s: seq<Entry>)
    requires Ascending(s)
    ensures var t := Filtered(s, IsMarked); Ascending(t) && ListOf(t) == Compacted(ListOf(s))
  {
    FilteredIsList(s, IsMarked, Compacted(ListOf(s)));
  }

  lemma MarkedAscends(s: seq<Entry>, hit: Entry -> bool)
    requires Ascending(s)
    ensures Ascending(MarkedAll(s, hit))
  {
    MarkedAllAt(s, hit);
  }

  lemma MarkedUpdate(list: CachedList, ev: Event, e: Entry)
    ensures Marked(list[e.id := e.AsCached()], ev) == Marked(list, ev)[e.id := MarkIf(e, HitBy(ev)).AsCached()]
  {
  }

  lemma {:induction false} MarkedByEvent(s: seq<Entry>, ev: Event)
    ensures ListOf(MarkedAll(s, HitBy(ev))) == Marked(ListOf(s), ev)
  {
    if |s| > 0 {
      var front, last := s[..|s| - 1], s[|s| - 1];
      MarkedByEvent(front, ev);
      MarkedUpdate(ListOf(front), ev, last);
      assert MarkedAll(s, HitBy(ev))[..|front|] == MarkedAll(front, HitBy(ev)) by {
        MarkedAllAt(front, HitBy(ev));
      }
      MarkedAllAt(s, HitBy(ev));
    }
  }

  // ---- Counting ----

  lemma {:induction false} CountZero(s: seq<Entry>, p: Entry -> bool)
    ensures Count(s, p) == 0 <==> forall e :: e in s ==> !p(e)
  {
    if |s| > 0 {
      CountZero(s[..|s| - 1], p);
      assert s == s[..|s| - 1] + [s[|s| - 1]];
    }
  }

  lemma {:induction false} CountJoined(a: seq<Entry>, b: seq<Entry>, p: Entry -> bool)
    ensures Count(a + b, p) == Count(a, p) + Count(b, p)
  {
    if |b| == 0 {
      assert a + b == a;
    } else {
      CountJoined(a, b[..|b| - 1], p);
      assert (a + b)[..|a + b| - 1] == a + b[..|b| - 1];
    }
  }

  lemma {:induction false} FewerMarked(s: seq<Entry>, drop: Entry -> bool)
    ensures Count(Filtered(s, drop), IsMarked) <= Count(s, IsMarked)
  {
    if |s| > 0 {
      FewerMarked(s[..|s| - 1], drop);
      var front, last := s[..|s| - 1], s[|s| - 1];
      CountNext(Filtered(front, drop), last, IsMarked);
      assert Filtered(front, drop) + [] == Filtered(front, drop);
    }
  }

  lemma CountWithin(a: seq<Entry>, e: Entry, b: seq<Entry>, p: Entry -> bool)
    ensures Count(a + [e] + b, p) == Count(a + b, p) + if p(e) then 1 else 0
  {
    CountJoined(a, b, p);
    CountNext(a, e, p);
    CountJoined(a + [e], b, p);
  }

  lemma InsertedMarks(s: seq<Entry>, idx: nat, e: Entry)
    requires idx <= |s| && !e.marked
    ensures Count(InsertedAt(s, idx, e), IsMarked) == Count(s, IsMarked)
  {
    var a, b := s[..idx], s[idx..];
    calc {
      Count(InsertedAt(s, idx, e), IsMarked);
      Count(a + [e] + b, IsMarked);
      { CountWithin(a, e, b, IsMarked); }
      Count(a + b, IsMarked);
      { SplitAt(s, idx); }
      Count(s, IsMarked);
    }
  }

  lemma RemovedMarks(s: seq<Entry>, idx: nat)
    requires idx < |s|
    ensures Count(RemovedAt(s, idx), IsMarked) <= Count(s, IsMarked)
  {
    var a, b := s[..idx], s[idx + 1..];
    calc {
      Count(RemovedAt(s, idx), IsMarked);
      Count(a + b, IsMarked);
      <= { CountWithin(a, s[idx], b, IsMarked); }
      Count(a + [s[idx]] + b, IsMarked);
      { SplitAt(s, idx); }
      Count(s, IsMarked);
    }
  }

  // ---- Searching ----

  // Everything before is smaller and everything behind is greater.
  predicate IsClosest(s: seq<Entry>, id: nat, idx: nat) {
    && idx < |s|
    && (forall k :: 0 <= k < idx ==> s[k].id < id)
    && (forall k :: idx < k < |s| ==> id < s[k].id)
  }

  // In an ordered list its neighbours decide which index that is.
  lemma ClosestIsBetween(s: seq<Entry>, id: nat, idx: nat)
    requires Ascending(s)
    ensures IsClosest(s, id, idx)
       <==> && idx < |s|
            && (idx == 0 || s[idx - 1].id < id)
            && (idx == |s| - 1 || id < s[idx + 1].id)
  {
  }

  lemma ClosestFinds(s: seq<Entry>, id: nat, idx: nat)
    requires Ascending(s) && IsClosest(s, id, idx)
    ensures id in ListOf(s) <==> s[idx].id == id
    ensures id in ListOf(s) ==> ListOf(s)[id] == s[idx].AsCached()
  {
    ListHolds(s);
    HeldEntry(ListOf(s), id);
    assert Holds(ListOf(s), s[idx]);
  }

  class GenerationInfoList {
    var mArray: array<Entry>  // an array of length zero stands for the missing array
    var mLength: nat

    ghost predicate Valid()
      reads this, mArray
    {
      mLength <= mArray.Length && Ascending(mArray[..mLength])
    }

    ghost function Contents(): seq<Entry>
      reads this, mArray
      requires Valid()
    {
      mArray[..mLength]
    }

    constructor ()
      ensures Valid() && Contents() == [] && fresh(mArray)
    {
      mArray := new Entry[0];
      mLength := 0;
    }

    method GetClosestIndexNoLock(id: nat) returns (idx: nat)
      requires Valid()
      ensures if mLength == 0 then idx == 0 else IsClosest(Contents(), id, idx)
    {
      if mLength == 0 {
        return 0;
      }
      ghost var s := Contents();
      var low, high, mid: int := 0, mLength - 1, 0;
      while low <= high
        invariant 0 <= low <= high + 1 <= mLength
        invariant 0 <= mid < mLength
        invariant forall k :: 0 <= k < low ==> s[k].id < id
        invariant forall k :: high < k < mLength ==> id < s[k].id
      {
        mid := (low + high) / 2;
        assert s[mid] == mArray[mid];
        if mArray[mid].id == id {
          idx := LeftmostEqual(id, mid);
          assert s[idx] == mArray[idx];
          return;
        }
        if mArray[mid].id < id {
          low := mid + 1;
        } else {
          high := mid - 1;
        }
      }
      idx := ClosestAfterSearch(id, mid, low);
    }

    // Walks left over records of the same identifier.
    method LeftmostEqual(id: nat, hit: nat) returns (mid: nat)
      requires hit < mLength <= mArray.Length && mArray[hit].id == id
      ensures mid <= hit && mArray[mid].id == id
    {
      mid := hit;
      while mid > 0 && mArray[mid - 1].id == id
        invariant mid <= hit && mArray[mid].id == id
      {
        mid := mid - 1;
      }
    }

    // Walks from the last midpoint of an unsuccessful search to the last smaller record.
    method ClosestAfterSearch(id: nat, start: nat, ghost cut: nat) returns (idx: nat)
      requires Valid() && start < mLength && cut <= mLength
      requires forall k :: 0 <= k < cut ==> Contents()[k].id < id
      requires forall k :: cut <= k < mLength ==> id < Contents()[k].id
      ensures IsClosest(Contents(), id, idx)
    {
      ghost var s := Contents();
      var mid := start;
      assert s[mid] == mArray[mid];
      if mArray[mid].id < id {
        while mid < mLength && mArray[mid].id < id
          invariant start <= mid <= cut
        {
          assert s[mid] == mArray[mid];
          mid := mid + 1;
        }
        assert mid < mLength ==> s[mid] == mArray[mid];
        return mid - 1;
      }
      while mid > 0 && mArray[mid].id > id
        invariant mid < mLength && (mid >= cut || mid + 1 == cut)
      {
        assert s[mid] == mArray[mid];
        mid := mid - 1;
      }
      assert s[mid] == mArray[mid];
      return mid;
    }

    // The live record of the generation, and where it lies.
    method GetGenerationInfoById(id: nat) returns (info: Option<Generation>, idx: nat)
      requires Valid()
      ensures var list := ListOf(Contents()); info == if Live(list, id) then Some(list[id].info) else None
      ensures info.Some? ==> idx < mLength && Contents()[idx] == Entry(id, info.value, false)
    {
      if mLength == 0 {
        return None, 0;
      }
      idx := GetClosestIndexNoLock(id);
      ClosestFinds(Contents(), id, idx);
      var found := mArray[idx];
      assert found == Contents()[idx];
      if found.id == id && !found.marked {
        info := Some(found.info);
      } else {
        info := None;
      }
    }

    method IncreaseSize(newSize: nat)
      requires Valid() && mLength <= newSize
      modifies this`mArray
      ensures Valid() && fresh(mArray) && mArray.Length == newSize && Contents() == old(Contents())
    {
      var newArray := new Entry[newSize];
      var t := 0;
      while t < newSize && t < mArray.Length
        invariant 0 <= t <= newSize && t <= mArray.Length
        invariant forall k :: 0 <= k < t ==> newArray[k] == mArray[k]
        modifies newArray
      {
        newArray[t] := mArray[t];
        t := t + 1;
      }
      assert newArray[..mLength] == mArray[..mLength];
      mArray := newArray;
    }

    // Adding keeps a record of the same identifier, marked or not.
    method AddGenerationInfo(e: Entry)
      requires Valid() && !e.marked
      modifies this, mArray
      ensures Valid() && (mArray == old(mArray) || fresh(mArray))
      ensures ListOf(Contents()) == Insert(old(ListOf(Contents())), e.id, e.info)
      ensures Count(Contents(), IsMarked) == Count(old(Contents()), IsMarked)
    {
      ghost var s := Contents();
      if mLength == mArray.Length {
        IncreaseSize(mArray.Length + mArray.Length / 5 + 10);
      }
      assert Contents() == s;
      var idx, equal := InsertionIndex(e.id);
      if equal {
        return;
      }
      InsertedIsList(s, idx, e);
      InsertedMarks(s, idx, e);
      InsertAt(idx, e);
    }

    method InsertionIndex(id: nat) returns (idx: nat, equal: bool)
      requires Valid()
      ensures equal <==> id in ListOf(Contents())
      ensures !equal ==>
                && idx <= mLength
                && (idx > 0 ==> Contents()[idx - 1].id < id) && (idx < mLength ==> id < Contents()[idx].id)
    {
      ghost var s := Contents();
      idx := GetClosestIndexNoLock(id);
      if mLength > 0 {
        ClosestFinds(s, id, idx);
      }
      equal := idx < mLength && mArray[idx].id == id;
      if equal {
        return;
      }
      while idx < mLength && mArray[idx].id < id
        invariant idx <= mLength && forall k :: 0 <= k < idx ==> s[k].id < id
      {
        assert s[idx] == mArray[idx];
        idx := idx + 1;
      }
      assert idx < mLength ==> s[idx] == mArray[idx];
    }

    // Shifts the records from idx on by one and fills the gap.
    method InsertAt(idx: nat, e: Entry)
      requires Valid() && idx <= mLength < mArray.Length && Ascending(InsertedAt(Contents(), idx, e))
      modifies this`mLength, mArray
      ensures Valid() && Contents() == InsertedAt(old(Contents()), idx, e)
    {
      ghost var s := Contents();
      forall k | idx < k <= mLength {
        mArray[k] := mArray[k - 1];
      }
      mArray[idx] := e;
      mLength := mLength + 1;
      assert mArray[..mLength] == InsertedAt(s, idx, e);
    }

    // Overwrites the record a lookup has found.
    method Overwrite(idx: nat, info: Generation)
      requires Valid() && idx < mLength && !Contents()[idx].marked
      modifies mArray
      ensures Valid() && Contents() == old(Contents())[idx := Entry(old(Contents()[idx].id), info, false)]
      ensures ListOf(Contents()) == old(ListOf(Contents()))[old(Contents()[idx].id) := Cached(info, false)]
    {
      ghost var s := Contents();
      OverwrittenIsList(s, idx, Entry(s[idx].id, info, false));
      mArray[idx] := Entry(mArray[idx].id, info, false);
      assert mArray[..mLength] == s[idx := Entry(s[idx].id, info, false)];
    }

    // Removes the record of the identifier, marked or not.
    method DeleteGenerationInfoById(id: nat) returns (deleted: bool)
      requires Valid()
      modifies this`mLength, mArray
      ensures Valid() && ListOf(Contents()) == old(ListOf(Contents())) - {id}
      ensures deleted <==> id in old(ListOf(Contents()))
      ensures Count(Contents(), IsMarked) <= Count(old(Contents()), IsMarked)
    {
      if mLength == 0 {
        return false;
      }
      ghost var s := Contents();
      var idx := GetClosestIndexNoLock(id);
      ClosestFinds(s, id, idx);
      assert s[idx] == mArray[idx];
      if mArray[idx].id != id {
        return false;
      }
      RemovedIsList(s, idx);
      RemovedMarks(s, idx);
      CloseGap(idx);
      return true;
    }

    // Shifts the records behind idx back by one.
    method CloseGap(idx: nat)
      requires idx < mLength <= mArray.Length
      modifies this`mLength, mArray
      ensures mLength == old(mLength) - 1 && mArray[..mLength] == RemovedAt(old(mArray[..mLength]), idx)
    {
      ghost var s := mArray[..mLength];
      for t := idx + 1 to mLength
        invariant mLength == |s| <= mArray.Length
        invariant forall k :: 0 <= k < idx ==> mArray[k] == s[k]
        invariant forall k :: idx <= k < t - 1 ==> mArray[k] == s[k + 1]
        invariant forall k :: t <= k < mLength ==> mArray[k] == s[k]
      {
        mArray[t - 1] := mArray[t];
      }
      mLength := mLength - 1;
      assert mArray[..mLength] == RemovedAt(s, idx);
    }

    // The loop of the bulk deletion and of the compaction.
    method RemoveInPlace(drop: Entry -> bool) returns (cnt: nat)
      requires Valid()
      modifies this`mLength, mArray
      ensures Valid() && Contents() == Filtered(old(Contents()), drop)
      ensures cnt == Count(old(Contents()), drop)
    {
      FilteredAscends(Contents(), drop);
      cnt := RemoveLoop(drop);
    }

    method RemoveLoop(drop: Entry -> bool) returns (cnt: nat)
      requires mLength <= mArray.Length
      modifies this`mLength, mArray
      ensures mLength <= mArray.Length && mArray[..mLength] == Filtered(old(mArray[..mLength]), drop)
      ensures cnt == Count(old(mArray[..mLength]), drop)
    {
      ghost var s := mArray[..mLength];
      var p := 0;
      cnt := 0;
      for t := 0 to mLength
        invariant p <= t && mLength == |s| <= mArray.Length
        invariant mArray[..p] == Filtered(s[..t], drop) && cnt == Count(s[..t], drop)
        invariant forall k :: t <= k < mLength ==> mArray[k] == s[k]
      {
        CountUpTo(s, t, drop);
        FilteredUpTo(s, t, drop);
        if drop(mArray[t]) {
          cnt := cnt + 1;
        } else {
          KeepAt(p, mArray[t]);
          p := p + 1;
        }
      }
      assert s[..|s|] == s;
      mLength := p;
    }

    method KeepAt(p: nat, e: Entry)
      requires p < mArray.Length
      modifies mArray
      ensures mArray[..p + 1] == old(mArray[..p]) + [e]
      ensures forall k :: p < k < mArray.Length ==> mArray[k] == old(mArray[k])
    {
      mArray[p] := e;
    }

    // The loop of the marking deletions, which counts also what was marked before.
    method MarkDeleted(ev: Event) returns (cnt: nat)
      requires Valid()
      modifies mArray
      ensures Valid() && ListOf(Contents()) == Marked(old(ListOf(Contents())), ev)
      ensures cnt == Count(old(Contents()), HitBy(ev))
      ensures Count(Contents(), IsMarked) <= Count(old(Contents()), IsMarked) + cnt
    {
      ghost var s := Contents();
      MarkedByEvent(s, ev);
      MarkedAscends(s, HitBy(ev));
      MarkedAreCounted(s, HitBy(ev));
      cnt := MarkLoop(ev);
    }

    method MarkLoop(ev: Event) returns (cnt: nat)
      requires mLength <= mArray.Length
      modifies mArray
      ensures mArray[..mLength] == MarkedAll(old(mArray[..mLength]), HitBy(ev))
      ensures cnt == Count(old(mArray[..mLength]), HitBy(ev))
    {
      ghost var s, hit := mArray[..mLength], HitBy(ev);
      MarkedAllAt(s, hit);
      cnt := 0;
      for t := 0 to mLength
        invariant mLength <= mArray.Length
        invariant forall k :: 0 <= k < t ==> mArray[k] == MarkIf(s[k], hit)
        invariant forall k :: t <= k < mLength ==> mArray[k] == s[k]
        invariant cnt == Count(s[..t], hit)
      {
        CountUpTo(s, t, hit);
        if ev.Kills(mArray[t].id, mArray[t].info) {
          mArray[t] := mArray[t].(marked := true);
          cnt := cnt + 1;
        }
      }
      assert s[..|s|] == s;
      assert mArray[..mLength] == MarkedAll(s, hit);
    }
  }
}
