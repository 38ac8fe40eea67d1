// What the operations of a content list do to the sequence of its records.
module ContentSequences {
  import opened Wrappers
  import opened ContentOrder

  const NONE: nat := 0
  const FILE_MESSAGE: nat := 1

  ghost predicate SortedBy(m: nat, s: seq<ContentInfo>) {
    forall i, j :: 0 <= i < j < |s| ==> s[i].Compare(m, s[j]) <= 0
  }

  predicate HasKey(c: ContentInfo, fileId: nat, messageIndex: nat) {
    c.fileId == fileId && c.messageIndex == messageIndex
  }

  ghost predicate UniqueKeys(s: seq<ContentInfo>) {
    forall i, j :: 0 <= i < j < |s| ==> !HasKey(s[i], s[j].fileId, s[j].messageIndex)
  }

  // ---- Searching ----

  ghost predicate HasEqual(m: nat, s: seq<ContentInfo>, probe: ContentInfo) {
    exists k :: 0 <= k < |s| && s[k].Compare(m, probe) == 0
  }

  // The leftmost equal record if there is one, otherwise the last smaller one (0 if there is none).
  ghost predicate IsClosestIndex(m: nat, s: seq<ContentInfo>, probe: ContentInfo, idx: int) {
    if |s| == 0 then idx == 0
    else if HasEqual(m, s, probe) then
      0 <= idx < |s| && s[idx].Compare(m, probe) == 0 && forall k :: 0 <= k < idx ==> s[k].Compare(m, probe) < 0
    else if s[0].Compare(m, probe) > 0 then
      idx == 0
    else
      && 0 <= idx < |s|
      && (forall k :: 0 <= k <= idx ==> s[k].Compare(m, probe) < 0)
      && (forall k :: idx < k < |s| ==> s[k].Compare(m, probe) > 0)
  }

  // The leftmost equal record of a list in any order, 0 if there is none.
  ghost predicate IsFirstEqualIndex(m: nat, s: seq<ContentInfo>, probe: ContentInfo, idx: int) {
    if HasEqual(m, s, probe) then
      0 <= idx < |s| && s[idx].Compare(m, probe) == 0 && forall k :: 0 <= k < idx ==> s[k].Compare(m, probe) != 0
    else
      idx == 0
  }

  // The closest index is the number of smaller records if an equal one stands there, and else one
  // less, but not below 0.
  lemma ClosestIndexIs(m: nat, s: seq<ContentInfo>, probe: ContentInfo, idx: int, smaller: nat)
    requires smaller <= |s| && forall k :: 0 <= k < smaller ==> s[k].Compare(m, probe) < 0
    requires forall k :: smaller <= k < |s| ==> s[k].Compare(m, probe) >= 0
    requires smaller < |s| && s[smaller].Compare(m, probe) > 0 ==> !HasEqual(m, s, probe)
    ensures IsClosestIndex(m, s, probe, idx)
       <==> idx == if smaller < |s| && s[smaller].Compare(m, probe) == 0 then smaller
                   else if smaller == 0 then 0 else smaller - 1
  {
    if s != [] && smaller < |s| && s[smaller].Compare(m, probe) == 0 {
      assert HasEqual(m, s, probe);
    } else if 0 < smaller {
      assert s[smaller - 1].Compare(m, probe) < 0 && s[0].Compare(m, probe) < 0;
      assert !HasEqual(m, s, probe);
      assert 0 <= idx < |s| && idx >= smaller ==> s[idx].Compare(m, probe) > 0;
    }
  }

  lemma FirstEqualIndexIs(m: nat, s: seq<ContentInfo>, probe: ContentInfo, idx: int, different: nat)
    requires different <= |s| && forall k :: 0 <= k < different ==> s[k].Compare(m, probe) != 0
    requires different < |s| ==> s[different].Compare(m, probe) == 0
    ensures IsFirstEqualIndex(m, s, probe, idx) <==> idx == if different < |s| then different else 0
  {
    if different < |s| {
      assert HasEqual(m, s, probe);
    }
  }

  function FirstWithKey(s: seq<ContentInfo>, fileId: nat, messageIndex: nat): (i: nat)
    ensures i <= |s|
    ensures forall k :: 0 <= k < i ==> !HasKey(s[k], fileId, messageIndex)
    ensures i < |s| ==> HasKey(s[i], fileId, messageIndex)
  {
    if |s| == 0 || HasKey(s[0], fileId, messageIndex) then 0
    else 1 + FirstWithKey(s[1..], fileId, messageIndex)
  }

  // The answer of a lookup: the first record of the message, unless it is marked deleted.
  function LookupLive(s: seq<ContentInfo>, fileId: nat, messageIndex: nat): Option<ContentInfo> {
    var i := FirstWithKey(s, fileId, messageIndex);
    if i < |s| && !s[i].deleted then Some(s[i]) else None
  }

  ghost function LiveSet(s: seq<ContentInfo>): set<ContentInfo> {
    set i | 0 <= i < |s| && !s[i].deleted :: s[i]
  }

  // With unique keys the lookup finds the live record of the message exactly when there is one.
  lemma LookupFindsTheLiveRecord(s: seq<ContentInfo>, c: ContentInfo)
    requires UniqueKeys(s)
    ensures LookupLive(s, c.fileId, c.messageIndex) == Some(c) <==> c in LiveSet(s)
    ensures LookupLive(s, c.fileId, c.messageIndex) == None <==>
            forall d :: d in LiveSet(s) ==> !HasKey(d, c.fileId, c.messageIndex)
  {
    var i := FirstWithKey(s, c.fileId, c.messageIndex);
    forall d | d in LiveSet(s) && HasKey(d, c.fileId, c.messageIndex)
      ensures i < |s| && d == s[i]
    {
      var k :| 0 <= k < |s| && !s[k].deleted && s[k] == d;
    }
  }

  // Records compare equal in the file_message order exactly when they are the same message.
  lemma FileMessageEquality(x: ContentInfo, y: ContentInfo)
    ensures x.Compare(FILE_MESSAGE, y) == 0 <==> HasKey(x, y.fileId, y.messageIndex)
  {
  }

  // ---- Inserting ----

  // The number of leading records that sort before the probe.
  function LowerBound(m: nat, s: seq<ContentInfo>, probe: ContentInfo): (i: nat)
    ensures i <= |s|
    ensures forall k :: 0 <= k < i ==> s[k].Compare(m, probe) < 0
    ensures i < |s| ==> s[i].Compare(m, probe) >= 0
  {
    if |s| == 0 || s[0].Compare(m, probe) >= 0 then 0 else 1 + LowerBound(m, s[1..], probe)
  }

  // A list without an order appends; a sorted list keeps an equal record instead of the new one.
  function Inserted(m: nat, s: seq<ContentInfo>, c: ContentInfo): seq<ContentInfo> {
    if m == NONE then s + [c] else
    var i := LowerBound(m, s, c);
    if i < |s| && s[i].Compare(m, c) == 0 then s else s[..i] + [c] + s[i..]
  }

  lemma AfterLowerBound(m: nat, s: seq<ContentInfo>, c: ContentInfo)
    requires SortedBy(m, s)
    ensures forall k :: LowerBound(m, s, c) <= k < |s| ==> s[k].Compare(m, c) >= 0
    ensures HasEqual(m, s, c) <==> LowerBound(m, s, c) < |s| && s[LowerBound(m, s, c)].Compare(m, c) == 0
    ensures !HasEqual(m, s, c) ==> forall k :: LowerBound(m, s, c) <= k < |s| ==> s[k].Compare(m, c) > 0
  {
    var i := LowerBound(m, s, c);
    forall k | i <= k < |s| ensures s[k].Compare(m, c) >= 0 && (s[k].Compare(m, c) == 0 ==> s[i].Compare(m, c) == 0) {
      CompareIsTotalOrder(m, s[i], s[k], c);
      CompareIsTotalOrder(m, s[i], c, c);
    }
  }

  lemma InsertedKeepsOrder(m: nat, s: seq<ContentInfo>, c: ContentInfo)
    requires m != NONE && SortedBy(m, s)
    ensures SortedBy(m, Inserted(m, s, c))
  {
    var i := LowerBound(m, s, c);
    if !(i < |s| && s[i].Compare(m, c) == 0) {
      forall k | i <= k < |s| ensures c.Compare(m, s[k]) <= 0 {
        CompareIsTotalOrder(m, c, s[i], s[k]);
      }
      InsertionKeepsOrder(m, s, i, c);
    }
  }

  lemma InsertionKeepsOrder(m: nat, s: seq<ContentInfo>, i: nat, c: ContentInfo)
    requires SortedBy(m, s) && i <= |s|
    requires forall k :: 0 <= k < i ==> s[k].Compare(m, c) < 0
    requires forall k :: i <= k < |s| ==> c.Compare(m, s[k]) <= 0
    ensures SortedBy(m, s[..i] + [c] + s[i..])
  {
  }

  lemma InsertedRecords(m: nat, s: seq<ContentInfo>, c: ContentInfo)
    requires m != NONE && SortedBy(m, s)
    ensures multiset(Inserted(m, s, c)) == if HasEqual(m, s, c) then multiset(s) else multiset(s) + multiset{c}
  {
    AfterLowerBound(m, s, c);
    OneMoreRecord(s, LowerBound(m, s, c), c);
  }

  lemma OneMoreRecord(s: seq<ContentInfo>, i: nat, c: ContentInfo)
    requires i <= |s|
    ensures multiset(s[..i] + [c] + s[i..]) == multiset(s) + multiset{c}
  {
    assert s == s[..i] + s[i..];
  }

  lemma InsertedKeepsUniqueKeys(s: seq<ContentInfo>, c: ContentInfo)
    requires SortedBy(FILE_MESSAGE, s) && UniqueKeys(s)
    ensures UniqueKeys(Inserted(FILE_MESSAGE, s, c))
  {
    AfterLowerBound(FILE_MESSAGE, s, c);
    if !HasEqual(FILE_MESSAGE, s, c) {
      NoEqualNoKey(s, c);
      UniqueWithOneMore(s, LowerBound(FILE_MESSAGE, s, c), c);
    }
  }

  lemma NoEqualNoKey(s: seq<ContentInfo>, c: ContentInfo)
    requires !HasEqual(FILE_MESSAGE, s, c)
    ensures forall k :: 0 <= k < |s| ==> !HasKey(s[k], c.fileId, c.messageIndex)
  {
    forall k | 0 <= k < |s| ensures !HasKey(s[k], c.fileId, c.messageIndex) {
      FileMessageEquality(s[k], c);
    }
  }

  lemma UniqueWithOneMore(s: seq<ContentInfo>, i: nat, c: ContentInfo)
    requires i <= |s| && UniqueKeys(s) && forall k :: 0 <= k < |s| ==> !HasKey(s[k], c.fileId, c.messageIndex)
    ensures UniqueKeys(s[..i] + [c] + s[i..])
  {
    var t := s[..i] + [c] + s[i..];
    forall a, b | 0 <= a < b < |t| ensures !HasKey(t[a], t[b].fileId, t[b].messageIndex) {
      var x := if a < i then a else a - 1;
      var y := if b < i then b else b - 1;
      if a == i {
        assert t[b] == s[y];
      } else if b == i {
        assert t[a] == s[x];
      } else {
        assert t[a] == s[x] && t[b] == s[y];
      }
    }
  }

  // ---- Marking and removing ----

  datatype Selector =
    | Nothing
    | ByFile(fileId: nat)
    | ByMessage(fileId: nat, messageIndex: nat)
    | ByGeneration(generationId: nat)
    | ByProducer(producerId: nat)
    | BySource(sourceId: nat)
    | ByGeometry(generationId: nat, geometryId: int)
  {
    predicate Selects(c: ContentInfo) {
      match this
      case Nothing => false
      case ByFile(f) => c.fileId == f
      case ByMessage(f, i) => HasKey(c, f, i)
      case ByGeneration(g) => c.generationId == g
      case ByProducer(p) => c.producerId == p
      case BySource(s) => c.sourceId == s
      case ByGeometry(g, y) => c.generationId == g && c.geometryId == y
    }
  }

  function Mark(c: ContentInfo, sel: Selector): ContentInfo {
    if sel.Selects(c) then c.(deleted := true) else c
  }

  function Marked(s: seq<ContentInfo>, sel: Selector): seq<ContentInfo> {
    seq(|s|, i requires 0 <= i < |s| => Mark(s[i], sel))
  }

  // The first t records have been marked where they are selected.
  ghost predicate MarkedUpTo(now: seq<ContentInfo>, s: seq<ContentInfo>, sel: Selector, t: nat) {
    && t <= |s| == |now|
    && (forall k :: 0 <= k < t ==> now[k] == Mark(s[k], sel))
    && (forall k :: t <= k < |s| ==> now[k] == s[k])
  }

  lemma MarkedNext(now: seq<ContentInfo>, s: seq<ContentInfo>, sel: Selector, t: nat)
    requires MarkedUpTo(now, s, sel, t) && t < |s|
    ensures now[t] == s[t] && MarkedUpTo(now[t := Mark(s[t], sel)], s, sel, t + 1)
  {
  }

  lemma MarkedIs(now: seq<ContentInfo>, s: seq<ContentInfo>, sel: Selector, t: nat)
    requires MarkedUpTo(now, s, sel, t) && forall k :: t <= k < |s| ==> !sel.Selects(s[k])
    ensures now == Marked(s, sel)
  {
  }

  // Marking one message through the lookup: a message without a live first record stays as it is.
  function MarkedMessage(s: seq<ContentInfo>, fileId: nat, messageIndex: nat): seq<ContentInfo> {
    var i := FirstWithKey(s, fileId, messageIndex);
    if i < |s| && !s[i].deleted then s[i := s[i].(deleted := true)] else s
  }

  function CountSelected(s: seq<ContentInfo>, sel: Selector): nat {
    if |s| == 0 then 0
    else CountSelected(s[..|s| - 1], sel) + if sel.Selects(s[|s| - 1]) then 1 else 0
  }

  lemma CountSelectedNext(s: seq<ContentInfo>, t: nat, sel: Selector)
    requires t < |s|
    ensures CountSelected(s[..t + 1], sel) == CountSelected(s[..t], sel) + if sel.Selects(s[t]) then 1 else 0
  {
    assert s[..t + 1][..t] == s[..t];
  }

  function CountDeleted(s: seq<ContentInfo>): nat {
    if |s| == 0 then 0
    else CountDeleted(s[..|s| - 1]) + if s[|s| - 1].deleted then 1 else 0
  }

  // The records left when the selected and the already marked ones are removed.
  function Kept(s: seq<ContentInfo>, sel: Selector): seq<ContentInfo> {
    if |s| == 0 then []
    else
      var last := s[|s| - 1];
      Kept(s[..|s| - 1], sel) + if last.deleted || sel.Selects(last) then [] else [last]
  }

  lemma MarkedKeepsOrderAndKeys(m: nat, s: seq<ContentInfo>, sel: Selector)
    ensures SortedBy(m, s) ==> SortedBy(m, Marked(s, sel))
    ensures UniqueKeys(s) ==> UniqueKeys(Marked(s, sel))
  {
    forall i, j | 0 <= i < j < |s|
      ensures Marked(s, sel)[i].Compare(m, Marked(s, sel)[j]) == s[i].Compare(m, s[j])
    {
      CompareIgnoresMark(m, s[i], s[j]);
      CompareIgnoresMark(m, Mark(s[i], sel), s[j]);
    }
  }

  // With unique keys, marking one message is marking all records with its key.
  lemma MarkedMessageIsMarked(s: seq<ContentInfo>, fileId: nat, messageIndex: nat)
    requires UniqueKeys(s)
    ensures MarkedMessage(s, fileId, messageIndex) == Marked(s, ByMessage(fileId, messageIndex))
  {
    var i := FirstWithKey(s, fileId, messageIndex);
    forall k | 0 <= k < |s| && k != i ensures !HasKey(s[k], fileId, messageIndex) {
    }
  }

  lemma CompareIgnoresMark(m: nat, x: ContentInfo, y: ContentInfo)
    ensures x.(deleted := true).Compare(m, y) == x.Compare(m, y) == x.Compare(m, y.(deleted := true))
  {
    CompareIsLexicographic(m, x, y);
    CompareIsLexicographic(m, x.(deleted := true), y);
    CompareIsLexicographic(m, x, y.(deleted := true));
  }

  lemma LiveSetOfMarked(s: seq<ContentInfo>, sel: Selector)
    ensures LiveSet(Marked(s, sel)) == set c | c in LiveSet(s) && !sel.Selects(c)
  {
    var t := Marked(s, sel);
    forall c | c in LiveSet(s) && !sel.Selects(c) ensures c in LiveSet(t) {
      var i :| 0 <= i < |s| && !s[i].deleted && s[i] == c;
      assert t[i] == c;
    }
  }

  // Marking counts every selected record, also the already marked ones, so the count never
  // falls short of the number of records it newly marks.
  lemma {:induction false} MarkedCount(s: seq<ContentInfo>, sel: Selector)
    ensures CountDeleted(Marked(s, sel)) <= CountDeleted(s) + CountSelected(s, sel)
  {
    if |s| > 0 {
      MarkedCount(s[..|s| - 1], sel);
      assert Marked(s, sel)[..|s| - 1] == Marked(s[..|s| - 1], sel);
    }
  }

  lemma LiveSetNext(s: seq<ContentInfo>)
    requires |s| > 0
    ensures LiveSet(s) == LiveSet(s[..|s| - 1]) + if s[|s| - 1].deleted then {} else {s[|s| - 1]}
  {
    assert forall i :: 0 <= i < |s| - 1 ==> s[i] == s[..|s| - 1][i];
  }

  lemma {:induction false} KeptAreTheLiveUnselected(s: seq<ContentInfo>, sel: Selector)
    ensures forall c :: c in Kept(s, sel) <==> c in LiveSet(s) && !sel.Selects(c)
  {
    if |s| > 0 {
      KeptAreTheLiveUnselected(s[..|s| - 1], sel);
      LiveSetNext(s);
    }
  }

  lemma {:induction false} KeptHasNoTombstone(s: seq<ContentInfo>, sel: Selector)
    ensures CountDeleted(Kept(s, sel)) == 0
  {
    if |s| > 0 {
      var front := s[..|s| - 1];
      KeptHasNoTombstone(front, sel);
      if Kept(s, sel) != Kept(front, sel) {
        assert Kept(s, sel)[..|Kept(s, sel)| - 1] == Kept(front, sel);
      }
    }
  }

  lemma {:induction false} KeptKeepsOrder(m: nat, s: seq<ContentInfo>, sel: Selector)
    requires SortedBy(m, s)
    ensures SortedBy(m, Kept(s, sel))
  {
    if |s| > 0 {
      var front, last := s[..|s| - 1], s[|s| - 1];
      KeptKeepsOrder(m, front, sel);
      KeptAreTheLiveUnselected(front, sel);
      forall c | c in Kept(front, sel) ensures c.Compare(m, last) <= 0 {
        var i :| 0 <= i < |front| && front[i] == c;
        assert s[i] == c;
      }
    }
  }

  lemma {:induction false} KeptKeepsKeys(s: seq<ContentInfo>, sel: Selector)
    requires UniqueKeys(s)
    ensures UniqueKeys(Kept(s, sel))
  {
    if |s| > 0 {
      var front, last := s[..|s| - 1], s[|s| - 1];
      KeptKeepsKeys(front, sel);
      KeptAreTheLiveUnselected(front, sel);
      forall c | c in Kept(front, sel) ensures !HasKey(c, last.fileId, last.messageIndex) {
        var i :| 0 <= i < |front| && front[i] == c;
        assert s[i] == c;
      }
    }
  }

  lemma KeptKeepsOrderAndKeys(m: nat, s: seq<ContentInfo>, sel: Selector)
    ensures SortedBy(m, s) ==> SortedBy(m, Kept(s, sel))
    ensures UniqueKeys(s) ==> UniqueKeys(Kept(s, sel))
  {
    if SortedBy(m, s) {
      KeptKeepsOrder(m, s, sel);
    }
    if UniqueKeys(s) {
      KeptKeepsKeys(s, sel);
    }
  }

  lemma {:induction false} CountDeletedOfUpdate(s: seq<ContentInfo>, i: nat, c: ContentInfo)
    requires i < |s|
    ensures CountDeleted(s[i := c]) + (if s[i].deleted then 1 else 0) == CountDeleted(s) + if c.deleted then 1 else 0
  {
    var n := |s| - 1;
    if i == n {
      assert s[i := c][..n] == s[..n];
    } else {
      CountDeletedOfUpdate(s[..n], i, c);
      assert s[i := c][..n] == s[..n][i := c];
    }
  }

  lemma {:induction false} CountDeletedOfInsertion(s: seq<ContentInfo>, i: nat, c: ContentInfo)
    requires i <= |s|
    ensures CountDeleted(s[..i] + [c] + s[i..]) == CountDeleted(s) + if c.deleted then 1 else 0
  {
    var t := s[..i] + [c] + s[i..];
    if i == |s| {
      assert t[..|s|] == s;
    } else {
      var n := |s| - 1;
      CountDeletedOfInsertion(s[..n], i, c);
      assert t[..|s|] == s[..n][..i] + [c] + s[..n][i..];
    }
  }

  lemma {:induction false} CountDeletedZero(s: seq<ContentInfo>)
    ensures CountDeleted(s) == 0 <==> forall i :: 0 <= i < |s| ==> !s[i].deleted
  {
    if |s| > 0 {
      CountDeletedZero(s[..|s| - 1]);
    }
  }

  // ---- Pages ----

  predicate AtOrAfter(c: ContentInfo, fileId: nat, messageIndex: nat) {
    c.fileId > fileId || (c.fileId == fileId && c.messageIndex >= messageIndex)
  }

  // The live records at or after a start key, in list order.
  function LiveFrom(s: seq<ContentInfo>, fileId: nat, messageIndex: nat): seq<ContentInfo> {
    if |s| == 0 then []
    else
      var last := s[|s| - 1];
      LiveFrom(s[..|s| - 1], fileId, messageIndex) +
      if !last.deleted && AtOrAfter(last, fileId, messageIndex) then [last] else []
  }

  ghost predicate Ascending(s: seq<ContentInfo>) {
    forall i, j :: 0 <= i < j < |s| ==> AtOrAfter(s[j], s[i].fileId, s[i].messageIndex + 1)
  }

  lemma SortedUniqueIsAscending(s: seq<ContentInfo>)
    ensures SortedBy(FILE_MESSAGE, s) && UniqueKeys(s) ==> Ascending(s)
  {
    if SortedBy(FILE_MESSAGE, s) && UniqueKeys(s) {
      forall i, j | 0 <= i < j < |s| ensures AtOrAfter(s[j], s[i].fileId, s[i].messageIndex + 1) {
        assert s[i].Compare(FILE_MESSAGE, s[j]) <= 0;
      }
    }
  }

  // The length is compared after a record is added, so a limit of zero lets one through.
  function UntilFull(records: seq<ContentInfo>, maxRecords: nat): seq<ContentInfo> {
    var limit := if maxRecords == 0 then 1 else maxRecords;
    if |records| <= limit then records else records[..limit]
  }

  lemma FullPage(page: seq<ContentInfo>, all: seq<ContentInfo>, maxRecords: nat)
    requires page <= all && |page| == if maxRecords == 0 then 1 else maxRecords
    ensures UntilFull(all, maxRecords) == page
  {
  }

  // A page holds as many of them as asked for, but at least one if there is any.
  function Page(s: seq<ContentInfo>, fileId: nat, messageIndex: nat, maxRecords: nat): seq<ContentInfo> {
    UntilFull(LiveFrom(s, fileId, messageIndex), maxRecords)
  }

  // Of a list in another order: the live records from an index on.
  function PageByIndex(s: seq<ContentInfo>, startIndex: nat, maxRecords: nat): seq<ContentInfo> {
    UntilFull(if startIndex < |s| then Kept(s[startIndex..], Nothing) else [], maxRecords)
  }

  lemma {:induction false} KeptPrefix(s: seq<ContentInfo>, t: nat, sel: Selector)
    requires t <= |s|
    ensures Kept(s[..t], sel) <= Kept(s, sel)
  {
    if t == |s| {
      assert s[..t] == s;
    } else {
      KeptPrefix(s[..|s| - 1], t, sel);
      assert s[..|s| - 1][..t] == s[..t];
    }
  }

  lemma KeptNext(s: seq<ContentInfo>, t: nat, sel: Selector)
    requires t < |s|
    ensures Kept(s[..t + 1], sel) ==
            Kept(s[..t], sel) + if s[t].deleted || sel.Selects(s[t]) then [] else [s[t]]
    ensures Kept(s[..t + 1], sel) <= Kept(s, sel)
  {
    assert s[..t + 1][..t] == s[..t];
    KeptPrefix(s, t + 1, sel);
  }

  lemma {:induction false} LiveFromPrefix(s: seq<ContentInfo>, t: nat, fileId: nat, messageIndex: nat)
    requires t <= |s|
    ensures LiveFrom(s[..t], fileId, messageIndex) <= LiveFrom(s, fileId, messageIndex)
  {
    if t == |s| {
      assert s[..t] == s;
    } else {
      LiveFromPrefix(s[..|s| - 1], t, fileId, messageIndex);
      assert s[..|s| - 1][..t] == s[..t];
    }
  }

  lemma LiveFromNext(s: seq<ContentInfo>, t: nat, fileId: nat, messageIndex: nat)
    requires t < |s|
    ensures LiveFrom(s[..t + 1], fileId, messageIndex) ==
            LiveFrom(s[..t], fileId, messageIndex) +
            if !s[t].deleted && AtOrAfter(s[t], fileId, messageIndex) then [s[t]] else []
    ensures LiveFrom(s[..t + 1], fileId, messageIndex) <= LiveFrom(s, fileId, messageIndex)
  {
    assert s[..t + 1][..t] == s[..t];
    LiveFromPrefix(s, t + 1, fileId, messageIndex);
  }

  lemma {:induction false} LiveFromNothing(s: seq<ContentInfo>, fileId: nat, messageIndex: nat)
    requires forall k :: 0 <= k < |s| ==> !AtOrAfter(s[k], fileId, messageIndex)
    ensures LiveFrom(s, fileId, messageIndex) == []
  {
    if |s| > 0 {
      LiveFromNothing(s[..|s| - 1], fileId, messageIndex);
    }
  }

  lemma LastComesAfter(s: seq<ContentInfo>, c: ContentInfo)
    requires Ascending(s) && |s| > 0 && c in s[..|s| - 1]
    ensures AtOrAfter(s[|s| - 1], c.fileId, c.messageIndex + 1)
  {
    var k :| 0 <= k < |s| - 1 && s[..|s| - 1][k] == c;
    assert s[k] == c;
  }

  lemma LastIsLast(s: seq<ContentInfo>, k: nat)
    requires Ascending(s) && k < |s|
    ensures !AtOrAfter(s[k], s[|s| - 1].fileId, s[|s| - 1].messageIndex + 1)
  {
    assert k < |s| - 1 ==> AtOrAfter(s[|s| - 1], s[k].fileId, s[k].messageIndex + 1);
  }

  lemma NothingAfterLast(s: seq<ContentInfo>)
    requires Ascending(s) && |s| > 0
    ensures LiveFrom(s, s[|s| - 1].fileId, s[|s| - 1].messageIndex + 1) == []
  {
    var last := s[|s| - 1];
    forall k | 0 <= k < |s| ensures !AtOrAfter(s[k], last.fileId, last.messageIndex + 1) {
      LastIsLast(s, k);
    }
    LiveFromNothing(s, last.fileId, last.messageIndex + 1);
  }

  lemma TailOfSum<T>(a: seq<T>, b: seq<T>, n: nat)
    requires n <= |a|
    ensures (a + b)[n..] == a[n..] + b
  {
  }

  // What is left after the t-th record of a page is what starts right after that record.
  lemma {:induction false} LiveFromAfter(s: seq<ContentInfo>, fileId: nat, messageIndex: nat, t: nat)
    requires Ascending(s) && t < |LiveFrom(s, fileId, messageIndex)|
    ensures var all := LiveFrom(s, fileId, messageIndex);
            LiveFrom(s, all[t].fileId, all[t].messageIndex + 1) == all[t + 1..]
    ensures LiveFrom(s, fileId, messageIndex)[t] in s
  {
    var front := s[..|s| - 1];
    var before := LiveFrom(front, fileId, messageIndex);
    if t < |before| {
      var c := before[t];
      LiveFromAfter(front, fileId, messageIndex, t);
      LiveFromAreAfter(front, fileId, messageIndex, t);
      LastComesAfter(s, c);
      TailOfSum(before, LiveFrom(s, fileId, messageIndex)[|before|..], t + 1);
      assert c in s;
    } else {
      NothingAfterLast(s);
    }
  }

  lemma {:induction false} LiveFromAreAfter(s: seq<ContentInfo>, fileId: nat, messageIndex: nat, t: nat)
    requires t < |LiveFrom(s, fileId, messageIndex)|
    ensures AtOrAfter(LiveFrom(s, fileId, messageIndex)[t], fileId, messageIndex)
    ensures !LiveFrom(s, fileId, messageIndex)[t].deleted
  {
    if t < |LiveFrom(s[..|s| - 1], fileId, messageIndex)| {
      LiveFromAreAfter(s[..|s| - 1], fileId, messageIndex, t);
    }
  }

  // From the smallest key on, the live records are all live records.
  lemma {:induction false} LiveFromStart(s: seq<ContentInfo>)
    ensures LiveFrom(s, 0, 0) == Kept(s, Nothing)
  {
    if |s| > 0 {
      LiveFromStart(s[..|s| - 1]);
    }
  }

  lemma InsertedAtEnd(s: seq<ContentInfo>, c: ContentInfo)
    requires forall k :: 0 <= k < |s| ==> s[k].Compare(FILE_MESSAGE, c) < 0
    ensures Inserted(FILE_MESSAGE, s, c) == s + [c]
  {
    assert LowerBound(FILE_MESSAGE, s, c) == |s|;
  }

  // ---- The operations in fields ----

  // Marking keeps every slot and sets the flag of the records with the given field.
  lemma MarkedInFields(s: seq<ContentInfo>, k: nat, id: nat, other: nat)
    requires k < |s|
    ensures forall sel :: |Marked(s, sel)| == |s|
    ensures var c := s[k];
            && Marked(s, ByFile(id))[k] == c.(deleted := c.deleted || c.fileId == id)
            && Marked(s, ByMessage(id, other))[k]
               == c.(deleted := c.deleted || (c.fileId == id && c.messageIndex == other))
            && Marked(s, ByGeneration(id))[k] == c.(deleted := c.deleted || c.generationId == id)
            && Marked(s, ByProducer(id))[k] == c.(deleted := c.deleted || c.producerId == id)
            && Marked(s, BySource(id))[k] == c.(deleted := c.deleted || c.sourceId == id)
            && Marked(s, ByGeometry(id, other))[k]
               == c.(deleted := c.deleted || (c.generationId == id && c.geometryId == other))
            && Marked(s, Nothing)[k] == c
  {
  }

  predicate IsDeleted(c: ContentInfo) {
    c.deleted
  }

  // The slots below t whose records satisfy p.
  ghost function Slots(s: seq<ContentInfo>, p: ContentInfo -> bool, t: nat): set<nat>
    requires t <= |s|
  {
    set k: nat | k < t && p(s[k])
  }

  lemma NextSlot(s: seq<ContentInfo>, p: ContentInfo -> bool, t: nat)
    requires t < |s|
    ensures |Slots(s, p, t + 1)| == |Slots(s, p, t)| + if p(s[t]) then 1 else 0
  {
    if p(s[t]) {
      assert Slots(s, p, t + 1) == Slots(s, p, t) + {t};
    } else {
      assert Slots(s, p, t + 1) == Slots(s, p, t);
    }
  }

  lemma {:induction false} SelectedUpTo(s: seq<ContentInfo>, sel: Selector, t: nat)
    requires t <= |s|
    ensures CountSelected(s[..t], sel) == |Slots(s, c => sel.Selects(c), t)|
  {
    if t > 0 {
      SelectedUpTo(s, sel, t - 1);
      NextSlot(s, c => sel.Selects(c), t - 1);
      CountSelectedNext(s, t - 1, sel);
    }
  }

  lemma {:induction false} DeletedUpTo(s: seq<ContentInfo>, t: nat)
    requires t <= |s|
    ensures CountDeleted(s[..t]) == |Slots(s, IsDeleted, t)|
  {
    if t > 0 {
      DeletedUpTo(s, t - 1);
      NextSlot(s, IsDeleted, t - 1);
      assert s[..t][..t - 1] == s[..t - 1];
    }
  }

  // The count of a marking is the number of selected slots.
  lemma SelectedAreCounted(s: seq<ContentInfo>, sel: Selector)
    ensures CountSelected(s, sel) == |set k: nat | k < |s| && sel.Selects(s[k])|
    ensures CountDeleted(s) == |set k: nat | k < |s| && s[k].deleted|
  {
    SelectedUpTo(s, sel, |s|);
    DeletedUpTo(s, |s|);
    assert s[..|s|] == s;
    assert (set k: nat | k < |s| && sel.Selects(s[k])) == Slots(s, c => sel.Selects(c), |s|);
    assert (set k: nat | k < |s| && s[k].deleted) == Slots(s, IsDeleted, |s|);
  }

  // A list without an order appends, also a record it already has.
  lemma WithoutOrderAppends(s: seq<ContentInfo>, c: ContentInfo)
    ensures Inserted(NONE, s, c) == s + [c]
  {
  }

  // The live records at or after a key, in fields.
  lemma {:induction false} LiveFromHolds(s: seq<ContentInfo>, fileId: nat, messageIndex: nat)
    ensures forall c :: c in LiveFrom(s, fileId, messageIndex) <==>
              && c in s && !c.deleted
              && (c.fileId > fileId || (c.fileId == fileId && c.messageIndex >= messageIndex))
  {
    if |s| > 0 {
      LiveFromHolds(s[..|s| - 1], fileId, messageIndex);
      assert s == s[..|s| - 1] + [s[|s| - 1]];
    }
  }

  // A page is as long as asked for, or as long as there are records, but never empty without need.
  lemma PageLength(s: seq<ContentInfo>, fileId: nat, messageIndex: nat, maxRecords: nat)
    ensures var all, page := LiveFrom(s, fileId, messageIndex), Page(s, fileId, messageIndex, maxRecords);
            page <= all && |page| == (if |all| == 0 then 0
                                      else if maxRecords == 0 then 1
                                      else if |all| < maxRecords then |all| else maxRecords)
  {
  }

  lemma PageByIndexLength(s: seq<ContentInfo>, startIndex: nat, maxRecords: nat)
    requires startIndex <= |s|
    ensures var all, page := Kept(s[startIndex..], Nothing), PageByIndex(s, startIndex, maxRecords);
            page <= all && |page| == (if |all| == 0 then 0
                                      else if maxRecords == 0 then 1
                                      else if |all| < maxRecords then |all| else maxRecords)
    ensures forall c :: c in Kept(s[startIndex..], Nothing) <==> c in s[startIndex..] && !c.deleted
  {
    KeptAreTheLiveUnselected(s[startIndex..], Nothing);
  }
}
