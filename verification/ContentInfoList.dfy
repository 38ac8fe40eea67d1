// The content list: an array of records, sorted by one of the comparison methods.
module ContentInfoLists {
  import opened Wrappers
  import opened ContentOrder
  import opened ContentSequences

  class ContentInfoList {
    var mArray: array<ContentInfo>  // an array of length zero stands for the missing array
    var mLength: nat
    var mComparisonMethod: nat

    ghost predicate Valid()
      reads this, mArray
    {
      && mLength <= mArray.Length
      && (mComparisonMethod != NONE ==> SortedBy(mComparisonMethod, mArray[..mLength]))
    }

    ghost function Contents(): seq<ContentInfo>
      reads this, mArray
      requires Valid()
    {
      mArray[..mLength]
    }

    constructor (comparisonMethod: nat)
      ensures Valid() && fresh(mArray)
      ensures Contents() == [] && mComparisonMethod == comparisonMethod
    {
      mArray := new ContentInfo[0];
      mLength := 0;
      mComparisonMethod := comparisonMethod;
    }

    // ---- Searching ----

    // Binary search when the list is sorted by the method, linear search otherwise.
    method GetClosestIndexNoLock(comparisonMethod: nat, probe: ContentInfo) returns (idx: int)
      requires Valid()
      ensures mLength == 0 ==> idx == 0
      ensures mLength > 0 ==> 0 <= idx < mLength
      ensures comparisonMethod == mComparisonMethod != NONE ==>
                IsClosestIndex(comparisonMethod, Contents(), probe, idx)
      ensures comparisonMethod != mComparisonMethod ==>
                IsFirstEqualIndex(comparisonMethod, Contents(), probe, idx)
    {
      if mLength == 0 {
        return 0;
      }
      if comparisonMethod != mComparisonMethod {
        idx := GetFirstEqualIndexNoLock(comparisonMethod, probe);
        return;
      }
      ghost var s := Contents();
      ghost var sorted := mComparisonMethod != NONE;
      var low, high, mid := 0, mLength - 1, 0;
      while low <= high
        invariant 0 <= low <= high + 1 <= mLength
        invariant 0 <= mid < mLength
        invariant sorted ==> forall k :: 0 <= k < low ==> s[k].Compare(comparisonMethod, probe) < 0
        invariant sorted ==> forall k :: high < k < mLength ==> s[k].Compare(comparisonMethod, probe) > 0
      {
        mid := (low + high) / 2;
        var res := mArray[mid].Compare(comparisonMethod, probe);
        assert s[mid] == mArray[mid];
        if sorted {
          NeighboursOf(comparisonMethod, s, probe, mid);
        }
        if res == 0 {
          idx := LeftmostEqual(comparisonMethod, probe, mid);
          if sorted {
            LeftmostIsClosest(comparisonMethod, s, probe, idx);
          }
          return;
        }
        if res < 0 {
          low := mid + 1;
        } else {
          high := mid - 1;
        }
      }
      idx := GetClosestIndexAfterSearchNoLock(comparisonMethod, probe, mid);
    }

    // Walks left over equal records.
    method LeftmostEqual(comparisonMethod: nat, probe: ContentInfo, hit: nat) returns (mid: nat)
      requires Valid() && hit < mLength && Contents()[hit].Compare(comparisonMethod, probe) == 0
      ensures mid <= hit && Contents()[mid].Compare(comparisonMethod, probe) == 0
      ensures mid > 0 ==> Contents()[mid - 1].Compare(comparisonMethod, probe) != 0
    {
      mid := hit;
      while mid > 0 && mArray[mid - 1].Compare(comparisonMethod, probe) == 0
        invariant mid <= hit && mArray[mid].Compare(comparisonMethod, probe) == 0
      {
        mid := mid - 1;
      }
    }

    method GetFirstEqualIndexNoLock(comparisonMethod: nat, probe: ContentInfo) returns (idx: int)
      requires Valid() && mLength > 0
      ensures 0 <= idx < mLength
      ensures IsFirstEqualIndex(comparisonMethod, Contents(), probe, idx)
    {
      ghost var s := Contents();
      var t := 0;
      while t < mLength
        invariant 0 <= t <= mLength
        invariant forall k :: 0 <= k < t ==> s[k].Compare(comparisonMethod, probe) != 0
      {
        if mArray[t].Compare(comparisonMethod, probe) == 0 {
          assert s[t].Compare(comparisonMethod, probe) == 0;
          return t;
        }
        t := t + 1;
      }
      return 0;
    }

    // Walks from the last midpoint of an unsuccessful search to the predecessor of the probe.
    method GetClosestIndexAfterSearchNoLock(comparisonMethod: nat, probe: ContentInfo, start: int) returns (idx: int)
      requires Valid() && 0 <= start < mLength
      ensures 0 <= idx < mLength
      ensures mComparisonMethod == comparisonMethod != NONE && !HasEqual(comparisonMethod, Contents(), probe) ==>
                IsClosestIndex(comparisonMethod, Contents(), probe, idx)
    {
      if mArray[start].Compare(comparisonMethod, probe) < 0 {
        idx := LastSmaller(comparisonMethod, probe, start);
      } else {
        idx := FirstNotGreater(comparisonMethod, probe, start);
      }
      if mComparisonMethod == comparisonMethod != NONE && !HasEqual(comparisonMethod, Contents(), probe) {
        WalkEndIsClosest(comparisonMethod, Contents(), probe, idx);
      }
    }

    method LastSmaller(comparisonMethod: nat, probe: ContentInfo, start: int) returns (idx: int)
      requires 0 <= start < mLength <= mArray.Length
      requires mArray[start].Compare(comparisonMethod, probe) < 0
      ensures IsWalkEnd(comparisonMethod, mArray[..mLength], probe, idx)
    {
      var mid := start;
      while mid < mLength && mArray[mid].Compare(comparisonMethod, probe) < 0
        invariant start <= mid <= mLength
        invariant mid == start || mArray[mid - 1].Compare(comparisonMethod, probe) < 0
      {
        mid := mid + 1;
      }
      return mid - 1;
    }

    method FirstNotGreater(comparisonMethod: nat, probe: ContentInfo, start: int) returns (idx: int)
      requires 0 <= start < mLength <= mArray.Length
      requires mArray[start].Compare(comparisonMethod, probe) >= 0
      ensures IsWalkEnd(comparisonMethod, mArray[..mLength], probe, idx)
    {
      idx := start;
      while idx > 0 && mArray[idx].Compare(comparisonMethod, probe) > 0
        invariant 0 <= idx <= start
        invariant idx == start || mArray[idx + 1].Compare(comparisonMethod, probe) > 0
      {
        idx := idx - 1;
      }
    }

    // The live record of a message, with the index the search stopped at.
    method GetContentInfoByFileIdAndMessageIndexNoLock(fileId: nat, messageIndex: nat)
      returns (info: Option<ContentInfo>, idx: int)
      requires Valid()
      ensures info == LookupLive(Contents(), fileId, messageIndex)
      ensures info.Some? ==> idx == FirstWithKey(Contents(), fileId, messageIndex)
    {
      if mLength == 0 {
        return None, 0;
      }
      var probe := SearchProbe(fileId, messageIndex);
      idx := GetClosestIndexNoLock(FILE_MESSAGE, probe);
      ghost var s := Contents();
      ClosestIsFirstWithKey(s, probe, idx, mComparisonMethod == FILE_MESSAGE);
      var found := mArray[idx];
      assert found == s[idx];
      if !found.deleted && found.fileId == fileId && found.messageIndex == messageIndex {
        info := Some(found);
      } else {
        info := None;
      }
    }

    // A page of the live records from a start key on. A list in another order takes the file id
    // as the index to start at.
    method GetContentInfoList(startFileId: nat, startMessageIndex: nat, maxRecords: nat)
      returns (page: seq<ContentInfo>)
      requires Valid()
      ensures mComparisonMethod == FILE_MESSAGE ==>
                page == Page(Contents(), startFileId, startMessageIndex, maxRecords)
      ensures mComparisonMethod != FILE_MESSAGE ==> page == PageByIndex(Contents(), startFileId, maxRecords)
    {
      if mLength == 0 {
        return [];
      }
      if mComparisonMethod != FILE_MESSAGE {
        page := CollectPageByIndex(startFileId, maxRecords);
        return;
      }
      var probe := SearchProbe(startFileId, startMessageIndex);
      var startIdx := GetClosestIndexNoLock(FILE_MESSAGE, probe);
      NothingBeforeClosest(Contents(), probe, startIdx);
      assert Contents()[..startIdx] == mArray[..startIdx];
      page := CollectPage(startIdx, startFileId, startMessageIndex, maxRecords);
    }

    method CollectPageByIndex(startIndex: nat, maxRecords: nat) returns (page: seq<ContentInfo>)
      requires mLength <= mArray.Length
      ensures page == PageByIndex(mArray[..mLength], startIndex, maxRecords)
    {
      page := [];
      if startIndex >= mLength {
        return;
      }
      ghost var s := mArray[..mLength][startIndex..];
      var t := startIndex;
      while t < mLength
        invariant startIndex <= t <= mLength
        invariant page == Kept(s[..t - startIndex], Nothing)
        invariant |page| == 0 || |page| < maxRecords
      {
        var info := mArray[t];
        assert info == s[t - startIndex];
        KeptNext(s, t - startIndex, Nothing);
        if !info.deleted {
          page := page + [info];
          if |page| >= maxRecords {
            FullPage(page, Kept(s, Nothing), maxRecords);
            return;
          }
        }
        t := t + 1;
      }
      assert s[..|s|] == s;
    }

    method CollectPage(startIdx: int, startFileId: nat, startMessageIndex: nat, maxRecords: nat)
      returns (page: seq<ContentInfo>)
      requires 0 <= startIdx <= mLength <= mArray.Length
      requires LiveFrom(mArray[..startIdx], startFileId, startMessageIndex) == []
      ensures page == Page(mArray[..mLength], startFileId, startMessageIndex, maxRecords)
    {
      ghost var s := mArray[..mLength];
      page := [];
      var t := startIdx;
      assert s[..t] == mArray[..t];
      while t < mLength
        invariant startIdx <= t <= mLength
        invariant page == LiveFrom(s[..t], startFileId, startMessageIndex)
        invariant |page| == 0 || |page| < maxRecords
      {
        var info := mArray[t];
        assert info == s[t];
        LiveFromNext(s, t, startFileId, startMessageIndex);
        if !info.deleted && AtOrAfter(info, startFileId, startMessageIndex) {
          page := page + [info];
          if |page| >= maxRecords {
            FullPage(page, LiveFrom(s, startFileId, startMessageIndex), maxRecords);
            return;
          }
        }
        t := t + 1;
      }
      assert s[..|s|] == s;
    }

    // ---- Changing ----

    // A new array with the slots that fit. The callers only enlarge, so that no record is lost.
    method SetSize(newSize: nat)
      requires Valid()
      modifies this`mArray
      ensures fresh(mArray) && mArray.Length == newSize
      ensures forall t :: 0 <= t < newSize && t < old(mArray.Length) ==> mArray[t] == old(mArray[t])
      ensures Valid() <==> mLength <= newSize
      ensures mLength <= newSize ==> mArray[..mLength] == old(mArray[..mLength])
    {
      var newArray := new ContentInfo[newSize];
      var t := 0;
      while t < newSize && t < mArray.Length
        invariant 0 <= t <= newSize && t <= mArray.Length
        invariant forall k :: 0 <= k < t ==> newArray[k] == mArray[k]
        modifies newArray
      {
        newArray[t] := mArray[t];
        t := t + 1;
      }
      if mLength <= newSize {
        assert newArray[..mLength] == mArray[..mLength];
      }
      mArray := newArray;
    }

    // Adds the record at its place. A sorted list that already has an equal record keeps that
    // one; `idx` is the slot of the record the caller gets back.
    method AddContentInfo(contentInfo: ContentInfo) returns (idx: int, added: bool)
      requires Valid()
      modifies this`mArray, this`mLength, mArray
      ensures Valid() && (mArray == old(mArray) || fresh(mArray))
      ensures Contents() == Inserted(mComparisonMethod, old(Contents()), contentInfo)
      ensures 0 <= idx < mLength
      ensures added <==> mComparisonMethod == NONE || !HasEqual(mComparisonMethod, old(Contents()), contentInfo)
      ensures added ==> Contents()[idx] == contentInfo
      ensures !added ==> Contents()[idx].Compare(mComparisonMethod, contentInfo) == 0
      ensures !added ==> idx == LowerBound(mComparisonMethod, old(Contents()), contentInfo)
    {
      ghost var s := Contents();
      if mLength == mArray.Length {
        SetSize(mArray.Length + mArray.Length / 4 + 100);
      }
      assert Contents() == s;
      if mComparisonMethod == NONE {
        idx, added := mLength, true;
        Append(contentInfo);
      } else {
        idx, added := AddInOrder(contentInfo);
      }
    }

    method Append(contentInfo: ContentInfo)
      requires Valid() && mLength < mArray.Length && mComparisonMethod == NONE
      modifies this`mLength, mArray
      ensures Valid() && Contents() == old(Contents()) + [contentInfo]
    {
      ghost var s := Contents();
      mArray[mLength] := contentInfo;
      mLength := mLength + 1;
      assert mArray[..mLength] == s + [contentInfo];
    }

    method AddInOrder(contentInfo: ContentInfo) returns (idx: int, added: bool)
      requires Valid() && mLength < mArray.Length && mComparisonMethod != NONE
      modifies this`mLength, mArray
      ensures Valid() && Contents() == Inserted(mComparisonMethod, old(Contents()), contentInfo)
      ensures 0 <= idx < mLength && idx == LowerBound(mComparisonMethod, old(Contents()), contentInfo)
      ensures added <==> !HasEqual(mComparisonMethod, old(Contents()), contentInfo)
      ensures added ==> Contents()[idx] == contentInfo
      ensures !added ==> Contents()[idx].Compare(mComparisonMethod, contentInfo) == 0
    {
      var equal;
      idx, equal := InsertionIndex(contentInfo);
      if equal {
        return idx, false;
      }
      InsertedKeepsOrder(mComparisonMethod, Contents(), contentInfo);
      InsertAt(idx, contentInfo);
      added := true;
    }

    // The slot of an equal record, or the slot the new record belongs to.
    method InsertionIndex(contentInfo: ContentInfo) returns (idx: int, equal: bool)
      requires Valid() && mComparisonMethod != NONE
      ensures idx == LowerBound(mComparisonMethod, Contents(), contentInfo)
      ensures equal <==> HasEqual(mComparisonMethod, Contents(), contentInfo)
      ensures equal <==> idx < mLength && Contents()[idx].Compare(mComparisonMethod, contentInfo) == 0
    {
      ghost var s := Contents();
      idx := GetClosestIndexNoLock(mComparisonMethod, contentInfo);
      LowerBoundFromClosest(mComparisonMethod, s, contentInfo, idx);
      AfterLowerBound(mComparisonMethod, s, contentInfo);
      equal := idx < mLength && mArray[idx].Compare(mComparisonMethod, contentInfo) == 0;
      if equal {
        return;
      }
      while idx < mLength && mArray[idx].Compare(mComparisonMethod, contentInfo) < 0
        invariant 0 <= idx <= LowerBound(mComparisonMethod, s, contentInfo)
      {
        assert s[idx] == mArray[idx];
        idx := idx + 1;
      }
      assert idx < mLength ==> s[idx] == mArray[idx];
    }

    // Shifts the records from idx on by one slot and puts the new record into the gap.
    method InsertAt(idx: int, contentInfo: ContentInfo)
      requires Valid() && 0 <= idx <= mLength < mArray.Length
      requires mComparisonMethod != NONE ==>
                 SortedBy(mComparisonMethod, Contents()[..idx] + [contentInfo] + Contents()[idx..])
      modifies this`mLength, mArray
      ensures Valid() && Contents() == old(Contents()[..idx] + [contentInfo] + Contents()[idx..])
    {
      ghost var s := Contents();
      forall k | idx < k <= mLength {
        mArray[k] := mArray[k - 1];
      }
      mArray[idx] := contentInfo;
      mLength := mLength + 1;
      InsertedIs(mArray[..mLength], s, idx, contentInfo);
    }

    // Marks the records of a file. In file_message order it starts from the closest index and
    // stops at the first larger file id.
    method MarkDeletedByFileId(fileId: nat) returns (count: nat)
      requires Valid()
      modifies mArray
      ensures Valid() && Contents() == Marked(old(Contents()), ByFile(fileId))
      ensures count == CountSelected(old(Contents()), ByFile(fileId))
    {
      if mComparisonMethod != FILE_MESSAGE {
        count := MarkDeleted(ByFile(fileId));
        return;
      }
      ghost var s := Contents();
      if mLength == 0 {
        return 0;
      }
      var probe := SearchProbe(fileId, 0);
      var t := GetClosestIndexNoLock(FILE_MESSAGE, probe);
      NoFileRecordBeforeClosest(s, fileId, probe, t);
      SortedFileIdsAscend(s);
      count := MarkFileFrom(fileId, t);
      MarkedKeepsOrderAndKeys(FILE_MESSAGE, s, ByFile(fileId));
    }

    method MarkFileFrom(fileId: nat, start: int) returns (count: nat)
      requires 0 <= start <= mLength <= mArray.Length
      requires FileIdsAscend(mArray[..mLength])
      requires forall k :: 0 <= k < start ==> mArray[..mLength][k].fileId < fileId
      modifies mArray
      ensures mArray[..mLength] == Marked(old(mArray[..mLength]), ByFile(fileId))
      ensures count == CountSelected(old(mArray[..mLength]), ByFile(fileId))
    {
      ghost var s := mArray[..mLength];
      var sel := ByFile(fileId);
      CountSelectedNone(s, sel, 0, start);
      count := 0;
      var t := start;
      while t < mLength && mArray[t].fileId <= fileId
        invariant start <= t <= mLength <= mArray.Length
        invariant MarkedUpTo(mArray[..mLength], s, sel, t) && count == CountSelected(s[..t], sel)
      {
        var marked := MarkAt(t, s, sel);
        count := count + marked;
        t := t + 1;
      }
      assert t < mLength ==> mArray[..mLength][t] == mArray[t];
      NoneOfFileFrom(s, fileId, t);
      CountSelectedNone(s, sel, t, |s|);
      assert s[..|s|] == s;
      MarkedIs(mArray[..mLength], s, sel, t);
    }

    // Marks one record if it is selected: one turn of the marking loops.
    method MarkAt(t: nat, ghost s: seq<ContentInfo>, sel: Selector) returns (count: nat)
      requires t < mLength <= mArray.Length && MarkedUpTo(mArray[..mLength], s, sel, t)
      modifies mArray
      ensures MarkedUpTo(mArray[..mLength], s, sel, t + 1)
      ensures CountSelected(s[..t + 1], sel) == CountSelected(s[..t], sel) + count
    {
      ghost var now := mArray[..mLength];
      MarkedNext(now, s, sel, t);
      CountSelectedNext(s, t, sel);
      count := 0;
      if sel.Selects(mArray[t]) {
        mArray[t] := mArray[t].(deleted := true);
        count := 1;
      }
      assert mArray[..mLength] == now[t := Mark(s[t], sel)];
    }

    // The linear marking loop shared by the generation, producer and source variants.
    method MarkDeleted(sel: Selector) returns (count: nat)
      requires Valid()
      modifies mArray
      ensures Valid() && Contents() == Marked(old(Contents()), sel)
      ensures count == CountSelected(old(Contents()), sel)
    {
      MarkedKeepsOrderAndKeys(mComparisonMethod, Contents(), sel);
      count := MarkAll(sel);
    }

    method MarkAll(sel: Selector) returns (count: nat)
      requires mLength <= mArray.Length
      modifies mArray
      ensures mArray[..mLength] == Marked(old(mArray[..mLength]), sel)
      ensures count == CountSelected(old(mArray[..mLength]), sel)
    {
      ghost var s := mArray[..mLength];
      count := 0;
      var t := 0;
      while t < mLength
        invariant 0 <= t <= mLength <= mArray.Length
        invariant MarkedUpTo(mArray[..mLength], s, sel, t) && count == CountSelected(s[..t], sel)
      {
        var marked := MarkAt(t, s, sel);
        count := count + marked;
        t := t + 1;
      }
      assert s[..|s|] == s;
      MarkedIs(mArray[..mLength], s, sel, t);
    }

    method MarkDeletedByFileIdAndMessageIndex(fileId: nat, messageIndex: nat) returns (count: nat)
      requires Valid()
      modifies mArray
      ensures Valid() && Contents() == MarkedMessage(old(Contents()), fileId, messageIndex)
      ensures count == if LookupLive(old(Contents()), fileId, messageIndex).Some? then 1 else 0
    {
      ghost var s := Contents();
      var info, idx := GetContentInfoByFileIdAndMessageIndexNoLock(fileId, messageIndex);
      if info == None {
        return 0;
      }
      if mComparisonMethod != NONE {
        CompareIgnoresMark(mComparisonMethod, s[idx], s[idx]);
        CompareIsTotalOrder(mComparisonMethod, s[idx], s[idx], s[idx]);
      }
      Overwrite(idx, info.value.(deleted := true));
      return 1;
    }

    // The compaction of deleteMarkedContent (nothing selected) and of the delete methods.
    method DeleteContentInfo(sel: Selector) returns (count: nat)
      requires Valid()
      modifies this`mLength, mArray
      ensures Valid() && Contents() == Kept(old(Contents()), sel)
      ensures count == |old(Contents())| - |Contents()|
    {
      KeptKeepsOrderAndKeys(mComparisonMethod, Contents(), sel);
      count := RemoveInPlace(sel);
    }

    // The selected and the already marked records are removed in place.
    method RemoveInPlace(sel: Selector) returns (count: nat)
      requires mLength <= mArray.Length
      modifies this`mLength, mArray
      ensures mLength <= mArray.Length && mArray[..mLength] == Kept(old(mArray[..mLength]), sel)
      ensures count == old(mLength) - mLength
    {
      ghost var s := mArray[..mLength];
      var p, t := 0, 0;
      count := 0;
      while t < mLength
        invariant 0 <= p <= t <= mLength <= mArray.Length
        invariant mArray[..p] == Kept(s[..t], sel)
        invariant forall k :: t <= k < mLength ==> mArray[k] == s[k]
        invariant count == t - p
        modifies mArray
      {
        var info := mArray[t];
        KeptNext(s, t, sel);
        if sel.Selects(info) || info.deleted {
          count := count + 1;
        } else {
          KeepAt(p, info);
          p := p + 1;
        }
        t := t + 1;
      }
      assert s[..|s|] == s;
      mLength := p;
    }

    method KeepAt(p: nat, info: ContentInfo)
      requires p < mArray.Length
      modifies mArray
      ensures mArray[..p + 1] == old(mArray[..p]) + [info]
      ensures forall k :: p < k < mArray.Length ==> mArray[k] == old(mArray[k])
    {
      mArray[p] := info;
    }

    // Overwrites one record in place, as a caller does through the pointer it got from the list.
    method Overwrite(idx: int, contentInfo: ContentInfo)
      requires Valid() && 0 <= idx < mLength
      requires mComparisonMethod != NONE ==>
                 Contents()[idx].Compare(mComparisonMethod, contentInfo) == 0
      modifies mArray
      ensures Valid() && Contents() == old(Contents())[idx := contentInfo]
    {
      ghost var s := Contents();
      mArray[idx] := contentInfo;
      assert mArray[..mLength] == s[idx := contentInfo];
      if mComparisonMethod != NONE {
        ReplacingKeepsOrder(mComparisonMethod, s, idx, contentInfo);
      }
    }

    method Clear()
      modifies this`mArray, this`mLength
      ensures Valid() && fresh(mArray) && Contents() == []
    {
      mArray := new ContentInfo[0];
      mLength := 0;
    }
  }

  function SearchProbe(fileId: nat, messageIndex: nat): ContentInfo {
    ContentInfo(fileId, messageIndex, 0, 0, 0, 0, 0, 0, 0, 0, 0, 0, 0, 0, 0, false)
  }

  // What one comparison with a sorted list says about the records on either side.
  lemma NeighboursOf(m: nat, s: seq<ContentInfo>, probe: ContentInfo, i: nat)
    requires SortedBy(m, s) && i < |s|
    ensures s[i].Compare(m, probe) < 0 ==> forall k :: 0 <= k <= i ==> s[k].Compare(m, probe) < 0
    ensures s[i].Compare(m, probe) > 0 ==> forall k :: i <= k < |s| ==> s[k].Compare(m, probe) > 0
    ensures s[i].Compare(m, probe) == 0 ==> forall k :: 0 <= k < i ==> s[k].Compare(m, probe) <= 0
  {
    forall k | 0 <= k < |s|
      ensures k <= i && s[i].Compare(m, probe) <= 0 ==> s[k].Compare(m, probe) <= 0
      ensures k <= i && s[i].Compare(m, probe) < 0 ==> s[k].Compare(m, probe) < 0
      ensures k >= i && s[i].Compare(m, probe) > 0 ==> s[k].Compare(m, probe) > 0
    {
      CompareIsTotalOrder(m, s[k], s[i], probe);
      CompareIsTotalOrder(m, probe, s[i], s[k]);
      CompareIsTotalOrder(m, probe, s[k], s[k]);
      CompareIsTotalOrder(m, s[i], probe, probe);
    }
  }

  // A smaller record without a smaller right neighbour, or the first record if none is smaller.
  ghost predicate IsWalkEnd(m: nat, s: seq<ContentInfo>, probe: ContentInfo, i: int) {
    && 0 <= i < |s|
    && (s[i].Compare(m, probe) < 0 ==> i + 1 == |s| || s[i + 1].Compare(m, probe) >= 0)
    && (s[i].Compare(m, probe) > 0 ==> i == 0)
  }

  lemma WalkEndIsClosest(m: nat, s: seq<ContentInfo>, probe: ContentInfo, i: int)
    requires SortedBy(m, s) && IsWalkEnd(m, s, probe, i) && !HasEqual(m, s, probe)
    ensures IsClosestIndex(m, s, probe, i)
  {
    assert s[i].Compare(m, probe) != 0;
    NeighboursOf(m, s, probe, i);
    if i + 1 < |s| {
      assert s[i + 1].Compare(m, probe) != 0;
      NeighboursOf(m, s, probe, i + 1);
    }
  }

  lemma LeftmostIsClosest(m: nat, s: seq<ContentInfo>, probe: ContentInfo, mid: nat)
    requires SortedBy(m, s) && mid < |s| && s[mid].Compare(m, probe) == 0
    requires mid > 0 ==> s[mid - 1].Compare(m, probe) != 0
    ensures IsClosestIndex(m, s, probe, mid)
  {
    NeighboursOf(m, s, probe, mid);
    if mid > 0 {
      NeighboursOf(m, s, probe, mid - 1);
    }
  }

  // The insertion point is the closest index or one of its right neighbours.
  lemma LowerBoundFromClosest(m: nat, s: seq<ContentInfo>, probe: ContentInfo, idx: int)
    requires m != NONE && SortedBy(m, s) && IsClosestIndex(m, s, probe, idx)
    ensures |s| > 0 ==> 0 <= idx < |s|
    ensures idx <= LowerBound(m, s, probe)
    ensures HasEqual(m, s, probe) <==> idx < |s| && s[idx].Compare(m, probe) == 0
    ensures HasEqual(m, s, probe) ==> idx == LowerBound(m, s, probe)
  {
    AfterLowerBound(m, s, probe);
  }

  // Both searches end at the first record of the message when the list has one.
  lemma ClosestIsFirstWithKey(s: seq<ContentInfo>, probe: ContentInfo, idx: int, binary: bool)
    requires |s| > 0 && 0 <= idx < |s|
    requires if binary then IsClosestIndex(FILE_MESSAGE, s, probe, idx)
        else IsFirstEqualIndex(FILE_MESSAGE, s, probe, idx)
    ensures var first := FirstWithKey(s, probe.fileId, probe.messageIndex);
            if first < |s| then idx == first else !HasKey(s[idx], probe.fileId, probe.messageIndex)
  {
    forall k | 0 <= k < |s|
      ensures s[k].Compare(FILE_MESSAGE, probe) == 0 <==> HasKey(s[k], probe.fileId, probe.messageIndex)
    {
      FileMessageEquality(s[k], probe);
    }
    var first := FirstWithKey(s, probe.fileId, probe.messageIndex);
    if first < |s| {
      assert s[first].Compare(FILE_MESSAGE, probe) == 0;
    }
  }

  lemma NoFileRecordBeforeClosest(s: seq<ContentInfo>, fileId: nat, probe: ContentInfo, t: int)
    requires |s| > 0 && probe.fileId == fileId && probe.messageIndex == 0
    requires IsClosestIndex(FILE_MESSAGE, s, probe, t)
    ensures forall k :: 0 <= k < t ==> s[k].fileId < fileId
  {
  }

  lemma NothingBeforeClosest(s: seq<ContentInfo>, probe: ContentInfo, t: int)
    requires |s| > 0 && IsClosestIndex(FILE_MESSAGE, s, probe, t)
    ensures 0 <= t < |s| && LiveFrom(s[..t], probe.fileId, probe.messageIndex) == []
  {
    LiveFromNothing(s[..t], probe.fileId, probe.messageIndex);
  }

  ghost predicate FileIdsAscend(s: seq<ContentInfo>) {
    forall i, j :: 0 <= i <= j < |s| ==> s[i].fileId <= s[j].fileId
  }

  lemma SortedFileIdsAscend(s: seq<ContentInfo>)
    requires SortedBy(FILE_MESSAGE, s)
    ensures FileIdsAscend(s)
  {
  }

  lemma NoneOfFileFrom(s: seq<ContentInfo>, fileId: nat, t: nat)
    requires FileIdsAscend(s) && t <= |s| && (t < |s| ==> s[t].fileId > fileId)
    ensures forall k :: t <= k < |s| ==> !ByFile(fileId).Selects(s[k])
  {
  }

  lemma {:induction false} CountSelectedNone(s: seq<ContentInfo>, sel: Selector, lo: nat, hi: nat)
    requires lo <= hi <= |s|
    requires forall k :: lo <= k < hi ==> !sel.Selects(s[k])
    ensures CountSelected(s[..hi], sel) == CountSelected(s[..lo], sel)
    decreases hi
  {
    if lo < hi {
      CountSelectedNone(s, sel, lo, hi - 1);
      assert s[..hi][..hi - 1] == s[..hi - 1];
    }
  }

  lemma InsertedIs(after: seq<ContentInfo>, s: seq<ContentInfo>, idx: nat, c: ContentInfo)
    requires idx <= |s| && |after| == |s| + 1 && after[idx] == c
    requires forall k :: 0 <= k < idx ==> after[k] == s[k]
    requires forall k :: idx < k <= |s| ==> after[k] == s[k - 1]
    ensures after == s[..idx] + [c] + s[idx..]
  {
  }

  lemma ReplacingKeepsOrder(m: nat, s: seq<ContentInfo>, i: nat, c: ContentInfo)
    requires SortedBy(m, s) && i < |s| && s[i].Compare(m, c) == 0
    ensures SortedBy(m, s[i := c])
  {
    forall k | 0 <= k < |s|
      ensures k < i ==> s[k].Compare(m, c) <= 0
      ensures k > i ==> c.Compare(m, s[k]) <= 0
    {
      CompareIsTotalOrder(m, s[k], s[i], c);
      CompareIsTotalOrder(m, c, s[i], s[k]);
      CompareIsTotalOrder(m, s[i], c, c);
    }
  }
}
