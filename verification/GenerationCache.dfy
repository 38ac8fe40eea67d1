// The handlers of the generation events as the cache runs them, on its list and its delete
// counter. Each is proved to change the list as GenerationSync says.
module GenerationCaches {
  import opened Wrappers
  import opened GenerationSync
  import opened GenerationLists

  class GenerationCache {
    const mGenerationInfoList: GenerationInfoList
    var mGenerationDeleteCounter: nat

    // Skipping the compaction while the counter is zero leaves no tombstone behind.
    ghost predicate Valid()
      reads this, mGenerationInfoList, mGenerationInfoList.mArray
    {
      mGenerationInfoList.Valid() && Count(mGenerationInfoList.Contents(), IsMarked) <= mGenerationDeleteCounter
    }

    ghost function List(): CachedList
      reads this, mGenerationInfoList, mGenerationInfoList.mArray
      requires mGenerationInfoList.Valid()
    {
      ListOf(mGenerationInfoList.Contents())
    }

    constructor ()
      ensures Valid() && List() == map[] && mGenerationDeleteCounter == 0
      ensures fresh(mGenerationInfoList) && fresh(mGenerationInfoList.mArray)
    {
      mGenerationInfoList := new GenerationInfoList();
      mGenerationDeleteCounter := 0;
    }

    method Add(i: nat, g: Generation)
      requires Valid()
      modifies mGenerationInfoList, mGenerationInfoList.mArray
      ensures Valid() && List() == Insert(old(List()), i, g)
      ensures mGenerationInfoList.mArray == old(mGenerationInfoList.mArray) || fresh(mGenerationInfoList.mArray)
    {
      mGenerationInfoList.AddGenerationInfo(Entry(i, g, false));
    }

    // Overwrites the record a lookup has found.
    method Replace(idx: nat, g: Generation)
      requires Valid() && idx < mGenerationInfoList.mLength && !mGenerationInfoList.Contents()[idx].marked
      modifies mGenerationInfoList.mArray
      ensures Valid() && List() == old(List())[old(mGenerationInfoList.Contents()[idx].id) := Cached(g, false)]
    {
      ghost var s := mGenerationInfoList.Contents();
      OverwrittenMarks(s, idx, Entry(s[idx].id, g, false));
      mGenerationInfoList.Overwrite(idx, g);
    }

    // `fetched` is what getGenerationInfoById of the content storage answers.
    method EventGenerationAdded(i: nat, fetched: Option<Generation>)
      requires Valid()
      modifies mGenerationInfoList, mGenerationInfoList.mArray
      ensures Valid() && List() == Handle(old(List()), Added(i), fetched)
    {
      var info, _ := mGenerationInfoList.GetGenerationInfoById(i);
      if info.Some? {
        return;
      }
      if fetched.None? {
        return;
      }
      Add(i, fetched.value);
    }

    method EventGenerationUpdated(i: nat, fetched: Option<Generation>)
      requires Valid()
      modifies mGenerationInfoList, mGenerationInfoList.mArray
      ensures Valid() && List() == Handle(old(List()), Updated(i), fetched)
    {
      if fetched.None? {
        return;
      }
      var info, idx := mGenerationInfoList.GetGenerationInfoById(i);
      if info.Some? {
        Replace(idx, fetched.value);
      } else {
        Add(i, fetched.value);
      }
    }

    method EventGenerationStatusChanged(i: nat, status: nat, fetched: Option<Generation>)
      requires Valid()
      modifies mGenerationInfoList, mGenerationInfoList.mArray
      ensures Valid() && List() == Handle(old(List()), StatusChanged(i, status), fetched)
    {
      var info, idx := mGenerationInfoList.GetGenerationInfoById(i);
      if info.Some? {
        Replace(idx, info.value.(status := status));
      } else if fetched.Some? {
        Add(i, fetched.value.(status := status));
      }
    }

    // Removal at once, which counts as well.
    method EventGenerationDeleted(i: nat)
      requires Valid()
      modifies `mGenerationDeleteCounter, mGenerationInfoList, mGenerationInfoList.mArray
      ensures Valid() && List() == Handle(old(List()), Deleted(i), None)
      ensures mGenerationDeleteCounter == old(mGenerationDeleteCounter) + if i in old(List()) then 1 else 0
    {
      ghost var before := List();
      var deleted := mGenerationInfoList.DeleteGenerationInfoById(i);
      mGenerationDeleteCounter := mGenerationDeleteCounter + if deleted then 1 else 0;
      assert List() == Removed(before, Deleted(i));
    }

    method EventGenerationListDeletedByProducerId(producerId: nat)
      requires Valid()
      modifies `mGenerationDeleteCounter, mGenerationInfoList, mGenerationInfoList.mArray
      ensures Valid() && List() == Handle(old(List()), ListDeletedByProducer(producerId), None)
      ensures mGenerationDeleteCounter
           == old(mGenerationDeleteCounter) + old(mGenerationInfoList.mLength) - mGenerationInfoList.mLength
    {
      ghost var s, ev := mGenerationInfoList.Contents(), ListDeletedByProducer(producerId);
      RemovedByEvent(s, ev);
      FewerMarked(s, HitBy(ev));
      FilteredLength(s, HitBy(ev));
      var cnt := mGenerationInfoList.RemoveInPlace(HitBy(ListDeletedByProducer(producerId)));
      mGenerationDeleteCounter := mGenerationDeleteCounter + cnt;
    }

    method MarkDeleted(ev: Event)
      requires Valid() && ev.Marks()
      modifies `mGenerationDeleteCounter, mGenerationInfoList.mArray
      ensures Valid() && List() == Handle(old(List()), ev, None)
      ensures mGenerationDeleteCounter
           == old(mGenerationDeleteCounter) + Count(old(mGenerationInfoList.Contents()), HitBy(ev))
    {
      var cnt := mGenerationInfoList.MarkDeleted(ev);
      mGenerationDeleteCounter := mGenerationDeleteCounter + cnt;
    }

    method DeleteMarkedRecords(shutdownRequested: bool)
      requires Valid()
      modifies `mGenerationDeleteCounter, mGenerationInfoList, mGenerationInfoList.mArray
      ensures Valid()
      ensures shutdownRequested ==>
                List() == old(List()) && mGenerationDeleteCounter == old(mGenerationDeleteCounter)
      ensures !shutdownRequested ==>
                && mGenerationDeleteCounter == 0 && List() == Compacted(old(List()))
                && forall i :: i in List() ==> !List()[i].marked
    {
      ghost var s := mGenerationInfoList.Contents();
      if mGenerationDeleteCounter == 0 || shutdownRequested {
        if !shutdownRequested {
          NothingToCompact(s);
        }
        return;
      }
      CompactedIsList(s);
      FilteredHasNoMark(s);
      var _ := mGenerationInfoList.RemoveInPlace(IsMarked);
      mGenerationDeleteCounter := 0;
    }
  }

  lemma OverwrittenMarks(s: seq<Entry>, idx: nat, e: Entry)
    requires idx < |s| && !e.marked
    ensures Count(s[idx := e], IsMarked) <= Count(s, IsMarked)
  {
    RemovedMarks(s, idx);
    InsertedMarks(RemovedAt(s, idx), idx, e);
    assert InsertedAt(RemovedAt(s, idx), idx, e) == s[idx := e];
  }

  lemma NothingToCompact(s: seq<Entry>)
    requires Ascending(s) && Count(s, IsMarked) == 0
    ensures Compacted(ListOf(s)) == ListOf(s)
    ensures forall i :: i in ListOf(s) ==> !ListOf(s)[i].marked
  {
    CountZero(s, IsMarked);
    ListHolds(s);
    forall i | i in ListOf(s) ensures !ListOf(s)[i].marked {
      HeldEntry(ListOf(s), i);
    }
  }

  lemma FilteredHasNoMark(s: seq<Entry>)
    requires Ascending(s)
    ensures Count(Filtered(s, IsMarked), IsMarked) == 0
  {
    FilteredIn(s, IsMarked);
    CountZero(Filtered(s, IsMarked), IsMarked);
  }
}
