// The cache's primary content list, its delete counter and its handlers of file and content
// events, in swap mode. Every handler is proved to do what ContentEvents.Apply says.
module ContentCaches {
  import opened Wrappers
  import opened ContentOrder
  import opened ContentSequences
  import opened ContentInfoLists
  import opened ContentEvents
  import opened PagedLoads

  class ContentCache {
    const mContentInfoList: ContentInfoList
    var mContentDeleteCounter: nat
    var mFiles: map<nat, FileInfo>

    ghost predicate Valid()
      reads this, mContentInfoList, mContentInfoList.mArray
    {
      && mContentInfoList.Valid()
      && mContentInfoList.mComparisonMethod == FILE_MESSAGE
      && Invariant(Abstract())
    }

    ghost function Abstract(): State
      reads this, mContentInfoList, mContentInfoList.mArray
      requires mContentInfoList.Valid()
    {
      State(mContentInfoList.Contents(), mContentDeleteCounter, mFiles)
    }

    constructor ()
      ensures Valid() && fresh(mContentInfoList) && fresh(mContentInfoList.mArray)
      ensures Abstract() == State([], 0, map[])
    {
      mContentInfoList := new ContentInfoList(FILE_MESSAGE);
      mContentDeleteCounter := 0;
      mFiles := map[];
    }

    // ---- Adding ----

    method AddOrReplace(contentInfo: ContentInfo)
      requires Valid() && !contentInfo.deleted
      modifies this`mContentDeleteCounter, mContentInfoList, mContentInfoList.mArray
      ensures Valid() && OwnArray(old(mContentInfoList.mArray))
      ensures Abstract() == AddOrReplaceContent(old(Abstract()), contentInfo)
    {
      ghost var before := Abstract();
      AddOrReplaceEffect(before, contentInfo);
      var existing, added := mContentInfoList.AddContentInfo(contentInfo);
      if added {
        return;
      }
      var found := mContentInfoList.mArray[existing];
      assert found == mContentInfoList.Contents()[existing];
      if found.deleted {
        FileMessageEquality(found, contentInfo);
        ReuseTombstone(existing, contentInfo.(deleted := false));
      }
    }

    method ReuseTombstone(existing: int, contentInfo: ContentInfo)
      requires Valid() && !contentInfo.deleted && 0 <= existing < mContentInfoList.mLength
      requires mContentInfoList.Contents()[existing].deleted
      requires HasKey(mContentInfoList.Contents()[existing], contentInfo.fileId, contentInfo.messageIndex)
      modifies this`mContentDeleteCounter, mContentInfoList.mArray
      ensures Valid()
      ensures Abstract() == old(Abstract()).(
                contents := old(Abstract()).contents[existing := contentInfo],
                deleteCounter := if old(mContentDeleteCounter) > 0 then old(mContentDeleteCounter) - 1 else 0)
    {
      FileMessageEquality(mContentInfoList.Contents()[existing], contentInfo);
      ReuseKeepsOrderAndKeys(mContentInfoList.Contents(), existing, contentInfo);
      CountDeletedOfUpdate(mContentInfoList.Contents(), existing, contentInfo);
      mContentInfoList.Overwrite(existing, contentInfo);
      if mContentDeleteCounter > 0 {
        mContentDeleteCounter := mContentDeleteCounter - 1;
      }
    }

    twostate predicate OwnArray(before: array<ContentInfo>)
      reads this, mContentInfoList
    {
      mContentInfoList.mArray == before || fresh(mContentInfoList.mArray)
    }

    // Adds the records whose message is not live yet.
    method AddMissing(records: seq<ContentInfo>)
      requires Valid() && AllLive(records)
      modifies this`mContentDeleteCounter, mContentInfoList, mContentInfoList.mArray
      ensures Valid() && OwnArray(old(mContentInfoList.mArray))
      ensures Abstract() == AddAll(old(Abstract()), records)
    {
      ghost var before := Abstract();
      var c := 0;
      while c < |records|
        invariant 0 <= c <= |records|
        invariant Valid() && OwnArray(old(mContentInfoList.mArray))
        invariant Abstract() == AddAll(before, records[..c])
      {
        assert records[..c + 1][..c] == records[..c];
        var info, idx := mContentInfoList.GetContentInfoByFileIdAndMessageIndexNoLock(
          records[c].fileId, records[c].messageIndex);
        if info == None {
          AddOrReplace(records[c]);
        }
        c := c + 1;
      }
      assert records[..|records|] == records;
    }

    // ---- File events ----

    // The file and the records come from the event data or from the master.
    method EventFileAdded(file: Option<FileInfo>, records: seq<ContentInfo>)
      requires Valid() && FileAdded(file, records).FromMaster()
      modifies this, mContentInfoList, mContentInfoList.mArray
      ensures Valid() && OwnArray(old(mContentInfoList.mArray))
      ensures Abstract() == Apply(old(Abstract()), FileAdded(file, records))
    {
      if file == None {
        return;
      }
      if file.value.fileId !in mFiles {
        mFiles := mFiles[file.value.fileId := file.value];
      }
      AddMissing(records);
    }

    method EventFileUpdated(fileId: nat, file: Option<FileInfo>, fetched: Option<seq<ContentInfo>>)
      requires Valid() && FileUpdated(fileId, file, fetched).FromMaster()
      modifies this, mContentInfoList, mContentInfoList.mArray
      ensures Valid() && OwnArray(old(mContentInfoList.mArray))
      ensures Abstract() == Apply(old(Abstract()), FileUpdated(fileId, file, fetched))
    {
      if file == None {
        return;
      }
      if fileId in mFiles {
        MarkFileContents(fileId);
      }
      mFiles := mFiles[fileId := file.value];
      if fetched.Some? {
        AddMissing(fetched.value);
      }
    }

    method MarkFileContents(fileId: nat)
      requires Valid()
      modifies this`mContentDeleteCounter, mContentInfoList.mArray
      ensures Valid() && Abstract() == MarkContents(old(Abstract()), ByFile(fileId))
    {
      MarkContentsEffect(Abstract(), ByFile(fileId));
      var count := mContentInfoList.MarkDeletedByFileId(fileId);
      mContentDeleteCounter := mContentDeleteCounter + count;
    }

    // The handlers that mark a file, a generation, a producer, a source or the geometry of a
    // generation as deleted. The last one and the content list variants leave the files alone.
    method EventListDeleted(sel: Selector, withFiles: bool)
      requires Valid()
      modifies this, mContentInfoList.mArray
      ensures Valid() && Abstract() == Apply(old(Abstract()), ListDeleted(sel, withFiles))
    {
      if sel.ByFile? {
        MarkFileContents(sel.fileId);
      } else {
        MarkContentsEffect(Abstract(), sel);
        var count := mContentInfoList.MarkDeleted(sel);
        mContentDeleteCounter := mContentDeleteCounter + count;
      }
      if withFiles {
        mFiles := RemainingFiles(mFiles, sel);
      }
    }

    // Unlike its siblings this handler removes the records at once.
    method EventGenerationListDeletedByProducerId(producerId: nat)
      requires Valid()
      modifies this, mContentInfoList, mContentInfoList.mArray
      ensures Valid() && mContentInfoList.mArray == old(mContentInfoList.mArray)
      ensures Abstract() == Apply(old(Abstract()), GenerationListDeleted(producerId))
    {
      ProducerRemovedState(Abstract(), producerId);
      var count := mContentInfoList.DeleteContentInfo(ByProducer(producerId));
      mContentDeleteCounter := mContentDeleteCounter + count;
      mFiles := RemainingFiles(mFiles, ByProducer(producerId));
    }

    // ---- Content events ----

    method EventContentAdded(fileId: nat, messageIndex: nat, content: Option<ContentInfo>)
      requires Valid() && ContentAdded(fileId, messageIndex, content).FromMaster()
      modifies mContentInfoList, mContentInfoList.mArray
      ensures Valid() && OwnArray(old(mContentInfoList.mArray))
      ensures Abstract() == Apply(old(Abstract()), ContentAdded(fileId, messageIndex, content))
    {
      AddedState(Abstract(), fileId, messageIndex, content);
      var info, idx := mContentInfoList.GetContentInfoByFileIdAndMessageIndexNoLock(fileId, messageIndex);
      if info.Some? || content == None {
        return;
      }
      info, idx := mContentInfoList.GetContentInfoByFileIdAndMessageIndexNoLock(
        content.value.fileId, content.value.messageIndex);
      if info == None {
        var slot, added := mContentInfoList.AddContentInfo(content.value);
      }
    }

    // Removes the old record together with all tombstones, then adds the new one.
    method EventContentUpdated(fileId: nat, messageIndex: nat, content: Option<ContentInfo>)
      requires Valid() && ContentUpdated(fileId, messageIndex, content).FromMaster()
      modifies mContentInfoList, mContentInfoList.mArray
      ensures Valid() && OwnArray(old(mContentInfoList.mArray))
      ensures Abstract() == Apply(old(Abstract()), ContentUpdated(fileId, messageIndex, content))
    {
      KeptEffect(Abstract(), ByMessage(fileId, messageIndex), mContentDeleteCounter);
      var count := mContentInfoList.DeleteContentInfo(ByMessage(fileId, messageIndex));
      EventContentAdded(fileId, messageIndex, content);
    }

    method EventContentDeleted(fileId: nat, messageIndex: nat)
      requires Valid()
      modifies this`mContentDeleteCounter, mContentInfoList.mArray
      ensures Valid() && Abstract() == Apply(old(Abstract()), ContentDeleted(fileId, messageIndex))
    {
      StepKeepsInvariant(Abstract(), ContentDeleted(fileId, messageIndex));
      var count := mContentInfoList.MarkDeletedByFileIdAndMessageIndex(fileId, messageIndex);
      mContentDeleteCounter := mContentDeleteCounter + count;
    }

    // ---- Loading, clearing and compaction ----

    // Both lists are read again from the master, page by page; the counter stays.
    method ReloadData(files: seq<FileInfo>, servedFiles: nat -> nat,
                      master: ContentInfoList, servedContents: (nat, nat) -> nat)
      requires Valid() && AscendingFiles(files)
      requires master.Valid() && master.mComparisonMethod == FILE_MESSAGE && UniqueKeys(master.Contents())
      requires mContentInfoList != master && mContentInfoList.mArray != master.mArray
      modifies this`mFiles, mContentInfoList, mContentInfoList.mArray
      ensures Valid() && fresh(mContentInfoList.mArray)
      ensures var loaded := Kept(master.Contents(), Nothing);
              && Reload(FilesById(files), loaded).FromMaster()
              && Abstract() == Apply(old(Abstract()), Reload(FilesById(files), loaded))
    {
      var loadedFiles := ReadFileList(files, servedFiles);
      mFiles := FilesById(loadedFiles);
      ReadContentList(mContentInfoList, master, servedContents);
      KeptHasNoTombstone(master.Contents(), Nothing);
      CountDeletedZero(mContentInfoList.Contents());
    }

    method EventClear()
      requires Valid()
      modifies this`mFiles, mContentInfoList
      ensures Valid() && fresh(mContentInfoList.mArray)
      ensures Abstract() == Apply(old(Abstract()), Clear)
    {
      mFiles := map[];
      mContentInfoList.Clear();
    }

    method DeleteMarkedRecords(shutdownRequested: bool)
      requires Valid()
      modifies this`mContentDeleteCounter, mContentInfoList, mContentInfoList.mArray
      ensures Valid() && mContentInfoList.mArray == old(mContentInfoList.mArray)
      ensures Abstract() == Apply(old(Abstract()), Compact(shutdownRequested))
      ensures !shutdownRequested ==> AllLive(mContentInfoList.Contents())
    {
      CompactionIsComplete(Abstract(), []);
      StepKeepsInvariant(Abstract(), Compact(shutdownRequested));
      if mContentDeleteCounter == 0 || shutdownRequested {
        return;
      }
      var count := mContentInfoList.DeleteContentInfo(Nothing);
      mContentDeleteCounter := 0;
    }
  }
}
