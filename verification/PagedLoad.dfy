// Loading the file and content lists from the master page by page.
module PagedLoads {
  import opened ContentOrder
  import opened ContentSequences
  import opened ContentInfoLists
  import opened ContentEvents

  const PAGE_SIZE: nat := 50000

  lemma PrefixMoves<T>(loaded: seq<T>, page: seq<T>, all: seq<T>)
    requires page <= all
    ensures (loaded + page) + all[|page|..] == loaded + all
    ensures loaded + page <= loaded + all
  {
    assert all == page + all[|page|..];
  }

  // ---- Files ----

  ghost predicate AscendingFiles(files: seq<FileInfo>) {
    forall i, j :: 0 <= i < j < |files| ==> files[i].fileId < files[j].fileId
  }

  // What lookups by id answer once the list is loaded.
  function FilesById(files: seq<FileInfo>): map<nat, FileInfo>
    requires AscendingFiles(files)
  {
    map i | 0 <= i < |files| :: files[i].fileId := files[i]
  }

  // The master's files with an id at or above the start.
  function FilesFrom(files: seq<FileInfo>, startFileId: nat): seq<FileInfo> {
    if |files| == 0 then []
    else
      FilesFrom(files[..|files| - 1], startFileId) +
      if files[|files| - 1].fileId >= startFileId then [files[|files| - 1]] else []
  }

  // The master may serve any non-empty page up to the requested size while files are left.
  function FilePage(files: seq<FileInfo>, startFileId: nat, served: nat): (page: seq<FileInfo>)
    ensures page <= FilesFrom(files, startFileId)
    ensures page == [] <==> FilesFrom(files, startFileId) == []
  {
    var all := FilesFrom(files, startFileId);
    var limit := ServedLength(served);
    if |all| <= limit then all else all[..limit]
  }

  function ServedLength(served: nat): (n: nat)
    ensures 1 <= n <= PAGE_SIZE
  {
    if served == 0 then 1 else if served > PAGE_SIZE then PAGE_SIZE else served
  }

  lemma {:induction false} FilesFromAfter(files: seq<FileInfo>, startFileId: nat, t: nat)
    requires AscendingFiles(files) && t < |FilesFrom(files, startFileId)|
    ensures var all := FilesFrom(files, startFileId);
            FilesFrom(files, all[t].fileId + 1) == all[t + 1..] && all[t] in files && all[t].fileId >= startFileId
  {
    var front, last := files[..|files| - 1], files[|files| - 1];
    var c := FilesFrom(files, startFileId)[t];
    if t < |FilesFrom(front, startFileId)| {
      FilesFromAfter(front, startFileId, t);
      var k :| 0 <= k < |front| && front[k] == c;
      assert files[k] == c;
    } else {
      FilesFromNothing(front, c.fileId + 1);
    }
  }

  lemma {:induction false} FilesFromNothing(files: seq<FileInfo>, startFileId: nat)
    requires forall k :: 0 <= k < |files| ==> files[k].fileId < startFileId
    ensures FilesFrom(files, startFileId) == []
  {
    if |files| > 0 {
      FilesFromNothing(files[..|files| - 1], startFileId);
    }
  }

  lemma {:induction false} FilesFromStart(files: seq<FileInfo>)
    ensures FilesFrom(files, 0) == files
  {
    if |files| > 0 {
      FilesFromStart(files[..|files| - 1]);
    }
  }

  // Whatever page lengths the master chooses, every file is collected exactly once and the
  // loop ends; the files at or above the start id decrease.
  method ReadFileList(files: seq<FileInfo>, served: nat -> nat) returns (loaded: seq<FileInfo>)
    requires AscendingFiles(files)
    ensures loaded == files
  {
    loaded := [];
    var startFileId: nat, len := 0, PAGE_SIZE;
    FilesFromStart(files);
    while len > 0
      invariant loaded + FilesFrom(files, startFileId) == files
      invariant 0 <= len
      invariant len == 0 ==> FilesFrom(files, startFileId) == []
      decreases |FilesFrom(files, startFileId)|, len > 0
    {
      ghost var all := FilesFrom(files, startFileId);
      var page := FilePage(files, startFileId, served(startFileId));
      PrefixMoves(loaded, page, all);
      len := |page|;
      loaded, startFileId := AddFilePage(files, page, startFileId, loaded);
    }
  }

  // The loop over one page: appends its files and moves the start id past them.
  method AddFilePage(ghost files: seq<FileInfo>, page: seq<FileInfo>, start: nat, before: seq<FileInfo>)
    returns (loaded: seq<FileInfo>, startFileId: nat)
    requires AscendingFiles(files) && page <= FilesFrom(files, start)
    ensures loaded == before + page
    ensures FilesFrom(files, startFileId) == FilesFrom(files, start)[|page|..]
  {
    ghost var all := FilesFrom(files, start);
    loaded, startFileId := before, start;
    var t := 0;
    while t < |page|
      invariant 0 <= t <= |page|
      invariant loaded == before + page[..t]
      invariant FilesFrom(files, startFileId) == all[t..]
    {
      FilesFromAfter(files, startFileId, 0);
      assert page[t] == all[t] == FilesFrom(files, startFileId)[0];
      if page[t].fileId >= startFileId {
        startFileId := page[t].fileId + 1;
      }
      loaded := loaded + [page[t]];
      t := t + 1;
    }
  }

  // ---- Contents ----

  // The content list ends up with the master's live records, each exactly once and in order.
  method ReadContentList(list: ContentInfoList, master: ContentInfoList, served: (nat, nat) -> nat)
    requires list.Valid() && list.mComparisonMethod == FILE_MESSAGE
    requires master.Valid() && master.mComparisonMethod == FILE_MESSAGE && UniqueKeys(master.Contents())
    requires list != master && list.mArray != master.mArray
    modifies list, list.mArray
    ensures list.Valid() && list.mComparisonMethod == FILE_MESSAGE && fresh(list.mArray)
    ensures list.Contents() == Kept(master.Contents(), Nothing)
    ensures UniqueKeys(list.Contents()) && LiveSet(list.Contents()) == LiveSet(master.Contents())
  {
    list.Clear();
    SortedUniqueIsAscending(master.Contents());
    ghost var s := master.Contents();
    var startFileId: nat, startMessageIndex: nat, len: nat := 0, 0, PAGE_SIZE;
    while len > 0
      invariant list.Valid() && list.mComparisonMethod == FILE_MESSAGE && fresh(list.mArray)
      invariant master.Valid() && master.Contents() == s && master.mComparisonMethod == FILE_MESSAGE
      invariant list.Contents() + LiveFrom(s, startFileId, startMessageIndex) == LiveFrom(s, 0, 0)
      invariant len == 0 ==> LiveFrom(s, startFileId, startMessageIndex) == []
      decreases |LiveFrom(s, startFileId, startMessageIndex)|, len > 0
    {
      startFileId, startMessageIndex, len := ReadPage(list, master, startFileId, startMessageIndex,
                                                      served(startFileId, startMessageIndex));
    }
    LoadedIsLive(s);
  }

  // One turn of the loop: asks for a page and adds it.
  method ReadPage(list: ContentInfoList, master: ContentInfoList, fileId: nat, messageIndex: nat, served: nat)
    returns (startFileId: nat, startMessageIndex: nat, len: nat)
    requires list.Valid() && list.mComparisonMethod == FILE_MESSAGE
    requires master.Valid() && master.mComparisonMethod == FILE_MESSAGE && Ascending(master.Contents())
    requires list != master && list.mArray != master.mArray
    requires list.Contents() + LiveFrom(master.Contents(), fileId, messageIndex) == LiveFrom(master.Contents(), 0, 0)
    modifies list, list.mArray
    ensures list.Valid() && list.mComparisonMethod == FILE_MESSAGE
    ensures list.mArray == old(list.mArray) || fresh(list.mArray)
    ensures master.Valid() && master.Contents() == old(master.Contents())
    ensures var s := master.Contents();
            var rest := LiveFrom(s, startFileId, startMessageIndex);
            && list.Contents() + rest == LiveFrom(s, 0, 0)
            && |rest| + len == |LiveFrom(s, fileId, messageIndex)| && (len == 0 ==> rest == [])
  {
    ghost var s := master.Contents();
    var page := master.GetContentInfoList(fileId, messageIndex, ServedLength(served));
    len := |page|;
    PrefixMoves(list.Contents(), page, LiveFrom(s, fileId, messageIndex));
    startFileId, startMessageIndex := AddContentPage(list, s, page, fileId, messageIndex);
  }

  // The next record of the master goes to the end of the list.
  method AddNext(list: ContentInfoList, ghost s: seq<ContentInfo>, next: ContentInfo)
    requires list.Valid() && list.mComparisonMethod == FILE_MESSAGE
    requires Ascending(s) && list.Contents() + [next] <= LiveFrom(s, 0, 0)
    modifies list, list.mArray
    ensures list.Valid() && list.mComparisonMethod == FILE_MESSAGE
    ensures list.mArray == old(list.mArray) || fresh(list.mArray)
    ensures list.Contents() == old(list.Contents()) + [next]
  {
    LoadedPrecede(s, list.Contents(), next);
    InsertedAtEnd(list.Contents(), next);
    var slot, added := list.AddContentInfo(next);
  }

  // The loop over one page: adds its records and moves the start key past them.
  method AddContentPage(list: ContentInfoList, ghost s: seq<ContentInfo>, page: seq<ContentInfo>,
                        fileId: nat, messageIndex: nat)
    returns (startFileId: nat, startMessageIndex: nat)
    requires list.Valid() && list.mComparisonMethod == FILE_MESSAGE
    requires Ascending(s) && page <= LiveFrom(s, fileId, messageIndex)
    requires list.Contents() + page <= LiveFrom(s, 0, 0)
    modifies list, list.mArray
    ensures list.Valid() && list.mComparisonMethod == FILE_MESSAGE
    ensures list.mArray == old(list.mArray) || fresh(list.mArray)
    ensures list.Contents() == old(list.Contents()) + page
    ensures LiveFrom(s, startFileId, startMessageIndex) == LiveFrom(s, fileId, messageIndex)[|page|..]
  {
    ghost var before, all := list.Contents(), LiveFrom(s, fileId, messageIndex);
    startFileId, startMessageIndex := fileId, messageIndex;
    var t := 0;
    while t < |page|
      invariant 0 <= t <= |page|
      invariant list.Valid() && list.mComparisonMethod == FILE_MESSAGE
      invariant list.mArray == old(list.mArray) || fresh(list.mArray)
      invariant list.Contents() == before + page[..t]
      invariant LiveFrom(s, startFileId, startMessageIndex) == all[t..]
    {
      LiveFromAfter(s, fileId, messageIndex, t);
      assert before + page[..t] + [page[t]] <= before + page;
      startFileId := page[t].fileId;
      startMessageIndex := page[t].messageIndex + 1;
      AddNext(list, s, page[t]);
      assert page[..t + 1] == page[..t] + [page[t]];
      t := t + 1;
    }
  }

  lemma LoadedIsLive(s: seq<ContentInfo>)
    requires UniqueKeys(s)
    ensures LiveFrom(s, 0, 0) == Kept(s, Nothing)
    ensures UniqueKeys(Kept(s, Nothing)) && LiveSet(Kept(s, Nothing)) == LiveSet(s)
  {
    var kept := Kept(s, Nothing);
    LiveFromStart(s);
    KeptKeepsOrderAndKeys(FILE_MESSAGE, s, Nothing);
    KeptAreTheLiveUnselected(s, Nothing);
    KeptHasNoTombstone(s, Nothing);
    CountDeletedZero(kept);
    forall c | c in kept ensures c in LiveSet(kept) {
      var i :| 0 <= i < |kept| && kept[i] == c;
    }
  }

  // Records loaded so far sort before the next one.
  lemma LoadedPrecede(s: seq<ContentInfo>, loaded: seq<ContentInfo>, next: ContentInfo)
    requires Ascending(s)
    requires loaded + [next] <= LiveFrom(s, 0, 0)
    ensures forall k :: 0 <= k < |loaded| ==> loaded[k].Compare(FILE_MESSAGE, next) < 0
  {
    LiveFromAscends(s);
    var all := LiveFrom(s, 0, 0);
    forall k | 0 <= k < |loaded| ensures loaded[k].Compare(FILE_MESSAGE, next) < 0 {
      assert all[k] == loaded[k] && all[|loaded|] == next;
    }
  }

  lemma {:induction false} LiveFromAscends(s: seq<ContentInfo>)
    requires Ascending(s)
    ensures Ascending(LiveFrom(s, 0, 0))
    ensures forall c :: c in LiveFrom(s, 0, 0) ==> c in s
  {
    if |s| > 0 {
      var front, last := s[..|s| - 1], s[|s| - 1];
      LiveFromAscends(front);
      forall c | c in LiveFrom(front, 0, 0) ensures AtOrAfter(last, c.fileId, c.messageIndex + 1) && c in s {
        var k :| 0 <= k < |front| && front[k] == c;
        assert s[k] == c;
      }
    }
  }

  // Identifiers rise from file to file.
  lemma AscendingFilesGrow(files: seq<FileInfo>, next: FileInfo)
    ensures AscendingFiles([]) && AscendingFiles([next])
    ensures files != [] ==>
              (AscendingFiles(files + [next]) <==>
                 AscendingFiles(files) && files[|files| - 1].fileId < next.fileId)
  {
    var all := files + [next];
    if files != [] && AscendingFiles(all) {
      assert all[|files| - 1] == files[|files| - 1] && all[|files|] == next;
      forall i, j | 0 <= i < j < |files| ensures files[i].fileId < files[j].fileId {
        assert all[i].fileId < all[j].fileId;
      }
    }
  }

  // Every file is found under its own identifier, and nothing else is found.
  lemma FilesByIdHolds(files: seq<FileInfo>, f: nat)
    requires AscendingFiles(files)
    ensures f in FilesById(files) ==> FilesById(files)[f] in files && FilesById(files)[f].fileId == f
    ensures forall file :: file in files ==> file.fileId in FilesById(files) && FilesById(files)[file.fileId] == file
  {
  }

  lemma {:induction false} FilesFromHolds(files: seq<FileInfo>, start: nat)
    ensures forall f :: f in FilesFrom(files, start) <==> f in files && f.fileId >= start
  {
    if |files| > 0 {
      var front := files[..|files| - 1];
      FilesFromHolds(front, start);
      assert files == front + [files[|files| - 1]];
    }
  }

  // The master serves as many files as it chooses, but at least one and at most 50000 of those left.
  lemma FilePageLength(files: seq<FileInfo>, start: nat, served: nat)
    ensures var all := |FilesFrom(files, start)|;
            var limit := if served == 0 then 1 else if served > 50000 then 50000 else served;
            |FilePage(files, start, served)| == if all < limit then all else limit
  {
  }
}
