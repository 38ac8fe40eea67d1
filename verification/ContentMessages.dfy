// What the handlers of the cache do to one message, told by lookups.
module ContentMessages {
  import opened Wrappers
  import opened ContentOrder
  import opened ContentSequences
  import Cache = ContentEvents

  type FileInfo = Cache.FileInfo

  datatype Key = Key(fileId: nat, messageIndex: nat)

  // What a lookup of the message answers.
  function At(s: seq<ContentInfo>, k: Key): Option<ContentInfo> {
    LookupLive(s, k.fileId, k.messageIndex)
  }

  predicate Has(c: ContentInfo, k: Key) {
    HasKey(c, k.fileId, k.messageIndex)
  }

  function KeyOf(c: ContentInfo): Key {
    Key(c.fileId, c.messageIndex)
  }

  lemma AtSome(s: seq<ContentInfo>, c: ContentInfo)
    requires UniqueKeys(s) && c in LiveSet(s)
    ensures At(s, KeyOf(c)) == Some(c)
  {
    LookupFindsTheLiveRecord(s, c);
  }

  lemma AtIsLive(s: seq<ContentInfo>, k: Key)
    ensures At(s, k).Some? ==> At(s, k).value in LiveSet(s) && Has(At(s, k).value, k) && !At(s, k).value.deleted
  {
  }

  lemma AtMost(s: seq<ContentInfo>, c: ContentInfo, k: Key)
    requires UniqueKeys(s) && c in LiveSet(s) && Has(c, k)
    ensures At(s, k) == Some(c)
  {
    AtSome(s, c);
  }

  // The live records of a file, in list order.
  function FileRecords(s: seq<ContentInfo>, fileId: nat): seq<ContentInfo> {
    if |s| == 0 then []
    else
      var last := s[|s| - 1];
      FileRecords(s[..|s| - 1], fileId) + if !last.deleted && last.fileId == fileId then [last] else []
  }

  lemma {:induction false} FileRecordsAre(s: seq<ContentInfo>, fileId: nat)
    ensures forall c :: c in FileRecords(s, fileId) <==> c in LiveSet(s) && c.fileId == fileId
  {
    if |s| > 0 {
      FileRecordsAre(s[..|s| - 1], fileId);
      LiveSetNext(s);
    }
  }

  lemma {:induction false} FileRecordsUnique(s: seq<ContentInfo>, fileId: nat)
    requires UniqueKeys(s)
    ensures UniqueKeys(FileRecords(s, fileId))
  {
    if |s| > 0 {
      var front, last := s[..|s| - 1], s[|s| - 1];
      FileRecordsUnique(front, fileId);
      FileRecordsAre(front, fileId);
      forall c | c in FileRecords(front, fileId) ensures !Has(c, KeyOf(last)) {
        var i :| 0 <= i < |front| && front[i] == c;
        assert s[i] == c;
      }
    }
  }

  lemma FileRecordsServed(s: seq<ContentInfo>, fileId: nat)
    requires UniqueKeys(s)
    ensures Cache.ServedFor(fileId, FileRecords(s, fileId))
    ensures forall k :: At(FileRecords(s, fileId), k) == if k.fileId == fileId then At(s, k) else None
  {
    var records := FileRecords(s, fileId);
    FileRecordsAre(s, fileId);
    FileRecordsUnique(s, fileId);
    forall i | 0 <= i < |records| ensures !records[i].deleted && records[i].fileId == fileId {
      assert records[i] in records;
    }
    forall k ensures At(records, k) == if k.fileId == fileId then At(s, k) else None {
      RecordsAt(records, k);
      AtIsLive(s, k);
      AtIsLive(records, k);
      if At(records, k).Some? {
        AtMost(s, At(records, k).value, k);
      }
    }
  }

  lemma FileRecordAt(s: seq<ContentInfo>, fileId: nat, k: Key)
    requires UniqueKeys(s)
    ensures At(FileRecords(s, fileId), k) == if k.fileId == fileId then At(s, k) else None
  {
    FileRecordsServed(s, fileId);
  }

  // In a list of live records with one record per message.
  lemma RecordsAt(records: seq<ContentInfo>, k: Key)
    requires Cache.AllLive(records) && UniqueKeys(records)
    ensures forall c :: c in records && Has(c, k) ==> At(records, k) == Some(c)
    ensures forall c :: c in records <==> c in LiveSet(records)
    ensures LiveSet(records) == Cache.RecordsOf(records)
  {
    forall c | c in records ensures c in LiveSet(records) {
      var i :| 0 <= i < |records| && records[i] == c;
    }
    forall c | c in records && Has(c, k) ensures At(records, k) == Some(c) {
      AtMost(records, c, k);
    }
  }

  // ---- What a handler does to one message ----

  // `loses` tells whether the event is a CONTENT_ADDED that meets a tombstone.
  function After(entry: Option<ContentInfo>, files: map<nat, FileInfo>, loses: bool, ev: Cache.Event, k: Key)
    : Option<ContentInfo>
  {
    match ev
    case FileAdded(file, records) => if file.None? || entry.Some? then entry else At(records, k)
    case FileUpdated(f, file, fetched) =>
      if file.None? then entry
      else
        var base := if f in files && k.fileId == f then None else entry;
        if base.Some? || fetched.None? then base else At(fetched.value, k)
    case ListDeleted(sel, _) => if entry.Some? && sel.Selects(entry.value) then None else entry
    case GenerationListDeleted(p) => if entry.Some? && entry.value.producerId == p then None else entry
    case ContentAdded(f, i, content) => if k == Key(f, i) && entry.None? && !loses then content else entry
    case ContentUpdated(f, i, content) => if k == Key(f, i) then content else entry
    case ContentDeleted(f, i) => if k == Key(f, i) then None else entry
    case Clear => None
    case Reload(_, loaded) => At(loaded, k)
    case Compact(_) => entry
  }

  ghost predicate Served(ev: Cache.Event) {
    && ev.FromMaster()
    && (ev.FileAdded? ==> UniqueKeys(ev.records))
    && (ev.FileUpdated? && ev.fetched.Some? ==> UniqueKeys(ev.fetched.value))
  }

  lemma WithAllAt(live: set<ContentInfo>, records: seq<ContentInfo>, k: Key)
    requires Cache.AllLive(records) && UniqueKeys(records)
    ensures forall c :: Has(c, k) ==>
              (c in Cache.WithAll(live, records) <==>
                 c in live || (!Cache.HasMessage(live, k.fileId, k.messageIndex) && At(records, k) == Some(c)))
  {
    Cache.WithAllOfNewMessages(live, records);
    RecordsAt(records, k);
    AtIsLive(records, k);
  }

  lemma HasMessageAt(s: seq<ContentInfo>, k: Key)
    requires UniqueKeys(s)
    ensures Cache.HasMessage(LiveSet(s), k.fileId, k.messageIndex) <==> At(s, k).Some?
    ensures forall c :: c in LiveSet(s) && Has(c, k) <==> At(s, k) == Some(c)
  {
    Cache.LookupIsMembership(s, k.fileId, k.messageIndex);
    AtIsLive(s, k);
    forall c | c in LiveSet(s) && Has(c, k) ensures At(s, k) == Some(c) {
      AtMost(s, c, k);
    }
  }

  lemma PlainAfter(st: Cache.State, ev: Cache.Event, k: Key, c: ContentInfo)
    requires Cache.Invariant(st) && Served(ev) && Has(c, k)
    ensures c in Cache.PlainApply(Cache.View(st), ev).live <==>
        After(At(st.contents, k), st.files, false, ev, k) == Some(c)
  {
    var live := LiveSet(st.contents);
    HasMessageAt(st.contents, k);
    match ev
    case FileAdded(file, records) => WithAllAt(live, records, k);
    case FileUpdated(f, file, fetched) =>
      var base := if f in st.files then Cache.Without(live, ByFile(f)) else live;
      if fetched.Some? {
        WithAllAt(base, fetched.value, k);
      }
    case Reload(files, loaded) => RecordsAt(loaded, k); AtIsLive(loaded, k);
    case _ =>
  }

  // Every handler changes the answer of a lookup as After says.
  lemma EntryAfter(st: Cache.State, ev: Cache.Event, k: Key)
    requires Cache.Invariant(st) && Served(ev)
    ensures At(Cache.Apply(st, ev).contents, k) == After(At(st.contents, k), st.files, Cache.LosesRecord(st, ev), ev, k)
  {
    var st' := Cache.Apply(st, ev);
    Cache.StepKeepsInvariant(st, ev);
    HasMessageAt(st'.contents, k);
    if Cache.LosesRecord(st, ev) {
      Cache.ContentAddedEffect(st, ev.fileId, ev.messageIndex, ev.content);
      HasMessageAt(st.contents, k);
      if k == Key(ev.fileId, ev.messageIndex) {
        TombstoneIsNotLive(st, ev, k);
      }
      SameLookup(st'.contents, st.contents, k);
    } else {
      Cache.StepRefinesPlain(st, ev);
      var entry := After(At(st.contents, k), st.files, false, ev, k);
      if entry.Some? {
        AfterHasKey(At(st.contents, k), st.files, ev, k);
        PlainAfter(st, ev, k, entry.value);
      }
      if At(st'.contents, k).Some? {
        PlainAfter(st, ev, k, At(st'.contents, k).value);
      }
    }
  }

  lemma SameLookup(s: seq<ContentInfo>, t: seq<ContentInfo>, k: Key)
    requires UniqueKeys(s) && UniqueKeys(t) && LiveSet(s) == LiveSet(t)
    ensures At(s, k) == At(t, k)
  {
    HasMessageAt(s, k);
    HasMessageAt(t, k);
  }

  lemma TombstoneIsNotLive(st: Cache.State, ev: Cache.Event, k: Key)
    requires Cache.Invariant(st) && Cache.LosesRecord(st, ev) && k == Key(ev.fileId, ev.messageIndex)
    ensures At(st.contents, k) == None
  {
  }

  lemma AfterHasKey(entry: Option<ContentInfo>, files: map<nat, FileInfo>, ev: Cache.Event, k: Key)
    requires Served(ev) && (entry.Some? ==> Has(entry.value, k))
    ensures var after := After(entry, files, false, ev, k); after.Some? ==> Has(after.value, k)
  {
    match ev
    case FileAdded(file, records) => AtIsLive(records, k);
    case FileUpdated(f, file, fetched) =>
      if fetched.Some? {
        AtIsLive(fetched.value, k);
      }
    case Reload(files, loaded) => AtIsLive(loaded, k);
    case _ =>
  }
}
