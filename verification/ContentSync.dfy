// The replication of files and content records: a master that changes them and appends an event
// per change, and a cache that takes an event cursor, loads both lists later, fetches pages of
// events that carry what the master had by then, and replays them with its handlers.
module ContentSync {
  import opened Wrappers
  import opened ContentOrder
  import opened ContentSequences
  import opened ContentMessages
  import Cache = ContentEvents

  // ---- The events of the master ----

  datatype Event =
    | FileAdded(fileId: nat, withContents: bool)
    | FileUpdated(fileId: nat)
    | ListDeleted(sel: Selector, withFiles: bool)
    | GenerationListDeleted(producerId: nat)  // the one the cache answers by removing at once
    | ContentAdded(key: Key)
    | ContentUpdated(key: Key)
    | ContentDeleted(key: Key)
    | Other
  {
    function Selected(): Selector {
      match this
      case ListDeleted(sel, _) => sel
      case GenerationListDeleted(p) => ByProducer(p)
      case ContentDeleted(k) => ByMessage(k.fileId, k.messageIndex)
      case _ => Nothing
    }

    predicate WithFiles() {
      GenerationListDeleted? || (ListDeleted? && withFiles)
    }

    predicate Kills(c: ContentInfo) {
      Selected().Selects(c)
    }

    predicate KillsFile(info: FileInfo) {
      WithFiles() && Cache.SelectsFile(Selected(), info)
    }

    // GEOMETRY_DELETED, on which the cache marks records that the master may keep.
    predicate OfGeometry() {
      ListDeleted? && sel.ByGeometry?
    }

    // The cache reads the message anew, whatever it has.
    predicate Rewrites(k: Key) {
      this == ContentUpdated(k) || this == FileUpdated(k.fileId)
    }

    // The cache gets the message if it does not have it.
    predicate Records(k: Key) {
      Rewrites(k) || this == ContentAdded(k) || this == FileAdded(k.fileId, true)
    }

    predicate RecordsFile(f: nat) {
      (FileAdded? && fileId == f) || this == FileUpdated(f)
    }
  }

  // ---- The master ----

  datatype Master = Master(contents: seq<ContentInfo>, files: map<nat, FileInfo>, nextFileId: nat, log: seq<Event>)

  datatype MasterOp =
    | AddFile(info: FileInfo, records: seq<ContentInfo>)
    | UpdateFile(info: FileInfo, records: seq<ContentInfo>)  // all records of the file are given anew
    | Delete(event: Event)
    | DropGeometry(generationId: nat, geometryId: int)       // the records stay
    | AddContent(content: ContentInfo)
    | SetContent(content: ContentInfo)
    | Note

  // What the master accepts. File ids are never reused.
  ghost predicate Accepts(m: Master, op: MasterOp) {
    match op
    case AddFile(info, records) => info.fileId == m.nextFileId && Cache.ServedFor(info.fileId, records)
    case UpdateFile(info, records) => info.fileId in m.files && Cache.ServedFor(info.fileId, records)
    case Delete(ev) => ev.ListDeleted? || ev.GenerationListDeleted? || ev.ContentDeleted?
    case AddContent(c) => !c.deleted && c.fileId in m.files && At(m.contents, KeyOf(c)).None?
    case SetContent(c) => !c.deleted && At(m.contents, KeyOf(c)).Some?
    case DropGeometry(_, _) => true
    case Note => true
  }

  function EventOf(op: MasterOp): Event {
    match op
    case AddFile(info, records) => FileAdded(info.fileId, |records| > 0)
    case UpdateFile(info, _) => FileUpdated(info.fileId)
    case Delete(ev) => ev
    case AddContent(c) => ContentAdded(KeyOf(c))
    case SetContent(c) => ContentUpdated(KeyOf(c))
    case DropGeometry(g, y) => ListDeleted(ByGeometry(g, y), false)
    case Note => Other
  }

  function WithRecords(s: seq<ContentInfo>, records: seq<ContentInfo>): seq<ContentInfo> {
    Cache.AddAll(Cache.State(s, 0, map[]), records).contents
  }

  function ContentsAfter(s: seq<ContentInfo>, op: MasterOp): seq<ContentInfo> {
    match op
    case AddFile(_, records) => WithRecords(s, records)
    case UpdateFile(info, records) => WithRecords(Kept(s, ByFile(info.fileId)), records)
    case Delete(ev) => Kept(s, ev.Selected())
    case AddContent(c) => WithRecords(s, [c])
    case SetContent(c) => WithRecords(Kept(s, ByMessage(c.fileId, c.messageIndex)), [c])
    case DropGeometry(_, _) => s
    case Note => s
  }

  function FilesAfter(files: map<nat, FileInfo>, op: MasterOp): map<nat, FileInfo> {
    match op
    case AddFile(info, _) => files[info.fileId := info]
    case UpdateFile(info, _) => files[info.fileId := info]
    case Delete(ev) => if ev.WithFiles() then Cache.RemainingFiles(files, ev.Selected()) else files
    case _ => files
  }

  ghost function ApplyMaster(m: Master, op: MasterOp): Master {
    if !Accepts(m, op) then m
    else Master(ContentsAfter(m.contents, op), FilesAfter(m.files, op),
                if op.AddFile? then m.nextFileId + 1 else m.nextFileId, m.log + [EventOf(op)])
  }

  ghost predicate ListOk(s: seq<ContentInfo>) {
    SortedBy(FILE_MESSAGE, s) && UniqueKeys(s) && Cache.AllLive(s)
  }

  lemma ListIsState(s: seq<ContentInfo>)
    requires ListOk(s)
    ensures Cache.Invariant(Cache.State(s, 0, map[]))
  {
    CountDeletedZero(s);
  }

  lemma StateIsList(st: Cache.State)
    requires Cache.Invariant(st) && st.deleteCounter == 0
    ensures ListOk(st.contents)
  {
    CountDeletedZero(st.contents);
  }

  lemma {:induction false} AddingMarksNothing(st: Cache.State, records: seq<ContentInfo>)
    requires st.deleteCounter == 0
    ensures Cache.AddAll(st, records).deleteCounter == 0
  {
    if |records| > 0 {
      AddingMarksNothing(st, records[..|records| - 1]);
    }
  }

  lemma WithRecordsAt(s: seq<ContentInfo>, records: seq<ContentInfo>, k: Key)
    requires ListOk(s) && Cache.AllLive(records) && UniqueKeys(records)
    ensures ListOk(WithRecords(s, records))
    ensures At(WithRecords(s, records), k) == if At(s, k).Some? then At(s, k) else At(records, k)
  {
    var st := Cache.State(s, 0, map[]);
    ListIsState(s);
    Cache.AddAllEffect(st, records);
    AddingMarksNothing(st, records);
    StateIsList(Cache.AddAll(st, records));
    WithAllAt(LiveSet(s), records, k);
    HasMessageAt(s, k);
    HasMessageAt(WithRecords(s, records), k);
    AtIsLive(records, k);
  }

  lemma KeptAt(s: seq<ContentInfo>, sel: Selector, k: Key)
    requires ListOk(s)
    ensures ListOk(Kept(s, sel))
    ensures At(Kept(s, sel), k) == if At(s, k).Some? && sel.Selects(At(s, k).value) then None else At(s, k)
  {
    var kept := Kept(s, sel);
    KeptKeepsOrderAndKeys(FILE_MESSAGE, s, sel);
    KeptHasNoTombstone(s, sel);
    CountDeletedZero(kept);
    KeptAreTheLiveUnselected(s, sel);
    RecordsAt(kept, k);
    HasMessageAt(s, k);
    HasMessageAt(kept, k);
    if At(s, k).Some? && !sel.Selects(At(s, k).value) {
      assert At(s, k).value in kept;
    }
  }

  // What an accepted change does to one message.
  function MasterAfter(entry: Option<ContentInfo>, op: MasterOp, k: Key): Option<ContentInfo> {
    match op
    case AddFile(_, records) => if entry.Some? then entry else At(records, k)
    case UpdateFile(info, records) => if k.fileId == info.fileId then At(records, k) else entry
    case Delete(ev) => if entry.Some? && ev.Kills(entry.value) then None else entry
    case AddContent(c) => if k == KeyOf(c) then Some(c) else entry
    case SetContent(c) => if k == KeyOf(c) then Some(c) else entry
    case DropGeometry(_, _) => entry
    case Note => entry
  }

  lemma SingleAt(c: ContentInfo, k: Key)
    requires !c.deleted
    ensures Cache.AllLive([c]) && UniqueKeys([c]) && At([c], k) == if k == KeyOf(c) then Some(c) else None
  {
    RecordsAt([c], k);
    AtIsLive([c], k);
    assert c in [c];
  }

  lemma ServedAt(fileId: nat, records: seq<ContentInfo>, k: Key)
    requires Cache.ServedFor(fileId, records) && k.fileId != fileId
    ensures At(records, k) == None
  {
    AtIsLive(records, k);
  }

  lemma MasterChanges(m: Master, op: MasterOp, k: Key)
    requires ListOk(m.contents) && Accepts(m, op)
    ensures var m' := ApplyMaster(m, op);
            ListOk(m'.contents) && At(m'.contents, k) == MasterAfter(At(m.contents, k), op, k)
  {
    match op
    case AddFile(info, records) => WithRecordsAt(m.contents, records, k);
    case UpdateFile(info, records) =>
      KeptAt(m.contents, ByFile(info.fileId), k);
      WithRecordsAt(Kept(m.contents, ByFile(info.fileId)), records, k);
      AtIsLive(m.contents, k);
      if k.fileId != info.fileId {
        ServedAt(info.fileId, records, k);
      }
    case Delete(ev) => KeptAt(m.contents, ev.Selected(), k);
    case AddContent(c) =>
      SingleAt(c, k);
      WithRecordsAt(m.contents, [c], k);
    case SetContent(c) =>
      SingleAt(c, k);
      KeptAt(m.contents, ByMessage(c.fileId, c.messageIndex), k);
      WithRecordsAt(Kept(m.contents, ByMessage(c.fileId, c.messageIndex)), [c], k);
      AtIsLive(m.contents, k);
    case _ =>
  }

  // ---- What the rest of the log still brings ----

  ghost predicate PendingRewrite(log: seq<Event>, cursor: nat, k: Key) {
    exists j :: cursor <= j < |log| && log[j].Rewrites(k)
  }

  ghost predicate PendingRecord(log: seq<Event>, cursor: nat, k: Key) {
    exists j :: cursor <= j < |log| && log[j].Records(k)
  }

  ghost predicate PendingKill(log: seq<Event>, cursor: nat, c: ContentInfo) {
    exists j :: cursor <= j < |log| && log[j].Kills(c)
  }

  // A deletion, and after it an event that brings the message again.
  ghost predicate PendingReplacement(log: seq<Event>, cursor: nat, c: ContentInfo) {
    exists j :: cursor <= j < |log| && log[j].Kills(c) && PendingRecord(log, j + 1, KeyOf(c))
  }

  ghost predicate PendingFileUpdate(log: seq<Event>, cursor: nat, f: nat) {
    exists j :: cursor <= j < |log| && log[j] == FileUpdated(f)
  }

  ghost predicate PendingFileRecord(log: seq<Event>, cursor: nat, f: nat) {
    exists j :: cursor <= j < |log| && log[j].RecordsFile(f)
  }

  ghost predicate PendingFileKill(log: seq<Event>, cursor: nat, info: FileInfo) {
    exists j :: cursor <= j < |log| && log[j].KillsFile(info)
  }

  function FileAt(files: map<nat, FileInfo>, f: nat): Option<FileInfo> {
    if f in files then Some(files[f]) else None
  }

  // What someone who has read the log up to the cursor has of a message is right, or an event to
  // come will put it right.
  ghost predicate EntryOk(m: Master, entry: Option<ContentInfo>, cursor: nat, k: Key) {
    var now := At(m.contents, k);
    || now == entry
    || (if entry.None? then PendingRecord(m.log, cursor, k)
        else
          || PendingRewrite(m.log, cursor, k)
          || (if now.Some? then PendingReplacement(m.log, cursor, entry.value)
              else PendingKill(m.log, cursor, entry.value)))
  }

  ghost predicate FileOk(m: Master, entry: Option<FileInfo>, cursor: nat, f: nat) {
    var now := FileAt(m.files, f);
    || now == entry
    || (if entry.None? then PendingFileRecord(m.log, cursor, f)
        else PendingFileUpdate(m.log, cursor, f) || (now.None? && PendingFileKill(m.log, cursor, entry.value)))
  }

  // A deletion that matches a present record is older than it, unless it is that of a geometry.
  ghost predicate KillsAreOld(m: Master) {
    forall j, k :: 0 <= j < |m.log| && !m.log[j].OfGeometry()
                   && At(m.contents, k).Some? && m.log[j].Kills(At(m.contents, k).value) ==>
      PendingRecord(m.log, j + 1, k)
  }

  ghost predicate FileKillsAreOld(m: Master) {
    forall j, f :: 0 <= j < |m.log| && f in m.files && m.log[j].KillsFile(m.files[f]) ==>
      PendingFileRecord(m.log, j + 1, f)
  }

  ghost predicate FileIdsOk(m: Master) {
    forall f :: f in m.files ==> f < m.nextFileId && m.files[f].fileId == f
  }

  ghost predicate MasterInvariant(m: Master) {
    ListOk(m.contents) && FileIdsOk(m) && KillsAreOld(m) && FileKillsAreOld(m)
  }

  // ---- The master keeps it ----

  lemma LaterEventsStay(a: seq<Event>, ev: Event, cursor: nat, k: Key)
    ensures PendingRewrite(a, cursor, k) ==> PendingRewrite(a + [ev], cursor, k)
    ensures PendingRecord(a, cursor, k) ==> PendingRecord(a + [ev], cursor, k)
    ensures cursor <= |a| && ev.Rewrites(k) ==> PendingRewrite(a + [ev], cursor, k)
    ensures cursor <= |a| && ev.Records(k) ==> PendingRecord(a + [ev], cursor, k)
  {
    var b := a + [ev];
    assert b[|a|] == ev;
    assert forall j :: 0 <= j < |a| ==> b[j] == a[j];
  }

  lemma LaterKillsStay(a: seq<Event>, ev: Event, cursor: nat, c: ContentInfo)
    ensures PendingKill(a, cursor, c) ==> PendingKill(a + [ev], cursor, c)
    ensures PendingReplacement(a, cursor, c) ==> PendingReplacement(a + [ev], cursor, c)
    ensures cursor <= |a| && ev.Kills(c) ==> PendingKill(a + [ev], cursor, c)
    ensures PendingKill(a, cursor, c) && ev.Records(KeyOf(c)) ==> PendingReplacement(a + [ev], cursor, c)
    ensures PendingReplacement(a, cursor, c) ==> PendingKill(a, cursor, c)
  {
    var b := a + [ev];
    assert b[|a|] == ev;
    assert forall j :: 0 <= j < |a| ==> b[j] == a[j];
    forall j | 0 <= j < |a| && a[j].Kills(c)
      ensures PendingRecord(a, j + 1, KeyOf(c)) ==> PendingRecord(b, j + 1, KeyOf(c))
    {
      LaterEventsStay(a, ev, j + 1, KeyOf(c));
    }
    if ev.Records(KeyOf(c)) {
      forall j | 0 <= j < |a| && a[j].Kills(c) ensures PendingRecord(b, j + 1, KeyOf(c)) {
        LaterEventsStay(a, ev, j + 1, KeyOf(c));
      }
    }
  }

  lemma LaterFileEventsStay(a: seq<Event>, ev: Event, cursor: nat, f: nat)
    ensures PendingFileUpdate(a, cursor, f) ==> PendingFileUpdate(a + [ev], cursor, f)
    ensures PendingFileRecord(a, cursor, f) ==> PendingFileRecord(a + [ev], cursor, f)
    ensures cursor <= |a| && ev == FileUpdated(f) ==> PendingFileUpdate(a + [ev], cursor, f)
    ensures cursor <= |a| && ev.RecordsFile(f) ==> PendingFileRecord(a + [ev], cursor, f)
  {
    var b := a + [ev];
    assert b[|a|] == ev;
    assert forall j :: 0 <= j < |a| ==> b[j] == a[j];
  }

  lemma LaterFileKillsStay(a: seq<Event>, ev: Event, cursor: nat, info: FileInfo)
    ensures PendingFileKill(a, cursor, info) ==> PendingFileKill(a + [ev], cursor, info)
    ensures cursor <= |a| && ev.KillsFile(info) ==> PendingFileKill(a + [ev], cursor, info)
  {
    var b := a + [ev];
    assert b[|a|] == ev;
    assert forall j :: 0 <= j < |a| ==> b[j] == a[j];
  }

  // An accepted change that touches a message appends an event about it.
  lemma ChangeIsTold(m: Master, op: MasterOp, k: Key)
    requires ListOk(m.contents) && Accepts(m, op)
    ensures var before := At(m.contents, k);
            var now, ev := MasterAfter(before, op, k), EventOf(op);
            now != before ==>
              if before.None? then now.Some? && ev.Records(k)
              else ev.Rewrites(k) || (now.None? && ev.Kills(before.value))
  {
    match op
    case AddFile(info, records) =>
      if k.fileId != info.fileId {
        ServedAt(info.fileId, records, k);
      }
      AtIsLive(records, k);
    case AddContent(c) => AtIsLive(m.contents, k);
    case _ =>
  }

  lemma MasterStepKeepsEntry(m: Master, op: MasterOp, entry: Option<ContentInfo>, cursor: nat, k: Key)
    requires ListOk(m.contents) && cursor <= |m.log| && EntryOk(m, entry, cursor, k)
    requires entry.Some? ==> KeyOf(entry.value) == k
    ensures EntryOk(ApplyMaster(m, op), entry, cursor, k)
  {
    if Accepts(m, op) {
      MasterChanges(m, op, k);
      ChangeIsTold(m, op, k);
      LaterEventsStay(m.log, EventOf(op), cursor, k);
      if entry.Some? {
        LaterKillsStay(m.log, EventOf(op), cursor, entry.value);
      }
    }
  }

  lemma FileChangeIsTold(m: Master, op: MasterOp, f: nat)
    requires FileIdsOk(m) && Accepts(m, op)
    ensures var before, now, ev := FileAt(m.files, f), FileAt(FilesAfter(m.files, op), f), EventOf(op);
            now != before ==>
              if before.None? then now.Some? && ev.RecordsFile(f)
              else ev == FileUpdated(f) || (now.None? && ev.KillsFile(before.value))
  {
  }

  lemma MasterStepKeepsFile(m: Master, op: MasterOp, entry: Option<FileInfo>, cursor: nat, f: nat)
    requires FileIdsOk(m) && cursor <= |m.log| && FileOk(m, entry, cursor, f)
    requires entry.Some? ==> f < m.nextFileId
    ensures FileOk(ApplyMaster(m, op), entry, cursor, f)
  {
    if Accepts(m, op) {
      FileChangeIsTold(m, op, f);
      LaterFileEventsStay(m.log, EventOf(op), cursor, f);
      if entry.Some? {
        LaterFileKillsStay(m.log, EventOf(op), cursor, entry.value);
      }
    }
  }

  lemma MasterStepKeepsKills(m: Master, op: MasterOp, j: nat, k: Key)
    requires MasterInvariant(m) && Accepts(m, op)
    requires var m' := ApplyMaster(m, op);
             && j < |m'.log| && !m'.log[j].OfGeometry()
             && At(m'.contents, k).Some? && m'.log[j].Kills(At(m'.contents, k).value)
    ensures PendingRecord(ApplyMaster(m, op).log, j + 1, k)
  {
    var n := |m.log|;
    MasterChanges(m, op, k);
    ChangeIsTold(m, op, k);
    LaterEventsStay(m.log, EventOf(op), j + 1, k);
    AtIsLive(m.contents, k);
    if j == n {
      SurvivorIsNotKilled(m, op, k);
    }
  }

  lemma SurvivorIsNotKilled(m: Master, op: MasterOp, k: Key)
    requires ListOk(m.contents) && Accepts(m, op)
    ensures var now := MasterAfter(At(m.contents, k), op, k);
            now.Some? && !EventOf(op).OfGeometry() ==> !EventOf(op).Kills(now.value)
  {
  }

  lemma MasterStepKeepsFileKills(m: Master, op: MasterOp, j: nat, f: nat)
    requires MasterInvariant(m) && Accepts(m, op)
    requires var m' := ApplyMaster(m, op); j < |m'.log| && f in m'.files && m'.log[j].KillsFile(m'.files[f])
    ensures PendingFileRecord(ApplyMaster(m, op).log, j + 1, f)
  {
    FileChangeIsTold(m, op, f);
    LaterFileEventsStay(m.log, EventOf(op), j + 1, f);
  }

  lemma MasterStepKeepsMaster(m: Master, op: MasterOp)
    requires MasterInvariant(m)
    ensures MasterInvariant(ApplyMaster(m, op))
  {
    if Accepts(m, op) {
      var m' := ApplyMaster(m, op);
      MasterChanges(m, op, Key(0, 0));
      forall j, k | 0 <= j < |m'.log| && !m'.log[j].OfGeometry()
                    && At(m'.contents, k).Some? && m'.log[j].Kills(At(m'.contents, k).value)
        ensures PendingRecord(m'.log, j + 1, k)
      {
        MasterStepKeepsKills(m, op, j, k);
      }
      forall j, f | 0 <= j < |m'.log| && f in m'.files && m'.log[j].KillsFile(m'.files[f])
        ensures PendingFileRecord(m'.log, j + 1, f)
      {
        MasterStepKeepsFileKills(m, op, j, f);
      }
    }
  }

  // ---- The protocol ----

  // The events before `end` were fetched when the log had `length` events; they carry what the
  // master had then.
  datatype Page = Page(contents: seq<ContentInfo>, files: map<nat, FileInfo>, length: nat, end: nat)

  datatype Phase = FilesMissing | ContentsMissing | Ready

  // What the replay got wrong, of which the code knows nothing: `lost` are on one side only, and
  // `stale` have an old record in the cache.
  datatype Errors<!T> = Errors(lost: iset<T>, stale: iset<T>)

  datatype System = System(master: Master, cache: Cache.State, cursor: nat, page: Page, phase: Phase,
                           contents: Errors<Key>, files: Errors<nat>)

  datatype Step =
    | MasterStep(op: MasterOp)
    | TakeCursor      // the start of init or reloadData
    | LoadFiles
    | LoadContents
    | FetchPage(maxEvents: nat)
    | Process(fileOk: bool, contentOk: bool)  // one event; reading from the master may fail
    | Compact(shutdown: bool)

  const INITIAL: System :=
    System(Master([], map[], 0, []), Cache.State([], 0, map[]), 0, Page([], map[], 0, 0), Ready,
           Errors(iset{}, iset{}), Errors(iset{}, iset{}))

  // The event with what its handler gets. Additions carry what the page has, and are read from
  // the master only if the page has nothing; updates are always read.
  function Handled(y: System, ev: Event, fileOk: bool, contentOk: bool): Cache.Event {
    match ev
    case FileAdded(f, withContents) =>
      if f in y.page.files then
        Cache.FileAdded(Some(y.page.files[f]), if withContents then FileRecords(y.page.contents, f) else [])
      else if fileOk && f in y.master.files then
        Cache.FileAdded(Some(y.master.files[f]),
                        if withContents && contentOk then FileRecords(y.master.contents, f) else [])
      else Cache.FileAdded(None, [])
    case FileUpdated(f) =>
      if fileOk && f in y.master.files then
        Cache.FileUpdated(f, Some(y.master.files[f]),
                          if contentOk then Some(FileRecords(y.master.contents, f)) else None)
      else Cache.FileUpdated(f, None, None)
    case ListDeleted(sel, withFiles) => Cache.ListDeleted(sel, withFiles)
    case GenerationListDeleted(p) => Cache.GenerationListDeleted(p)
    case ContentAdded(k) =>
      Cache.ContentAdded(k.fileId, k.messageIndex,
                         if At(y.page.contents, k).Some? then At(y.page.contents, k) else Read(y, k, contentOk))
    case ContentUpdated(k) => Cache.ContentUpdated(k.fileId, k.messageIndex, Read(y, k, contentOk))
    case ContentDeleted(k) => Cache.ContentDeleted(k.fileId, k.messageIndex)
    case Other => Cache.Compact(true)  // nothing is done
  }

  function Read(y: System, k: Key, ok: bool): Option<ContentInfo> {
    if ok then At(y.master.contents, k) else None
  }

  ghost function Exec(y: System, step: Step): System {
    match step
    case MasterStep(op) =>
      var m := ApplyMaster(y.master, op);
      y.(master := m, contents := AfterMaster(y, m), files := FilesAfterMaster(y, m))
    case TakeCursor =>
      var n := |y.master.log|;
      y.(cursor := n, page := Page(y.master.contents, y.master.files, n, n), phase := FilesMissing)
    case LoadFiles =>
      if y.phase != FilesMissing then y
      else y.(cache := y.cache.(files := y.master.files), phase := ContentsMissing,
              files := Errors(iset{}, iset{}))
    case LoadContents =>
      if y.phase != ContentsMissing then y
      else
        y.(cache := Cache.Apply(y.cache, Cache.Reload(y.cache.files, y.master.contents)), phase := Ready,
           contents := Errors(iset{}, iset{}))
    case FetchPage(maxEvents) =>
      if y.phase != Ready || y.cursor != y.page.end then y
      else
        var n := |y.master.log|;
        var end := if y.cursor + maxEvents <= n then y.cursor + maxEvents else n;
        y.(page := Page(y.master.contents, y.master.files, n, end))
    case Process(fileOk, contentOk) =>
      if y.phase != Ready || y.cursor >= y.page.end || y.page.end > |y.master.log| then y
      else
        var ev := y.master.log[y.cursor];
        y.(cache := Cache.Apply(y.cache, Handled(y, ev, fileOk, contentOk)), cursor := y.cursor + 1,
           contents := AfterEvent(y, ev, fileOk, contentOk), files := FileErrorsAfter(y, ev, fileOk))
    case Compact(shutdown) =>
      if y.phase != Ready then y else y.(cache := Cache.Apply(y.cache, Cache.Compact(shutdown)))
  }

  ghost function Run(y: System, steps: seq<Step>): System {
    if |steps| == 0 then y else Exec(Run(y, steps[..|steps| - 1]), steps[|steps| - 1])
  }

  // ---- When a message goes wrong ----

  // What the handler gets of the message.
  function Gets(y: System, ev: Event, fileOk: bool, contentOk: bool, k: Key): Option<ContentInfo> {
    match ev
    case FileAdded(f, _) =>
      if f in y.page.files then At(y.page.contents, k) else Read(y, k, fileOk && contentOk && f in y.master.files)
    case FileUpdated(f) => Read(y, k, fileOk && contentOk && f in y.master.files)
    case ContentAdded(_) => if At(y.page.contents, k).Some? then At(y.page.contents, k) else Read(y, k, contentOk)
    case _ => Read(y, k, contentOk)
  }

  // The handler drops the record the cache has of the message, and takes the one it gets. For a
  // file this needs the file on both sides.
  predicate Replaces(y: System, ev: Event, fileOk: bool, k: Key) {
    || ev == ContentUpdated(k)
    || (ev == FileUpdated(k.fileId) && fileOk && k.fileId in y.master.files && k.fileId in y.cache.files)
  }

  // The cache takes what the handler gets of the message.
  predicate Takes(y: System, ev: Event, fileOk: bool, k: Key) {
    ev.Records(k) && (At(y.cache.contents, k).None? || Replaces(y, ev, fileOk, k))
  }

  predicate Killed(y: System, ev: Event, k: Key) {
    At(y.cache.contents, k).Some? && ev.Kills(At(y.cache.contents, k).value)
  }

  // Nothing comes, or it comes and CONTENT_ADDED meets a tombstone of the message.
  ghost predicate ComesToNothing(y: System, ev: Event, fileOk: bool, contentOk: bool, k: Key) {
    Gets(y, ev, fileOk, contentOk, k).None? || Cache.LosesRecord(y.cache, Handled(y, ev, fileOk, contentOk))
  }

  // The record the master has does not arrive. Only if the page has the file without the record,
  // it is younger than the page, and another event tells it.
  ghost predicate Missed(y: System, ev: Event, fileOk: bool, contentOk: bool, k: Key) {
    && At(y.master.contents, k).Some? && Takes(y, ev, fileOk, k) && ComesToNothing(y, ev, fileOk, contentOk, k)
    && !(ev.FileAdded? && k.fileId in y.page.files)
  }

  // A deletion that did not concern the record of the master hits that of the cache.
  ghost predicate KilledAlive(y: System, ev: Event, k: Key) {
    At(y.master.contents, k).Some? && Killed(y, ev, k) && (ev.OfGeometry() || k in y.contents.stale)
  }

  // An update of a file leaves the record in place because the file cannot be read or is not
  // cached; the master has none, and no deletion to come matches it.
  ghost predicate UpdateMissed(y: System, ev: Event, fileOk: bool, k: Key) {
    && ev == FileUpdated(k.fileId) && !Replaces(y, ev, fileOk, k)
    && At(y.cache.contents, k).Some? && At(y.master.contents, k).None?
    && !PendingKill(y.master.log, y.cursor + 1, At(y.cache.contents, k).value)
  }

  // The same when the master has a record, which the update may have changed.
  ghost predicate LeftStale(y: System, ev: Event, fileOk: bool, k: Key) {
    && ev == FileUpdated(k.fileId) && !Replaces(y, ev, fileOk, k)
    && At(y.cache.contents, k).Some? && At(y.master.contents, k).Some?
  }

  ghost predicate Restored(y: System, ev: Event, fileOk: bool, contentOk: bool, k: Key) {
    || Killed(y, ev, k) || Replaces(y, ev, fileOk, k)
    || (Takes(y, ev, fileOk, k) && !ComesToNothing(y, ev, fileOk, contentOk, k))
  }

  ghost function AfterEvent(y: System, ev: Event, fileOk: bool, contentOk: bool): Errors<Key> {
    Errors((iset k |
              || Missed(y, ev, fileOk, contentOk, k)
              || KilledAlive(y, ev, k)
              || UpdateMissed(y, ev, fileOk, k)
              || (k in y.contents.lost && !Restored(y, ev, fileOk, contentOk, k))),
           (iset k |
              || LeftStale(y, ev, fileOk, k)
              || (k in y.contents.stale && !Killed(y, ev, k) && !Replaces(y, ev, fileOk, k))))
  }

  // A missing record that the master deletes is not missed any more, and a surplus one that it
  // adds anew is an old record.
  ghost function AfterMaster(y: System, m: Master): Errors<Key> {
    Errors((iset k | k in y.contents.lost && (At(m.contents, k).Some? <==> At(y.master.contents, k).Some?)),
           (iset k | k in y.contents.stale ||
                     (k in y.contents.lost && At(m.contents, k).Some? && At(y.master.contents, k).None?)))
  }

  // ---- When a file goes wrong ----

  predicate FileKilled(y: System, ev: Event, f: nat) {
    f in y.cache.files && ev.KillsFile(y.cache.files[f])
  }

  predicate FileArrives(y: System, ev: Event, fileOk: bool, f: nat) {
    && ev.RecordsFile(f)
    && ((ev.FileAdded? && f in y.page.files) || (fileOk && f in y.master.files))
  }

  predicate FileTaken(y: System, ev: Event, fileOk: bool, f: nat) {
    f !in y.cache.files && FileArrives(y, ev, fileOk, f)
  }

  ghost predicate FileMissed(y: System, ev: Event, fileOk: bool, f: nat) {
    f in y.master.files && f !in y.cache.files && ev.RecordsFile(f) && !FileArrives(y, ev, fileOk, f)
  }

  ghost predicate FileKilledAlive(y: System, ev: Event, f: nat) {
    f in y.master.files && FileKilled(y, ev, f) && f in y.files.stale
  }

  // An update is read when the file is gone, and no deletion to come matches what the cache has.
  ghost predicate FileUpdateMissed(y: System, ev: Event, f: nat) {
    && ev == FileUpdated(f) && f in y.cache.files && f !in y.master.files
    && !PendingFileKill(y.master.log, y.cursor + 1, y.cache.files[f])
  }

  predicate FileUpdateArrives(y: System, ev: Event, fileOk: bool, f: nat) {
    ev == FileUpdated(f) && fileOk && f in y.master.files
  }

  ghost function FileErrorsAfter(y: System, ev: Event, fileOk: bool): Errors<nat> {
    Errors((iset f |
              || FileMissed(y, ev, fileOk, f)
              || FileKilledAlive(y, ev, f)
              || FileUpdateMissed(y, ev, f)
              || (f in y.files.lost && !FileKilled(y, ev, f) && !FileTaken(y, ev, fileOk, f))),
           (iset f |
              || (ev == FileUpdated(f) && !fileOk && f in y.cache.files && f in y.master.files)
              || (f in y.files.stale && !FileKilled(y, ev, f) && !FileUpdateArrives(y, ev, fileOk, f))))
  }

  ghost function FilesAfterMaster(y: System, m: Master): Errors<nat> {
    y.files.(lost := iset f | f in y.files.lost && (f in y.master.files ==> f in m.files))
  }

  // ---- The invariant ----

  ghost predicate FilesBelow(files: map<nat, FileInfo>, next: nat) {
    forall f :: f in files ==> f < next && files[f].fileId == f
  }

  ghost predicate PageOk(y: System) {
    && y.cursor <= y.page.end <= y.page.length <= |y.master.log|
    && ListOk(y.page.contents) && FilesBelow(y.page.files, y.master.nextFileId)
    && (forall k :: EntryOk(y.master, At(y.page.contents, k), y.page.length, k))
    && (forall f :: FileOk(y.master, FileAt(y.page.files, f), y.page.length, f))
  }

  ghost predicate ContentsOk(y: System) {
    && (forall k :: k in y.contents.lost ==> (At(y.cache.contents, k).Some? <==> At(y.master.contents, k).None?))
    && (forall k :: k in y.contents.stale ==> At(y.cache.contents, k).Some?)
    && (forall k :: k !in y.contents.lost && k !in y.contents.stale ==>
                      EntryOk(y.master, At(y.cache.contents, k), y.cursor, k))
  }

  ghost predicate FilesOk(y: System) {
    && FilesBelow(y.cache.files, y.master.nextFileId)
    && (forall f :: f in y.files.lost ==> (f in y.cache.files <==> f !in y.master.files))
    && (forall f :: f in y.files.stale ==> f in y.cache.files)
    && (forall f :: f !in y.files.lost && f !in y.files.stale ==>
                      FileOk(y.master, FileAt(y.cache.files, f), y.cursor, f))
  }

  ghost predicate Invariant(y: System) {
    && MasterInvariant(y.master) && Cache.Invariant(y.cache) && PageOk(y)
    && (y.phase == Ready ==> ContentsOk(y))
    && (y.phase != FilesMissing ==> FilesOk(y))
  }

  // ---- One event keeps a message right ----

  lemma HandledIsServed(y: System, ev: Event, fileOk: bool, contentOk: bool)
    requires Invariant(y)
    ensures Served(Handled(y, ev, fileOk, contentOk))
  {
    match ev
    case FileAdded(f, _) =>
      FileRecordsServed(y.page.contents, f);
      FileRecordsServed(y.master.contents, f);
    case FileUpdated(f) => FileRecordsServed(y.master.contents, f);
    case ContentAdded(k) =>
      AtIsLive(y.page.contents, k);
      AtIsLive(y.master.contents, k);
    case ContentUpdated(k) => AtIsLive(y.master.contents, k);
    case _ =>
  }

  // What passing one event leaves pending.
  lemma PassEvent(log: seq<Event>, c: nat, k: Key)
    requires c < |log|
    ensures PendingRewrite(log, c, k) && !log[c].Rewrites(k) ==> PendingRewrite(log, c + 1, k)
    ensures PendingRecord(log, c, k) && !log[c].Records(k) ==> PendingRecord(log, c + 1, k)
    ensures PendingRewrite(log, c + 1, k) ==> PendingRecord(log, c + 1, k)
  {
  }

  lemma LaterRecord(log: seq<Event>, c: nat, d: nat, k: Key)
    requires c <= d && PendingRecord(log, d, k)
    ensures PendingRecord(log, c, k)
  {
  }

  lemma PassKill(log: seq<Event>, c: nat, v: ContentInfo)
    requires c < |log|
    ensures PendingKill(log, c, v) && !log[c].Kills(v) ==> PendingKill(log, c + 1, v)
    ensures PendingReplacement(log, c, v) && !log[c].Kills(v) ==> PendingReplacement(log, c + 1, v)
    ensures PendingReplacement(log, c, v) && log[c].Kills(v) ==> PendingRecord(log, c + 1, KeyOf(v))
  {
    if PendingReplacement(log, c, v) {
      var j :| c <= j < |log| && log[j].Kills(v) && PendingRecord(log, j + 1, KeyOf(v));
      LaterRecord(log, c + 1, j + 1, KeyOf(v));
    }
  }

  // What is right for a reader of more of the log is right for one who has read less.
  lemma ReadLess(m: Master, entry: Option<ContentInfo>, c: nat, d: nat, k: Key)
    requires c <= d && EntryOk(m, entry, d, k)
    ensures EntryOk(m, entry, c, k)
  {
  }

  lemma EventPasses(m: Master, entry: Option<ContentInfo>, c: nat, k: Key)
    requires c < |m.log| && EntryOk(m, entry, c, k)
    requires entry.Some? ==> !m.log[c].Rewrites(k) && !m.log[c].Kills(entry.value)
    requires entry.None? ==> !m.log[c].Records(k)
    ensures EntryOk(m, entry, c + 1, k)
  {
    PassEvent(m.log, c, k);
    if entry.Some? {
      PassKill(m.log, c, entry.value);
    }
  }

  lemma KilledIsRecorded(m: Master, entry: Option<ContentInfo>, c: nat, k: Key)
    requires KillsAreOld(m) && c < |m.log| && EntryOk(m, entry, c, k)
    requires entry.Some? && KeyOf(entry.value) == k && m.log[c].Kills(entry.value) && !m.log[c].Rewrites(k)
    requires !m.log[c].OfGeometry()
    ensures EntryOk(m, None, c + 1, k)
  {
    PassEvent(m.log, c, k);
    PassKill(m.log, c, entry.value);
  }

  // What the handler of the next event makes of a message.
  ghost function NextEntry(y: System, fileOk: bool, contentOk: bool, k: Key): Option<ContentInfo>
    requires y.cursor < |y.master.log|
  {
    var handled := Handled(y, y.master.log[y.cursor], fileOk, contentOk);
    After(At(y.cache.contents, k), y.cache.files, Cache.LosesRecord(y.cache, handled), handled, k)
  }

  ghost predicate CanProcess(y: System) {
    Invariant(y) && y.phase == Ready && y.cursor < y.page.end
  }

  ghost function NextIs(y: System, fileOk: bool, contentOk: bool, k: Key): Option<ContentInfo>
    requires y.cursor < |y.master.log|
  {
    var ev := y.master.log[y.cursor];
    if Takes(y, ev, fileOk, k) then
      if ComesToNothing(y, ev, fileOk, contentOk, k) then None else Gets(y, ev, fileOk, contentOk, k)
    else if Killed(y, ev, k) then None
    else At(y.cache.contents, k)
  }

  ghost predicate BothUnique(y: System) {
    UniqueKeys(y.page.contents) && UniqueKeys(y.master.contents)
  }

  // What FILE_ADDED brings of a message.
  lemma FileAddedBrings(y: System, fileOk: bool, contentOk: bool, k: Key)
    requires BothUnique(y) && y.cursor < |y.master.log| && y.master.log[y.cursor].FileAdded?
    ensures var ev := y.master.log[y.cursor];
            var handled, gets := Handled(y, ev, fileOk, contentOk), Gets(y, ev, fileOk, contentOk, k);
            && handled.FileAdded?
            && (if handled.file.None? then ev.Records(k) ==> gets.None?
                else At(handled.records, k) == if ev.Records(k) then gets else None)
  {
    var f := y.master.log[y.cursor].fileId;
    if f in y.page.files {
      FileRecordAt(y.page.contents, f, k);
    } else {
      FileRecordAt(y.master.contents, f, k);
    }
  }

  lemma FileAddedIs(y: System, fileOk: bool, contentOk: bool, k: Key)
    requires BothUnique(y) && y.cursor < |y.master.log| && y.master.log[y.cursor].FileAdded?
    ensures NextEntry(y, fileOk, contentOk, k) == NextIs(y, fileOk, contentOk, k)
  {
    FileAddedBrings(y, fileOk, contentOk, k);
  }

  lemma FileUpdatedIs(y: System, fileOk: bool, contentOk: bool, k: Key)
    requires BothUnique(y) && y.cursor < |y.master.log| && y.master.log[y.cursor].FileUpdated?
    ensures NextEntry(y, fileOk, contentOk, k) == NextIs(y, fileOk, contentOk, k)
  {
    FileRecordAt(y.master.contents, y.master.log[y.cursor].fileId, k);
  }

  lemma OtherEventIs(y: System, fileOk: bool, contentOk: bool, k: Key)
    requires y.cursor < |y.master.log|
    requires !y.master.log[y.cursor].FileAdded? && !y.master.log[y.cursor].FileUpdated?
    ensures NextEntry(y, fileOk, contentOk, k) == NextIs(y, fileOk, contentOk, k)
  {
    AtIsLive(y.cache.contents, k);
  }

  // The handlers in terms of what they get of a message.
  lemma NextEntryIs(y: System, fileOk: bool, contentOk: bool, k: Key)
    requires BothUnique(y) && y.cursor < |y.master.log|
    ensures NextEntry(y, fileOk, contentOk, k) == NextIs(y, fileOk, contentOk, k)
  {
    match y.master.log[y.cursor]
    case FileAdded(_, _) => FileAddedIs(y, fileOk, contentOk, k);
    case FileUpdated(_) => FileUpdatedIs(y, fileOk, contentOk, k);
    case _ => OtherEventIs(y, fileOk, contentOk, k);
  }

  lemma TakenIsOk(y: System, fileOk: bool, contentOk: bool, k: Key)
    requires PageOk(y) && y.cursor < y.page.end && Takes(y, y.master.log[y.cursor], fileOk, k)
    requires !Missed(y, y.master.log[y.cursor], fileOk, contentOk, k)
    ensures EntryOk(y.master, NextIs(y, fileOk, contentOk, k), y.cursor + 1, k)
  {
    ReadLess(y.master, At(y.page.contents, k), y.cursor + 1, y.page.length, k);
  }

  lemma KilledIsOk(y: System, k: Key)
    requires CanProcess(y) && Killed(y, y.master.log[y.cursor], k)
    requires !KilledAlive(y, y.master.log[y.cursor], k)
    ensures EntryOk(y.master, None, y.cursor + 1, k)
  {
    if At(y.master.contents, k).Some? {
      AtIsLive(y.cache.contents, k);
      KilledIsRecorded(y.master, At(y.cache.contents, k), y.cursor, k);
    }
  }

  // One event keeps every message right or repairable that does not become lost or stale.
  lemma ProcessKeepsEntry(y: System, fileOk: bool, contentOk: bool, k: Key)
    requires CanProcess(y)
    requires var errors := AfterEvent(y, y.master.log[y.cursor], fileOk, contentOk);
             k !in errors.lost && k !in errors.stale
    ensures EntryOk(y.master, NextIs(y, fileOk, contentOk, k), y.cursor + 1, k)
  {
    var ev := y.master.log[y.cursor];
    if Takes(y, ev, fileOk, k) {
      TakenIsOk(y, fileOk, contentOk, k);
    } else if Killed(y, ev, k) {
      KilledIsOk(y, k);
    } else if ev != FileUpdated(k.fileId) {
      EventPasses(y.master, At(y.cache.contents, k), y.cursor, k);
    }
  }

  // What is lost is on exactly one side, and what is stale is in the cache.
  lemma ProcessKeepsErrors(y: System, fileOk: bool, contentOk: bool, k: Key)
    requires CanProcess(y)
    ensures var errors := AfterEvent(y, y.master.log[y.cursor], fileOk, contentOk);
            && (k in errors.lost ==>
                  (NextIs(y, fileOk, contentOk, k).Some? <==> At(y.master.contents, k).None?))
            && (k in errors.stale ==> NextIs(y, fileOk, contentOk, k).Some?)
  {
  }

  // ---- One event keeps a file right ----

  function FilesAfterEvent(files: map<nat, FileInfo>, ev: Cache.Event): map<nat, FileInfo> {
    match ev
    case FileAdded(file, _) =>
      if file.None? || file.value.fileId in files then files else files[file.value.fileId := file.value]
    case FileUpdated(f, file, _) => if file.None? then files else files[f := file.value]
    case ListDeleted(sel, withFiles) => if withFiles then Cache.RemainingFiles(files, sel) else files
    case GenerationListDeleted(p) => Cache.RemainingFiles(files, ByProducer(p))
    case Clear => map[]
    case Reload(loaded, _) => loaded
    case _ => files
  }

  lemma FilesAre(st: Cache.State, ev: Cache.Event)
    requires Cache.Invariant(st) && Served(ev)
    ensures Cache.Apply(st, ev).files == FilesAfterEvent(st.files, ev)
  {
    if Cache.LosesRecord(st, ev) {
      Cache.ContentAddedEffect(st, ev.fileId, ev.messageIndex, ev.content);
    } else {
      Cache.StepRefinesPlain(st, ev);
      assert Cache.View(Cache.Apply(st, ev)).files == Cache.PlainApply(Cache.View(st), ev).files;
    }
  }

  lemma PassFileEvent(log: seq<Event>, c: nat, f: nat)
    requires c < |log|
    ensures PendingFileUpdate(log, c, f) && log[c] != FileUpdated(f) ==> PendingFileUpdate(log, c + 1, f)
    ensures PendingFileRecord(log, c, f) && !log[c].RecordsFile(f) ==> PendingFileRecord(log, c + 1, f)
    ensures PendingFileUpdate(log, c + 1, f) ==> PendingFileRecord(log, c + 1, f)
  {
  }

  lemma PassFileKill(log: seq<Event>, c: nat, info: FileInfo)
    requires c < |log|
    ensures PendingFileKill(log, c, info) && !log[c].KillsFile(info) ==> PendingFileKill(log, c + 1, info)
  {
  }

  lemma ReadLessOfFile(m: Master, entry: Option<FileInfo>, c: nat, d: nat, f: nat)
    requires c <= d && FileOk(m, entry, d, f)
    ensures FileOk(m, entry, c, f)
  {
  }

  lemma FileEventPasses(m: Master, entry: Option<FileInfo>, c: nat, f: nat)
    requires c < |m.log| && FileOk(m, entry, c, f)
    requires entry.Some? ==> m.log[c] != FileUpdated(f) && !m.log[c].KillsFile(entry.value)
    requires entry.None? ==> !m.log[c].RecordsFile(f)
    ensures FileOk(m, entry, c + 1, f)
  {
    PassFileEvent(m.log, c, f);
    if entry.Some? {
      PassFileKill(m.log, c, entry.value);
    }
  }

  lemma KilledFileIsRecorded(m: Master, entry: Option<FileInfo>, c: nat, f: nat)
    requires FileKillsAreOld(m) && c < |m.log| && FileOk(m, entry, c, f)
    requires entry.Some? && m.log[c].KillsFile(entry.value)
    ensures FileOk(m, None, c + 1, f)
  {
    PassFileEvent(m.log, c, f);
  }

  // What a handler makes of one file.
  function NextFileIs(y: System, fileOk: bool, f: nat): Option<FileInfo>
    requires y.cursor < |y.master.log|
  {
    var ev := y.master.log[y.cursor];
    if FileUpdateArrives(y, ev, fileOk, f) then Some(y.master.files[f])
    else if FileTaken(y, ev, fileOk, f) then
      if f in y.page.files then Some(y.page.files[f]) else Some(y.master.files[f])
    else if FileKilled(y, ev, f) then None
    else FileAt(y.cache.files, f)
  }

  lemma NextFileEntryIs(y: System, fileOk: bool, contentOk: bool, f: nat)
    requires CanProcess(y)
    ensures var handled := Handled(y, y.master.log[y.cursor], fileOk, contentOk);
            FileAt(FilesAfterEvent(y.cache.files, handled), f) == NextFileIs(y, fileOk, f)
  {
  }

  lemma ProcessKeepsFile(y: System, fileOk: bool, f: nat)
    requires CanProcess(y)
    requires var errors := FileErrorsAfter(y, y.master.log[y.cursor], fileOk);
             f !in errors.lost && f !in errors.stale
    ensures FileOk(y.master, NextFileIs(y, fileOk, f), y.cursor + 1, f)
  {
    var entry, ev := FileAt(y.cache.files, f), y.master.log[y.cursor];
    if FileKilled(y, ev, f) {
      if f in y.master.files {
        KilledFileIsRecorded(y.master, entry, y.cursor, f);
      }
    } else if ev.RecordsFile(f) && entry.None? {
      ReadLessOfFile(y.master, FileAt(y.page.files, f), y.cursor + 1, y.page.length, f);
    } else if ev != FileUpdated(f) {
      FileEventPasses(y.master, entry, y.cursor, f);
    }
  }

  lemma ProcessKeepsFileErrors(y: System, fileOk: bool, f: nat)
    requires CanProcess(y)
    ensures var errors := FileErrorsAfter(y, y.master.log[y.cursor], fileOk);
            && (f in errors.lost ==> (NextFileIs(y, fileOk, f).Some? <==> f !in y.master.files))
            && (f in errors.stale ==> NextFileIs(y, fileOk, f).Some?)
  {
  }

  // ---- Every step keeps the invariant ----

  lemma MasterStepKeepsPage(y: System, op: MasterOp)
    requires Invariant(y)
    ensures PageOk(Exec(y, MasterStep(op)))
  {
    var m' := ApplyMaster(y.master, op);
    forall k ensures EntryOk(m', At(y.page.contents, k), y.page.length, k) {
      AtIsLive(y.page.contents, k);
      MasterStepKeepsEntry(y.master, op, At(y.page.contents, k), y.page.length, k);
    }
    forall f ensures FileOk(m', FileAt(y.page.files, f), y.page.length, f) {
      MasterStepKeepsFile(y.master, op, FileAt(y.page.files, f), y.page.length, f);
    }
  }

  lemma MasterStepKeepsContents(y: System, op: MasterOp)
    requires Invariant(y) && y.phase == Ready
    ensures ContentsOk(Exec(y, MasterStep(op)))
  {
    var y' := Exec(y, MasterStep(op));
    forall k | k !in y'.contents.lost && k !in y'.contents.stale
      ensures EntryOk(y'.master, At(y.cache.contents, k), y.cursor, k)
    {
      if k !in y.contents.lost {
        AtIsLive(y.cache.contents, k);
        MasterStepKeepsEntry(y.master, op, At(y.cache.contents, k), y.cursor, k);
      }
    }
  }

  lemma MasterStepKeepsFiles(y: System, op: MasterOp)
    requires Invariant(y) && y.phase != FilesMissing
    ensures FilesOk(Exec(y, MasterStep(op)))
  {
    var y' := Exec(y, MasterStep(op));
    forall f | f !in y'.files.lost && f !in y'.files.stale
      ensures FileOk(y'.master, FileAt(y.cache.files, f), y.cursor, f)
    {
      if f !in y.files.lost {
        MasterStepKeepsFile(y.master, op, FileAt(y.cache.files, f), y.cursor, f);
      }
    }
  }

  lemma ProcessedAre(y: System, fileOk: bool, contentOk: bool)
    requires CanProcess(y)
    ensures var handled := Handled(y, y.master.log[y.cursor], fileOk, contentOk);
            forall k :: At(Cache.Apply(y.cache, handled).contents, k) == NextIs(y, fileOk, contentOk, k)
  {
    var handled := Handled(y, y.master.log[y.cursor], fileOk, contentOk);
    HandledIsServed(y, y.master.log[y.cursor], fileOk, contentOk);
    forall k ensures At(Cache.Apply(y.cache, handled).contents, k) == NextIs(y, fileOk, contentOk, k) {
      EntryAfter(y.cache, handled, k);
      NextEntryIs(y, fileOk, contentOk, k);
    }
  }

  lemma ProcessKeepsContents(y: System, fileOk: bool, contentOk: bool)
    requires CanProcess(y)
    ensures ContentsOk(Exec(y, Process(fileOk, contentOk)))
  {
    var y' := Exec(y, Process(fileOk, contentOk));
    ProcessedAre(y, fileOk, contentOk);
    forall k
      ensures k in y'.contents.lost ==> (At(y'.cache.contents, k).Some? <==> At(y'.master.contents, k).None?)
      ensures k in y'.contents.stale ==> At(y'.cache.contents, k).Some?
    {
      ProcessKeepsErrors(y, fileOk, contentOk, k);
    }
    forall k | k !in y'.contents.lost && k !in y'.contents.stale
      ensures EntryOk(y'.master, At(y'.cache.contents, k), y'.cursor, k)
    {
      ProcessKeepsEntry(y, fileOk, contentOk, k);
    }
  }

  lemma FilesStayBelow(y: System, fileOk: bool, contentOk: bool)
    requires PageOk(y) && FileIdsOk(y.master) && FilesBelow(y.cache.files, y.master.nextFileId)
    requires y.cursor < |y.master.log|
    ensures FilesBelow(FilesAfterEvent(y.cache.files, Handled(y, y.master.log[y.cursor], fileOk, contentOk)),
        y.master.nextFileId)
  {
  }

  lemma ProcessKeepsFiles(y: System, fileOk: bool, contentOk: bool)
    requires CanProcess(y)
    ensures FilesOk(Exec(y, Process(fileOk, contentOk)))
  {
    var y', ev := Exec(y, Process(fileOk, contentOk)), y.master.log[y.cursor];
    HandledIsServed(y, ev, fileOk, contentOk);
    FilesAre(y.cache, Handled(y, ev, fileOk, contentOk));
    FilesStayBelow(y, fileOk, contentOk);
    forall f
      ensures f in y'.files.lost ==> (f in y'.cache.files <==> f !in y'.master.files)
      ensures f in y'.files.stale ==> f in y'.cache.files
      ensures f !in y'.files.lost && f !in y'.files.stale ==>
                FileOk(y'.master, FileAt(y'.cache.files, f), y'.cursor, f)
    {
      NextFileEntryIs(y, fileOk, contentOk, f);
      ProcessKeepsFileErrors(y, fileOk, f);
      if f !in y'.files.lost && f !in y'.files.stale {
        ProcessKeepsFile(y, fileOk, f);
      }
    }
  }

  lemma LoadingAnswers(st: Cache.State, contents: seq<ContentInfo>)
    requires Cache.Invariant(st) && ListOk(contents)
    ensures var st' := Cache.Apply(st, Cache.Reload(st.files, contents));
            Cache.Invariant(st') && st'.files == st.files && forall k :: At(st'.contents, k) == At(contents, k)
  {
    var ev := Cache.Reload(st.files, contents);
    Cache.StepKeepsInvariant(st, ev);
    forall k ensures At(Cache.Apply(st, ev).contents, k) == At(contents, k) {
      EntryAfter(st, ev, k);
    }
  }

  lemma LoadKeepsInvariant(y: System)
    requires Invariant(y) && y.phase == ContentsMissing
    ensures Invariant(Exec(y, LoadContents))
  {
    LoadingAnswers(y.cache, y.master.contents);
  }

  lemma CompactionAnswers(st: Cache.State, shutdown: bool)
    requires Cache.Invariant(st)
    ensures var st' := Cache.Apply(st, Cache.Compact(shutdown));
            Cache.Invariant(st') && st'.files == st.files && forall k :: At(st'.contents, k) == At(st.contents, k)
  {
    var ev := Cache.Compact(shutdown);
    Cache.StepKeepsInvariant(st, ev);
    FilesAre(st, ev);
    forall k ensures At(Cache.Apply(st, ev).contents, k) == At(st.contents, k) {
      EntryAfter(st, ev, k);
    }
  }

  lemma CompactKeepsInvariant(y: System, shutdown: bool)
    requires Invariant(y) && y.phase == Ready
    ensures Invariant(Exec(y, Compact(shutdown)))
  {
    CompactionAnswers(y.cache, shutdown);
  }

  lemma StepKeepsInvariant(y: System, step: Step)
    requires Invariant(y)
    ensures Invariant(Exec(y, step))
  {
    match step
    case MasterStep(op) =>
      MasterStepKeepsMaster(y.master, op);
      MasterStepKeepsPage(y, op);
      if y.phase == Ready {
        MasterStepKeepsContents(y, op);
      }
      if y.phase != FilesMissing {
        MasterStepKeepsFiles(y, op);
      }
    case TakeCursor =>
    case LoadFiles =>
    case LoadContents =>
      if y.phase == ContentsMissing {
        LoadKeepsInvariant(y);
      }
    case FetchPage(_) =>
    case Process(fileOk, contentOk) =>
      if CanProcess(y) {
        HandledIsServed(y, y.master.log[y.cursor], fileOk, contentOk);
        Cache.StepKeepsInvariant(y.cache, Handled(y, y.master.log[y.cursor], fileOk, contentOk));
        ProcessKeepsContents(y, fileOk, contentOk);
        ProcessKeepsFiles(y, fileOk, contentOk);
      }
    case Compact(shutdown) =>
      if y.phase == Ready {
        CompactKeepsInvariant(y, shutdown);
      }
  }

  lemma {:induction false} RunKeepsInvariant(steps: seq<Step>)
    ensures Invariant(Run(INITIAL, steps))
  {
    if |steps| > 0 {
      RunKeepsInvariant(steps[..|steps| - 1]);
      StepKeepsInvariant(Run(INITIAL, steps[..|steps| - 1]), steps[|steps| - 1]);
    }
  }

  // ---- Convergence ----

  ghost predicate CaughtUp(y: System) {
    y.phase == Ready && y.cursor == |y.master.log|
  }

  // In every run, however late the lists were loaded and whatever the pages carried: whenever
  // the cursor has caught up, a lookup of a message answers what the master has, except for
  // exactly the lost ones and possibly for those with an old record.
  lemma Convergence(steps: seq<Step>, k: Key)
    requires CaughtUp(Run(INITIAL, steps)) && k !in Run(INITIAL, steps).contents.stale
    ensures var y := Run(INITIAL, steps);
            At(y.cache.contents, k) == At(y.master.contents, k) <==> k !in y.contents.lost
  {
    RunKeepsInvariant(steps);
    var y := Run(INITIAL, steps);
    assert k !in y.contents.lost ==> EntryOk(y.master, At(y.cache.contents, k), y.cursor, k);
  }

  // The same for the files.
  lemma FileConvergence(steps: seq<Step>, f: nat)
    requires CaughtUp(Run(INITIAL, steps)) && f !in Run(INITIAL, steps).files.stale
    ensures var y := Run(INITIAL, steps);
            FileAt(y.cache.files, f) == FileAt(y.master.files, f) <==> f !in y.files.lost
  {
    RunKeepsInvariant(steps);
    var y := Run(INITIAL, steps);
    assert f !in y.files.lost ==> FileOk(y.master, FileAt(y.cache.files, f), y.cursor, f);
  }

  // With no old record in the cache, its live records are the master's if and only if nothing is
  // lost.
  lemma ExactConvergence(steps: seq<Step>)
    requires CaughtUp(Run(INITIAL, steps)) && Run(INITIAL, steps).contents.stale == iset{}
    ensures var y := Run(INITIAL, steps);
            LiveSet(y.cache.contents) == LiveSet(y.master.contents) <==> y.contents.lost == iset{}
  {
    RunKeepsInvariant(steps);
    var y := Run(INITIAL, steps);
    forall k ensures At(y.cache.contents, k) == At(y.master.contents, k) <==> k !in y.contents.lost {
      Convergence(steps, k);
    }
    SameLive(y.cache.contents, y.master.contents);
    if y.contents.lost != iset{} {
      var k :| k in y.contents.lost;
      assert At(y.cache.contents, k) != At(y.master.contents, k);
    }
  }

  ghost predicate FileReadsSucceed(steps: seq<Step>) {
    forall n :: 0 <= n < |steps| && steps[n].Process? ==> steps[n].fileOk
  }

  lemma {:induction false} NoFileIsStale(steps: seq<Step>)
    requires FileReadsSucceed(steps)
    ensures Run(INITIAL, steps).files.stale == iset{}
  {
    if |steps| > 0 {
      NoFileIsStale(steps[..|steps| - 1]);
    }
  }

  // When every read of a file succeeds, the caught-up cache has exactly the master's files if and
  // only if none is lost.
  lemma ExactFileConvergence(steps: seq<Step>)
    requires FileReadsSucceed(steps) && CaughtUp(Run(INITIAL, steps))
    ensures var y := Run(INITIAL, steps); y.cache.files == y.master.files <==> y.files.lost == iset{}
  {
    NoFileIsStale(steps);
    var y := Run(INITIAL, steps);
    forall f ensures FileAt(y.cache.files, f) == FileAt(y.master.files, f) <==> f !in y.files.lost {
      FileConvergence(steps, f);
    }
    SameFiles(y.cache.files, y.master.files);
    if y.files.lost != iset{} {
      var f :| f in y.files.lost;
      assert FileAt(y.cache.files, f) != FileAt(y.master.files, f);
    }
  }

  lemma SameLive(s: seq<ContentInfo>, t: seq<ContentInfo>)
    requires UniqueKeys(s) && UniqueKeys(t)
    ensures LiveSet(s) == LiveSet(t) <==> forall k :: At(s, k) == At(t, k)
  {
    if LiveSet(s) == LiveSet(t) {
      forall k ensures At(s, k) == At(t, k) {
        SameLookup(s, t, k);
      }
    }
    if forall k :: At(s, k) == At(t, k) {
      forall c ensures c in LiveSet(s) <==> c in LiveSet(t) {
        HasMessageAt(s, KeyOf(c));
        HasMessageAt(t, KeyOf(c));
      }
    }
  }

  lemma SameFiles(a: map<nat, FileInfo>, b: map<nat, FileInfo>)
    ensures a == b <==> forall f :: FileAt(a, f) == FileAt(b, f)
  {
    if forall f :: FileAt(a, f) == FileAt(b, f) {
      forall f ensures (f in a <==> f in b) && (f in a ==> a[f] == b[f]) {
        assert FileAt(a, f) == FileAt(b, f);
      }
    }
  }

  lemma OneProcessed(y: System)
    requires y.phase == Ready && y.cursor < y.page.end <= |y.master.log|
    ensures var y' := Exec(y, Process(true, true));
            && y'.cache == Cache.Apply(y.cache, Handled(y, y.master.log[y.cursor], true, true))
            && y'.master == y.master && y'.page == y.page && y'.phase == Ready && y'.cursor == y.cursor + 1
  {
  }

  // ---- A record that is deleted and added again goes missing ----

  lemma RunThen(y: System, steps: seq<Step>, step: Step)
    ensures Run(y, steps + [step]) == Exec(Run(y, steps), step)
  {
    assert (steps + [step])[..|steps|] == steps;
  }

  lemma RunTwo(y: System, a: Step, b: Step)
    ensures Run(y, [a, b]) == Exec(Exec(y, a), b)
  {
    assert Run(y, []) == y && [] + [a] == [a] && [a] + [b] == [a, b];
    RunThen(y, [], a);
    RunThen(y, [a], b);
  }

  lemma RunFive(y: System, a: Step, b: Step, c: Step, d: Step, e: Step)
    ensures Run(y, [a, b, c, d, e]) == Exec(Exec(Exec(Exec(Exec(y, a), b), c), d), e)
  {
    RunTwo(y, a, b);
    assert [a, b] + [c] == [a, b, c] && [a, b, c] + [d] == [a, b, c, d] && [a, b, c, d] + [e] == [a, b, c, d, e];
    RunThen(y, [a, b], c);
    RunThen(y, [a, b, c], d);
    RunThen(y, [a, b, c, d], e);
  }

  lemma DeletionLeavesTombstone(st: Cache.State, k: Key, content: Option<ContentInfo>)
    requires At(st.contents, k).Some? && content.Some?
    ensures var st' := Cache.Apply(st, Cache.ContentDeleted(k.fileId, k.messageIndex));
            Cache.LosesRecord(st', Cache.ContentAdded(k.fileId, k.messageIndex, content))
  {
    var i := FirstWithKey(st.contents, k.fileId, k.messageIndex);
    var st' := Cache.Apply(st, Cache.ContentDeleted(k.fileId, k.messageIndex));
    assert st'.contents[i].deleted && Has(st'.contents[i], k);
  }

  // What the master has after the two changes.
  lemma ReplacedAtMaster(m: Master, c: ContentInfo)
    requires ListOk(m.contents) && !c.deleted && c.fileId in m.files && At(m.contents, KeyOf(c)).Some?
    ensures var m' := ApplyMaster(ApplyMaster(m, Delete(ContentDeleted(KeyOf(c)))), AddContent(c));
            && m'.log == m.log + [ContentDeleted(KeyOf(c)), ContentAdded(KeyOf(c))]
            && At(m'.contents, KeyOf(c)) == Some(c)
  {
    var k := KeyOf(c);
    var deletion := Delete(ContentDeleted(k));
    var m1 := ApplyMaster(m, deletion);
    MasterChanges(m, deletion, k);
    AtIsLive(m.contents, k);
    assert Accepts(m1, AddContent(c));
    MasterChanges(m1, AddContent(c), k);
    assert m.log + [ContentDeleted(k)] + [ContentAdded(k)] == m.log + [ContentDeleted(k), ContentAdded(k)];
  }

  lemma ReplacedIsFetched(y: System, c: ContentInfo)
    requires ListOk(y.master.contents) && CaughtUp(y) && y.page.end == y.cursor
    requires !c.deleted && c.fileId in y.master.files && At(y.master.contents, KeyOf(c)).Some?
    ensures var y3 := Exec(Exec(Exec(y, MasterStep(Delete(ContentDeleted(KeyOf(c))))), MasterStep(AddContent(c))),
        FetchPage(2));
            && y3.cache == y.cache && y3.cursor == y.cursor && y3.phase == Ready && y3.page.end == y.cursor + 2
            && y3.master.log == y.master.log + [ContentDeleted(KeyOf(c)), ContentAdded(KeyOf(c))]
            && At(y3.master.contents, KeyOf(c)) == At(y3.page.contents, KeyOf(c)) == Some(c)
  {
    ReplacedAtMaster(y.master, c);
  }

  // The two events, one after the other.
  lemma ReplacedInCache(st: Cache.State, c: ContentInfo)
    requires Cache.Invariant(st) && At(st.contents, KeyOf(c)).Some? && !c.deleted
    ensures var deleted := Cache.Apply(st, Cache.ContentDeleted(c.fileId, c.messageIndex));
            At(Cache.Apply(deleted, Cache.ContentAdded(c.fileId, c.messageIndex, Some(c))).contents, KeyOf(c)) == None
  {
    var k := KeyOf(c);
    var deletion := Cache.ContentDeleted(c.fileId, c.messageIndex);
    EntryAfter(st, deletion, k);
    Cache.StepKeepsInvariant(st, deletion);
    DeletionLeavesTombstone(st, k, Some(c));
    EntryAfter(Cache.Apply(st, deletion), Cache.ContentAdded(c.fileId, c.messageIndex, Some(c)), k);
  }

  lemma ReplacedIsLost(y3: System, c: ContentInfo)
    requires Cache.Invariant(y3.cache) && y3.phase == Ready && !c.deleted
    requires y3.cursor + 2 == y3.page.end == |y3.master.log|
    requires y3.master.log[y3.cursor] == ContentDeleted(KeyOf(c))
    requires y3.master.log[y3.cursor + 1] == ContentAdded(KeyOf(c))
    requires At(y3.page.contents, KeyOf(c)) == Some(c) && At(y3.cache.contents, KeyOf(c)).Some?
    ensures var z := Exec(Exec(y3, Process(true, true)), Process(true, true));
            CaughtUp(z) && z.master == y3.master && At(z.cache.contents, KeyOf(c)) == None
  {
    OneProcessed(y3);
    OneProcessed(Exec(y3, Process(true, true)));
    ReplacedInCache(y3.cache, c);
  }

  // From every caught-up state, a record that both have and that the master deletes and adds
  // again before the cache compacts is missing in the caught-up cache, with all reads succeeding.
  lemma ReplacedRecordIsMissing(steps: seq<Step>, c: ContentInfo)
    requires var y := Run(INITIAL, steps);
             && CaughtUp(y) && !c.deleted && c.fileId in y.master.files
             && At(y.master.contents, KeyOf(c)).Some? && At(y.cache.contents, KeyOf(c)).Some?
    ensures var z := Run(INITIAL, steps + Replacing(c));
            && CaughtUp(z) && At(z.master.contents, KeyOf(c)) == Some(c) && At(z.cache.contents, KeyOf(c)) == None
            && KeyOf(c) in z.contents.lost
  {
    var y, k := Run(INITIAL, steps), KeyOf(c);
    RunsJoin(INITIAL, steps, Replacing(c));
    RunFive(y, MasterStep(Delete(ContentDeleted(k))), MasterStep(AddContent(c)), FetchPage(2),
            Process(true, true), Process(true, true));
    RunKeepsInvariant(steps);
    ReplacedIsFetched(y, c);
    var y1 := Exec(y, MasterStep(Delete(ContentDeleted(k))));
    var y2 := Exec(y1, MasterStep(AddContent(c)));
    StepKeepsInvariant(y, MasterStep(Delete(ContentDeleted(k))));
    StepKeepsInvariant(y1, MasterStep(AddContent(c)));
    StepKeepsInvariant(y2, FetchPage(2));
    ReplacedIsLost(Exec(y2, FetchPage(2)), c);
    RunKeepsInvariant(steps + Replacing(c));
    Convergence(steps + Replacing(c), k);
  }

  function Replacing(c: ContentInfo): seq<Step> {
    [MasterStep(Delete(ContentDeleted(KeyOf(c)))), MasterStep(AddContent(c)), FetchPage(2),
     Process(true, true), Process(true, true)]
  }

  lemma {:induction false} RunsJoin(y: System, a: seq<Step>, b: seq<Step>)
    ensures Run(y, a + b) == Run(Run(y, a), b)
  {
    if |b| == 0 {
      assert a + b == a;
    } else {
      RunsJoin(y, a, b[..|b| - 1]);
      assert (a + b)[..|a + b| - 1] == a + b[..|b| - 1];
    }
  }

  // ---- The records of a deleted geometry go missing ----

  lemma DroppedInCache(st: Cache.State, c: ContentInfo)
    requires Cache.Invariant(st) && At(st.contents, KeyOf(c)) == Some(c)
    ensures var dropped := Cache.Apply(st, Cache.ListDeleted(ByGeometry(c.generationId, c.geometryId), false));
            At(dropped.contents, KeyOf(c)) == None
  {
    EntryAfter(st, Cache.ListDeleted(ByGeometry(c.generationId, c.geometryId), false), KeyOf(c));
  }

  function Dropping(c: ContentInfo): seq<Step> {
    [MasterStep(DropGeometry(c.generationId, c.geometryId)), FetchPage(1)] + [Process(true, true)]
  }

  lemma DroppedIsFetched(y: System, c: ContentInfo)
    requires CaughtUp(y) && y.page.end == y.cursor
    ensures var z := Exec(Exec(y, MasterStep(DropGeometry(c.generationId, c.geometryId))), FetchPage(1));
            && z.cache == y.cache && z.cursor == y.cursor && z.phase == Ready && z.page.end == y.cursor + 1
            && z.master == y.master.(log := y.master.log + [ListDeleted(ByGeometry(c.generationId, c.geometryId),
                false)])
  {
  }

  // From every caught-up state, the deletion of a geometry at a master that keeps the records of
  // it makes the caught-up cache lose each of them.
  lemma DroppedGeometryIsMissing(steps: seq<Step>, c: ContentInfo)
    requires var y := Run(INITIAL, steps);
             && CaughtUp(y)
             && At(y.master.contents, KeyOf(c)) == At(y.cache.contents, KeyOf(c)) == Some(c)
    ensures var z := Run(INITIAL, steps + Dropping(c));
            && CaughtUp(z) && At(z.master.contents, KeyOf(c)) == Some(c) && At(z.cache.contents, KeyOf(c)) == None
            && KeyOf(c) in z.contents.lost
  {
    var y := Run(INITIAL, steps);
    var drop := MasterStep(DropGeometry(c.generationId, c.geometryId));
    RunsJoin(INITIAL, steps, Dropping(c));
    RunTwo(y, drop, FetchPage(1));
    RunThen(y, [drop, FetchPage(1)], Process(true, true));
    RunKeepsInvariant(steps);
    DroppedIsFetched(y, c);
    OneProcessed(Exec(Exec(y, drop), FetchPage(1)));
    DroppedInCache(y.cache, c);
    RunKeepsInvariant(steps + Dropping(c));
    Convergence(steps + Dropping(c), KeyOf(c));
  }

  // ---- What one step brings, told by lookups ----

  lemma ProcessedIs(y: System, fileOk: bool, contentOk: bool, k: Key)
    requires CanProcess(y)
    ensures At(Exec(y, Process(fileOk, contentOk)).cache.contents, k) == NextIs(y, fileOk, contentOk, k)
  {
    ProcessedAre(y, fileOk, contentOk);
  }

  // Updates bring what the master has by then.
  lemma UpdateBringsMasters(y: System, k: Key)
    requires CanProcess(y) && y.master.log[y.cursor] == ContentUpdated(k)
    ensures At(Exec(y, Process(true, true)).cache.contents, k) == At(y.master.contents, k)
    ensures At(Exec(y, Process(true, false)).cache.contents, k) == None
  {
    ProcessedIs(y, true, true, k);
    ProcessedIs(y, true, false, k);
  }

  lemma FileUpdateIs(y: System, f: nat, i: nat, contentOk: bool)
    requires y.cursor < |y.master.log| && y.master.log[y.cursor] == FileUpdated(f)
    ensures NextIs(y, false, contentOk, Key(f, i)) == At(y.cache.contents, Key(f, i))
    ensures f in y.master.files && f in y.cache.files ==>
              NextIs(y, true, contentOk, Key(f, i)) == if contentOk then At(y.master.contents, Key(f, i)) else None
  {
  }

  lemma FileUpdateBringsMasters(y: System, f: nat, i: nat)
    requires CanProcess(y) && y.master.log[y.cursor] == FileUpdated(f)
    ensures f in y.master.files && f in y.cache.files ==>
              && At(Exec(y, Process(true, true)).cache.contents, Key(f, i)) == At(y.master.contents, Key(f, i))
              && At(Exec(y, Process(true, false)).cache.contents, Key(f, i)) == None
    ensures At(Exec(y, Process(false, true)).cache.contents, Key(f, i)) == At(y.cache.contents, Key(f, i))
  {
    FileUpdateIs(y, f, i, true);
    FileUpdateIs(y, f, i, false);
    ProcessedIs(y, true, true, Key(f, i));
    ProcessedIs(y, true, false, Key(f, i));
    ProcessedIs(y, false, true, Key(f, i));
  }

  lemma AdditionIs(y: System, f: nat, i: nat, withContents: bool)
    requires y.cursor < |y.master.log| && y.master.log[y.cursor] == FileAdded(f, withContents)
    ensures var k := Key(f, i);
            NextIs(y, true, true, k)
            == if At(y.cache.contents, k).Some? || !withContents then At(y.cache.contents, k)
               else if f in y.page.files then At(y.page.contents, k)
               else if f in y.master.files then At(y.master.contents, k)
               else None
  {
  }

  // Additions bring what the page has, and what the master has only if the page has nothing; a
  // record that is there stays.
  lemma AdditionBringsPages(y: System, f: nat, i: nat, withContents: bool)
    requires CanProcess(y) && y.master.log[y.cursor] == FileAdded(f, withContents)
    ensures var k, after := Key(f, i), Exec(y, Process(true, true)).cache.contents;
            At(after, k) == if At(y.cache.contents, k).Some? || !withContents then At(y.cache.contents, k)
                            else if f in y.page.files then At(y.page.contents, k)
                            else if f in y.master.files then At(y.master.contents, k)
                            else None
  {
    AdditionIs(y, f, i, withContents);
    ProcessedIs(y, true, true, Key(f, i));
  }

  lemma ContentAdditionBringsPages(y: System, k: Key)
    requires CanProcess(y) && y.master.log[y.cursor] == ContentAdded(k)
    requires forall c :: c in y.cache.contents && c.deleted ==>
               !(c.fileId == k.fileId && c.messageIndex == k.messageIndex)
    ensures At(Exec(y, Process(true, true)).cache.contents, k)
         == if At(y.cache.contents, k).Some? then At(y.cache.contents, k)
            else if At(y.page.contents, k).Some? then At(y.page.contents, k)
            else At(y.master.contents, k)
  {
    ProcessedIs(y, true, true, k);
  }

  lemma MasterDeletionLeaves(m: Master, ev: Event, k: Key)
    requires ListOk(m.contents) && Accepts(m, Delete(ev))
    ensures var before := At(m.contents, k);
            At(ApplyMaster(m, Delete(ev)).contents, k)
            == if before.Some? && ev.Selected().Selects(before.value) then None else before
  {
    MasterChanges(m, Delete(ev), k);
  }

  // What the deletions of the master leave, in fields.
  lemma MasterDeletionsLeave(m: Master, id: nat, withFiles: bool, k: Key)
    requires ListOk(m.contents)
    ensures var before := At(m.contents, k);
            && (At(ApplyMaster(m, Delete(ListDeleted(ByFile(id), withFiles))).contents, k)
                == if before.Some? && before.value.fileId == id then None else before)
            && (At(ApplyMaster(m, Delete(ListDeleted(ByGeneration(id), withFiles))).contents, k)
                == if before.Some? && before.value.generationId == id then None else before)
            && (At(ApplyMaster(m, Delete(ListDeleted(ByProducer(id), withFiles))).contents, k)
                == if before.Some? && before.value.producerId == id then None else before)
  {
    MasterDeletionLeaves(m, ListDeleted(ByFile(id), withFiles), k);
    MasterDeletionLeaves(m, ListDeleted(ByGeneration(id), withFiles), k);
    MasterDeletionLeaves(m, ListDeleted(ByProducer(id), withFiles), k);
  }

  lemma MasterDeletionsLeaveOthers(m: Master, id: nat, i: nat, withFiles: bool, k: Key)
    requires ListOk(m.contents)
    ensures var before := At(m.contents, k);
            && (At(ApplyMaster(m, Delete(ListDeleted(BySource(id), withFiles))).contents, k)
                == if before.Some? && before.value.sourceId == id then None else before)
            && (At(ApplyMaster(m, Delete(GenerationListDeleted(id))).contents, k)
                == if before.Some? && before.value.producerId == id then None else before)
            && (At(ApplyMaster(m, Delete(ContentDeleted(Key(id, i)))).contents, k)
                == if before.Some? && k == Key(id, i) then None else before)
  {
    AtIsLive(m.contents, k);
    MasterDeletionLeaves(m, ListDeleted(BySource(id), withFiles), k);
    MasterDeletionLeaves(m, GenerationListDeleted(id), k);
    MasterDeletionLeaves(m, ContentDeleted(Key(id, i)), k);
  }

  // A fetched page ends after so many events, or at the end of the log, and carries what the
  // master has then; a load answers what the master has.
  lemma FetchedAndLoaded(y: System, maxEvents: nat, k: Key)
    requires Invariant(y)
    ensures y.phase == Ready && y.cursor == y.page.end ==>
              var page := Exec(y, FetchPage(maxEvents)).page;
              && page.contents == y.master.contents && page.files == y.master.files
              && page.end <= |y.master.log| && page.end <= y.cursor + maxEvents
              && (page.end == |y.master.log| || page.end == y.cursor + maxEvents)
    ensures var z := Exec(Exec(Exec(y, TakeCursor), LoadFiles), LoadContents);
            && z.cursor == |y.master.log| && z.cache.files == y.master.files
            && At(z.cache.contents, k) == At(y.master.contents, k)
  {
    LoadingAnswers(Exec(Exec(y, TakeCursor), LoadFiles).cache, y.master.contents);
  }

  // The same for the file itself; a failed read brings nothing.
  lemma FileEventBrings(y: System, f: nat, withContents: bool, contentOk: bool)
    requires CanProcess(y)
    ensures y.master.log[y.cursor] == FileAdded(f, withContents) ==>
              FileAt(Exec(y, Process(true, contentOk)).cache.files, f)
              == if f in y.cache.files then Some(y.cache.files[f])
                 else if f in y.page.files then Some(y.page.files[f])
                 else FileAt(y.master.files, f)
    ensures y.master.log[y.cursor] == FileUpdated(f) ==>
              && FileAt(Exec(y, Process(true, contentOk)).cache.files, f)
                 == (if f in y.master.files then Some(y.master.files[f]) else FileAt(y.cache.files, f))
              && FileAt(Exec(y, Process(false, contentOk)).cache.files, f) == FileAt(y.cache.files, f)
  {
    HandledIsServed(y, y.master.log[y.cursor], true, contentOk);
    HandledIsServed(y, y.master.log[y.cursor], false, contentOk);
    FilesAre(y.cache, Handled(y, y.master.log[y.cursor], true, contentOk));
    FilesAre(y.cache, Handled(y, y.master.log[y.cursor], false, contentOk));
    NextFileEntryIs(y, true, contentOk, f);
    NextFileEntryIs(y, false, contentOk, f);
  }

  // What the additions and updates of the master bring.
  lemma MasterAdditionsBring(m: Master, info: FileInfo, records: seq<ContentInfo>, c: ContentInfo, k: Key)
    requires ListOk(m.contents)
    ensures Accepts(m, AddFile(info, records)) ==>
              var m' := ApplyMaster(m, AddFile(info, records));
              && m'.files == m.files[info.fileId := info] && m'.nextFileId == m.nextFileId + 1
              && At(m'.contents, k) == if At(m.contents, k).Some? then At(m.contents, k) else At(records, k)
    ensures Accepts(m, UpdateFile(info, records)) ==>
              var m' := ApplyMaster(m, UpdateFile(info, records));
              && m'.files == m.files[info.fileId := info] && m'.nextFileId == m.nextFileId
              && At(m'.contents, k) == if k.fileId == info.fileId then At(records, k) else At(m.contents, k)
    ensures forall op :: op in {AddContent(c), SetContent(c)} && Accepts(m, op) ==>
              var m' := ApplyMaster(m, op);
              && m'.files == m.files
              && At(m'.contents, k) == if k == Key(c.fileId, c.messageIndex) then Some(c) else At(m.contents, k)
  {
    if Accepts(m, AddFile(info, records)) {
      MasterChanges(m, AddFile(info, records), k);
    }
    if Accepts(m, UpdateFile(info, records)) {
      MasterChanges(m, UpdateFile(info, records), k);
    }
    if Accepts(m, AddContent(c)) {
      MasterChanges(m, AddContent(c), k);
    }
    if Accepts(m, SetContent(c)) {
      MasterChanges(m, SetContent(c), k);
    }
  }

  // ---- What the steps note, told by both sides ----

  lemma EventMakesLost(y: System, fileOk: bool, contentOk: bool, k: Key)
    requires CanProcess(y) && k !in y.contents.lost
    ensures var ev, has := y.master.log[y.cursor], At(y.master.contents, k);
            var before, after := At(y.cache.contents, k), NextIs(y, fileOk, contentOk, k);
            k in AfterEvent(y, ev, fileOk, contentOk).lost <==>
              || (has.Some? && after.None? && !(ev == FileAdded(k.fileId, true) && k.fileId in y.page.files)
                  && ev in {FileAdded(k.fileId, true), FileUpdated(k.fileId), ContentAdded(k), ContentUpdated(k)})
              || (has.Some? && before.Some? && after.None?
                  && ((ev.ListDeleted? && ev.sel.ByGeometry?) || (k in y.contents.stale && ev.Selected() != Nothing)))
              || (has.None? && before.Some? && ev == FileUpdated(k.fileId)
                  && !(fileOk && k.fileId in y.master.files && k.fileId in y.cache.files)
                  && forall j :: y.cursor < j < |y.master.log| ==> !y.master.log[j].Kills(before.value))
  {
  }

  // A message is lost when the record the master has does not arrive with an event of its own,
  // unless the page has the file without it, when a deletion hides it while the master has it, that
  // of a geometry or of a stale record, and when an update leaves a record the master has not.
  lemma BecomesLost(y: System, fileOk: bool, contentOk: bool, k: Key)
    requires CanProcess(y) && k !in y.contents.lost
    ensures var ev, z, has := y.master.log[y.cursor], Exec(y, Process(fileOk, contentOk)), At(y.master.contents, k);
            var before, after := At(y.cache.contents, k), At(z.cache.contents, k);
            k in z.contents.lost <==>
              || (has.Some? && after.None? && !(ev == FileAdded(k.fileId, true) && k.fileId in y.page.files)
                  && ev in {FileAdded(k.fileId, true), FileUpdated(k.fileId), ContentAdded(k), ContentUpdated(k)})
              || (has.Some? && before.Some? && after.None?
                  && ((ev.ListDeleted? && ev.sel.ByGeometry?) || (k in y.contents.stale && ev.Selected() != Nothing)))
              || (has.None? && before.Some? && ev == FileUpdated(k.fileId)
                  && !(fileOk && k.fileId in y.master.files && k.fileId in y.cache.files)
                  && forall j :: y.cursor < j < |y.master.log| ==> !y.master.log[j].Kills(before.value))
  {
    EventMakesLost(y, fileOk, contentOk, k);
    ProcessedIs(y, fileOk, contentOk, k);
  }

  lemma EventKeepsLost(y: System, fileOk: bool, contentOk: bool, k: Key)
    requires CanProcess(y) && k in y.contents.lost
    ensures k in AfterEvent(y, y.master.log[y.cursor], fileOk, contentOk).lost
       <==> (NextIs(y, fileOk, contentOk, k).Some? <==> At(y.master.contents, k).None?)
  {
    ProcessKeepsErrors(y, fileOk, contentOk, k);
  }

  // It is lost until the two sides agree again on whether it is there, or a load begins.
  lemma StaysLost(y: System, step: Step, k: Key)
    requires Invariant(y) && y.phase == Ready && k in y.contents.lost && !step.TakeCursor?
    ensures var z := Exec(y, step);
            k in z.contents.lost <==> (At(z.cache.contents, k).Some? <==> At(z.master.contents, k).None?)
  {
    match step
    case Process(fileOk, contentOk) =>
      if y.cursor < y.page.end {
        EventKeepsLost(y, fileOk, contentOk, k);
        ProcessedIs(y, fileOk, contentOk, k);
      }
    case Compact(shutdown) => CompactionAnswers(y.cache, shutdown);
    case _ =>
  }

  lemma EventMakesStale(y: System, fileOk: bool, contentOk: bool, k: Key)
    requires CanProcess(y)
    ensures var ev, before := y.master.log[y.cursor], At(y.cache.contents, k);
            k in AfterEvent(y, ev, fileOk, contentOk).stale <==>
              if ev == FileUpdated(k.fileId) && !(fileOk && k.fileId in y.master.files && k.fileId in y.cache.files)
              then k in y.contents.stale || (before.Some? && At(y.master.contents, k).Some?)
              else
                && k in y.contents.stale && ev != FileUpdated(k.fileId) && ev != ContentUpdated(k)
                && NextIs(y, fileOk, contentOk, k).Some?
  {
  }

  // A record is stale from an update whose file cannot be read or is not cached until an update
  // that replaces it, or until it goes; a surplus one is when the master adds the message anew.
  lemma GoesStale(y: System, fileOk: bool, contentOk: bool, op: MasterOp, k: Key)
    requires CanProcess(y)
    ensures var ev, z := y.master.log[y.cursor], Exec(y, Process(fileOk, contentOk));
            k in z.contents.stale <==>
              if ev == FileUpdated(k.fileId) && !(fileOk && k.fileId in y.master.files && k.fileId in y.cache.files)
              then k in y.contents.stale || (At(y.cache.contents, k).Some? && At(y.master.contents, k).Some?)
              else
                && k in y.contents.stale && ev != FileUpdated(k.fileId) && ev != ContentUpdated(k)
                && At(z.cache.contents, k).Some?
    ensures var z := Exec(y, MasterStep(op));
            k in z.contents.stale <==>
              || k in y.contents.stale
              || (k in y.contents.lost && At(y.master.contents, k).None? && At(z.master.contents, k).Some?)
  {
    EventMakesStale(y, fileOk, contentOk, k);
    ProcessedIs(y, fileOk, contentOk, k);
  }

  lemma FileProcessedIs(y: System, fileOk: bool, contentOk: bool, f: nat)
    requires CanProcess(y)
    ensures FileAt(Exec(y, Process(fileOk, contentOk)).cache.files, f) == NextFileIs(y, fileOk, f)
  {
    HandledIsServed(y, y.master.log[y.cursor], fileOk, contentOk);
    FilesAre(y.cache, Handled(y, y.master.log[y.cursor], fileOk, contentOk));
    NextFileEntryIs(y, fileOk, contentOk, f);
  }

  lemma EventMakesFileLost(y: System, fileOk: bool, f: nat)
    requires CanProcess(y)
    ensures var ev, before, after := y.master.log[y.cursor], FileAt(y.cache.files, f), NextFileIs(y, fileOk, f);
            var lost := FileErrorsAfter(y, ev, fileOk).lost;
            && (f in y.files.lost ==> (f in lost <==> (after.Some? <==> f !in y.master.files)))
            && (f !in y.files.lost ==>
                  (f in lost <==>
                     || (f in y.master.files && after.None?
                         && (ev == FileUpdated(f) || (ev.FileAdded? && ev.fileId == f)))
                     || (f in y.master.files && before.Some? && after.None? && f in y.files.stale)
                     || (f !in y.master.files && before.Some? && ev == FileUpdated(f)
                         && forall j :: y.cursor < j < |y.master.log| ==> !y.master.log[j].KillsFile(before.value))))
  {
    ProcessKeepsFileErrors(y, fileOk, f);
  }

  // The same for a file: lost when the one the master has does not arrive with its event, when a
  // deletion takes a stale one the master has, and when an update finds one the master has not.
  lemma FileBecomesLost(y: System, fileOk: bool, contentOk: bool, f: nat)
    requires CanProcess(y) && f !in y.files.lost
    ensures var ev, z := y.master.log[y.cursor], Exec(y, Process(fileOk, contentOk));
            f in z.files.lost <==>
              || (f in y.master.files && f !in z.cache.files
                  && (ev == FileUpdated(f) || (ev.FileAdded? && ev.fileId == f)))
              || (f in y.master.files && f in y.cache.files && f !in z.cache.files && f in y.files.stale)
              || (f !in y.master.files && f in y.cache.files && ev == FileUpdated(f)
                  && forall j :: y.cursor < j < |y.master.log| ==> !y.master.log[j].KillsFile(y.cache.files[f]))
  {
    EventMakesFileLost(y, fileOk, f);
    FileProcessedIs(y, fileOk, contentOk, f);
  }

  lemma FileStaysLost(y: System, step: Step, f: nat)
    requires Invariant(y) && y.phase == Ready && f in y.files.lost && !step.TakeCursor?
    ensures var z := Exec(y, step); f in z.files.lost <==> (f in z.cache.files <==> f !in z.master.files)
  {
    match step
    case Process(fileOk, contentOk) =>
      if y.cursor < y.page.end {
        EventMakesFileLost(y, fileOk, f);
        FileProcessedIs(y, fileOk, contentOk, f);
      }
    case Compact(shutdown) => CompactionAnswers(y.cache, shutdown);
    case MasterStep(op) => MasterStepKeepsFiles(y, op);
    case _ =>
  }

  lemma FileGoesStale(y: System, fileOk: bool, contentOk: bool, op: MasterOp, f: nat)
    requires CanProcess(y)
    ensures var ev, z := y.master.log[y.cursor], Exec(y, Process(fileOk, contentOk));
            f in z.files.stale <==>
              if ev == FileUpdated(f) && f in y.master.files then !fileOk && f in y.cache.files
              else f in y.files.stale && f in z.cache.files
    ensures Exec(y, MasterStep(op)).files.stale == y.files.stale
  {
    FileProcessedIs(y, fileOk, contentOk, f);
  }

  // Which changes the master accepts, in fields.
  lemma AcceptedChanges(m: Master, info: FileInfo, records: seq<ContentInfo>, c: ContentInfo, sel: Selector, id: nat)
    requires forall r :: r in records ==> !r.deleted && r.fileId == info.fileId
    requires forall i, j :: 0 <= i < j < |records| ==> records[i].messageIndex != records[j].messageIndex
    ensures info.fileId == m.nextFileId ==> Accepts(m, AddFile(info, records))
    ensures info.fileId in m.files ==> Accepts(m, UpdateFile(info, records))
    ensures !c.deleted && c.fileId in m.files && At(m.contents, Key(c.fileId, c.messageIndex)).None? ==>
              Accepts(m, AddContent(c))
    ensures !c.deleted && At(m.contents, Key(c.fileId, c.messageIndex)).Some? ==> Accepts(m, SetContent(c))
    ensures forall ev :: ev in {ListDeleted(sel, true), ListDeleted(sel, false), GenerationListDeleted(id),
                                ContentDeleted(KeyOf(c))} ==>
              Accepts(m, Delete(ev))
    ensures Accepts(m, DropGeometry(c.generationId, c.geometryId)) && Accepts(m, Note)
  {
  }

  // The event of each change.
  lemma MasterTells(m: Master, op: MasterOp)
    requires Accepts(m, op)
    ensures var log := ApplyMaster(m, op).log;
            && |log| == |m.log| + 1 && log[..|m.log|] == m.log
            && match op {
                 case AddFile(info, records) => log[|m.log|] == FileAdded(info.fileId, records != [])
                 case UpdateFile(info, _) => log[|m.log|] == FileUpdated(info.fileId)
                 case Delete(ev) => log[|m.log|] == ev
                 case DropGeometry(g, y) => log[|m.log|] == ListDeleted(ByGeometry(g, y), false)
                 case AddContent(c) => log[|m.log|] == ContentAdded(Key(c.fileId, c.messageIndex))
                 case SetContent(c) => log[|m.log|] == ContentUpdated(Key(c.fileId, c.messageIndex))
                 case Note => log[|m.log|] == Other
               }
  {
  }

  // Loads come in order after the cursor is taken, and nothing is fetched, handled or compacted
  // before they are done; nothing is handled beyond the page.
  lemma PhasesGuard(y: System, step: Step, maxEvents: nat)
    ensures !step.MasterStep? && !step.TakeCursor? ==>
              && (y.phase == Ready && (step.LoadFiles? || step.LoadContents?) ==> Exec(y, step) == y)
              && (y.phase == FilesMissing && !step.LoadFiles? ==> Exec(y, step) == y)
              && (y.phase == ContentsMissing && !step.LoadContents? ==> Exec(y, step) == y)
    ensures y.cursor == y.page.end && step.Process? ==> Exec(y, step) == y
    ensures y.cursor < y.page.end ==> Exec(y, FetchPage(maxEvents)) == y
    ensures var z := Exec(y, TakeCursor);
            && z.cursor == z.page.end == |y.master.log| && z.phase == FilesMissing && z.cache == y.cache
            && Exec(z, LoadFiles).phase == ContentsMissing && Exec(Exec(z, LoadFiles), LoadContents).phase == Ready
  {
  }
}
