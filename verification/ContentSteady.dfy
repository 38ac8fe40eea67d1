// Runs in which the replication of files and content records goes right without exception.
module ContentSteady {
  import opened Wrappers
  import opened ContentOrder
  import opened ContentSequences
  import opened ContentMessages
  import opened ContentSync
  import Cache = ContentEvents

  // ---- Runs in which the files keep their owners ----

  // The producer, generation and source of each file.
  type Owners = nat -> FileInfo

  predicate Owned(c: ContentInfo, own: Owners) {
    var info := own(c.fileId);
    c.producerId == info.producerId && c.generationId == info.generationId && c.sourceId == info.sourceId
  }

  ghost predicate AllOwned(records: seq<ContentInfo>, own: Owners) {
    forall c :: c in records ==> Owned(c, own)
  }

  ghost predicate SteadyOp(op: MasterOp, own: Owners) {
    match op
    case AddFile(info, records) => info == own(info.fileId) && AllOwned(records, own)
    case UpdateFile(info, records) => info == own(info.fileId) && AllOwned(records, own)
    case AddContent(c) => Owned(c, own)
    case SetContent(c) => Owned(c, own)
    case Delete(ev) => !ev.OfGeometry()
    case DropGeometry(_, _) => false
    case _ => true
  }

  // Geometries stay, reads succeed, and no CONTENT_ADDED meets a tombstone of its message.
  ghost predicate SteadyStep(y: System, step: Step, own: Owners) {
    match step
    case MasterStep(op) => SteadyOp(op, own)
    case Process(fileOk, contentOk) =>
      && fileOk && contentOk
      && (y.cursor < |y.master.log| ==>
            !Cache.LosesRecord(y.cache, Handled(y, y.master.log[y.cursor], fileOk, contentOk)))
    case _ => true
  }

  ghost predicate SteadyRun(steps: seq<Step>, own: Owners) {
    && (forall f :: own(f).fileId == f)
    && forall n :: 0 <= n < |steps| ==> SteadyStep(Run(INITIAL, steps[..n]), steps[n], own)
  }

  ghost predicate PendingFileAdd(log: seq<Event>, cursor: nat, f: nat) {
    exists j :: cursor <= j < |log| && log[j].FileAdded? && log[j].fileId == f
  }

  // What a reader of the log has of contents: a record of a file that is gone will be deleted.
  ghost predicate SteadyContents(m: Master, contents: seq<ContentInfo>, cursor: nat, own: Owners) {
    forall k :: At(contents, k).Some? ==> SteadyEntry(m, At(contents, k).value, cursor, own)
  }

  ghost predicate SteadyEntry(m: Master, c: ContentInfo, cursor: nat, own: Owners) {
    Owned(c, own) && (c.fileId !in m.files ==> PendingFileKill(m.log, cursor, own(c.fileId)))
  }

  ghost predicate SteadyFiles(m: Master, files: map<nat, FileInfo>, cursor: nat, own: Owners) {
    && (forall f :: f in files ==> files[f] == own(f) && (f !in m.files ==> PendingFileKill(m.log, cursor, own(f))))
    && (forall f :: f in m.files && f !in files ==> PendingFileAdd(m.log, cursor, f))
  }

  // Files are added before they are updated, and after the deletions that would match them.
  ghost predicate AddsComeFirst(m: Master, own: Owners) {
    AddsAreFirst(m) && KillsComeEarlier(m, own)
  }

  ghost predicate AddsAreFirst(m: Master) {
    && (forall j :: 0 <= j < |m.log| && (m.log[j].FileAdded? || m.log[j].FileUpdated?) ==>
        m.log[j].fileId < m.nextFileId)
    && (forall i, j :: 0 <= i < j < |m.log| && m.log[j].FileAdded? ==> m.log[i] != FileUpdated(m.log[j].fileId))
  }

  ghost predicate KillsComeEarlier(m: Master, own: Owners) {
    forall j, f :: 0 <= j < |m.log| && f in m.files && m.log[j].KillsFile(own(f)) ==> PendingFileAdd(m.log, j + 1, f)
  }

  ghost predicate SteadyMaster(m: Master, own: Owners) {
    && (forall k :: At(m.contents, k).Some? ==> Owned(At(m.contents, k).value, own) && k.fileId in m.files)
    && (forall f :: f in m.files ==> m.files[f] == own(f))
    && (forall j :: 0 <= j < |m.log| ==> !m.log[j].OfGeometry())
    && AddsComeFirst(m, own)
  }

  ghost predicate Steady(y: System, own: Owners) {
    && (forall f :: own(f).fileId == f)
    && y.contents == Errors(iset{}, iset{}) && y.files == Errors(iset{}, iset{})
    && SteadyMaster(y.master, own)
    && SteadyContents(y.master, y.page.contents, y.page.length, own)
    && SteadyFiles(y.master, y.page.files, y.page.length, own)
    && (y.phase == Ready ==> SteadyContents(y.master, y.cache.contents, y.cursor, own))
    && (y.phase != FilesMissing ==> SteadyFiles(y.master, y.cache.files, y.cursor, own))
  }

  // Deleting a file deletes its records.
  lemma RecordsGoWithFile(ev: Event, c: ContentInfo, own: Owners)
    requires Owned(c, own) && own(c.fileId).fileId == c.fileId && ev.KillsFile(own(c.fileId))
    ensures ev.Kills(c)
  {
  }

  // ---- The master stays steady ----

  lemma LaterFileAddsStay(a: seq<Event>, ev: Event, cursor: nat, f: nat)
    ensures PendingFileAdd(a, cursor, f) ==> PendingFileAdd(a + [ev], cursor, f)
    ensures cursor <= |a| && ev.FileAdded? && ev.fileId == f ==> PendingFileAdd(a + [ev], cursor, f)
  {
    var b := a + [ev];
    assert b[|a|] == ev;
    assert forall j :: 0 <= j < |a| ==> b[j] == a[j];
  }

  lemma MasterContentsStaySteady(m: Master, op: MasterOp, own: Owners, k: Key)
    requires MasterInvariant(m) && SteadyMaster(m, own) && SteadyOp(op, own) && Accepts(m, op)
    requires forall f :: own(f).fileId == f
    ensures var m' := ApplyMaster(m, op);
            At(m'.contents, k).Some? ==> Owned(At(m'.contents, k).value, own) && k.fileId in m'.files
  {
    MasterChanges(m, op, k);
    AtIsLive(m.contents, k);
    match op
    case AddFile(info, records) =>
      AtIsLive(records, k);
      if k.fileId != info.fileId {
        ServedAt(info.fileId, records, k);
      }
      RecordsAt(records, k);
    case UpdateFile(info, records) =>
      AtIsLive(records, k);
      RecordsAt(records, k);
    case Delete(ev) =>
      var entry := At(m.contents, k);
      if entry.Some? && ev.KillsFile(own(k.fileId)) {
        RecordsGoWithFile(ev, entry.value, own);
      }
    case _ =>
  }

  lemma AddsStayFirst(m: Master, op: MasterOp)
    requires FileIdsOk(m) && AddsAreFirst(m) && Accepts(m, op) && (op.Delete? ==> !op.event.OfGeometry())
    ensures AddsAreFirst(ApplyMaster(m, op))
  {
    var m', n := ApplyMaster(m, op), |m.log|;
    assert m'.log[n] == EventOf(op) && forall j :: 0 <= j < n ==> m'.log[j] == m.log[j];
  }

  lemma KillsStayEarlier(m: Master, op: MasterOp, own: Owners)
    requires MasterInvariant(m) && SteadyMaster(m, own) && SteadyOp(op, own) && Accepts(m, op)
    requires forall f :: own(f).fileId == f
    ensures KillsComeEarlier(ApplyMaster(m, op), own)
  {
    var m', n := ApplyMaster(m, op), |m.log|;
    assert m'.log[n] == EventOf(op) && forall j :: 0 <= j < n ==> m'.log[j] == m.log[j];
    forall j, f | 0 <= j < |m'.log| && f in m'.files && m'.log[j].KillsFile(own(f))
      ensures PendingFileAdd(m'.log, j + 1, f)
    {
      LaterFileAddsStay(m.log, EventOf(op), j + 1, f);
    }
  }

  lemma MasterStaysSteady(m: Master, op: MasterOp, own: Owners)
    requires MasterInvariant(m) && SteadyMaster(m, own) && SteadyOp(op, own)
    requires forall f :: own(f).fileId == f
    ensures SteadyMaster(ApplyMaster(m, op), own)
  {
    if Accepts(m, op) {
      forall k | At(ApplyMaster(m, op).contents, k).Some?
        ensures Owned(At(ApplyMaster(m, op).contents, k).value, own) && k.fileId in ApplyMaster(m, op).files
      {
        MasterContentsStaySteady(m, op, own, k);
      }
      AddsStayFirst(m, op);
      KillsStayEarlier(m, op, own);
    }
  }

  lemma SideStaysSteady(m: Master, op: MasterOp, own: Owners, contents: seq<ContentInfo>,
                        files: map<nat, FileInfo>, cursor: nat)
    requires MasterInvariant(m) && SteadyMaster(m, own) && cursor <= |m.log|
    requires forall f :: own(f).fileId == f
    ensures SteadyContents(m, contents, cursor, own) ==> SteadyContents(ApplyMaster(m, op), contents, cursor, own)
    ensures SteadyFiles(m, files, cursor, own) ==> SteadyFiles(ApplyMaster(m, op), files, cursor, own)
  {
    if Accepts(m, op) {
      var log' := ApplyMaster(m, op).log;
      forall f
        ensures PendingFileKill(m.log, cursor, own(f)) ==> PendingFileKill(log', cursor, own(f))
        ensures f in m.files && f !in FilesAfter(m.files, op) ==> PendingFileKill(log', cursor, own(f))
      {
        LaterFileKillsStay(m.log, EventOf(op), cursor, own(f));
      }
      forall f
        ensures PendingFileAdd(m.log, cursor, f) ==> PendingFileAdd(log', cursor, f)
        ensures f !in m.files && f in FilesAfter(m.files, op) ==> PendingFileAdd(log', cursor, f)
      {
        LaterFileAddsStay(m.log, EventOf(op), cursor, f);
      }
    }
  }

  // ---- Replaying stays steady ----

  lemma NoAddAfterUpdate(m: Master, own: Owners, c: nat, f: nat)
    requires AddsComeFirst(m, own) && c < |m.log| && m.log[c] == FileUpdated(f)
    ensures !PendingFileAdd(m.log, c, f)
  {
  }

  lemma FileIsCached(y: System, own: Owners, f: nat)
    requires SteadyFiles(y.master, y.cache.files, y.cursor, own) && AddsComeFirst(y.master, own)
    requires y.cursor < |y.master.log| && y.master.log[y.cursor] == FileUpdated(f) && f in y.master.files
    ensures f in y.cache.files
  {
    NoAddAfterUpdate(y.master, own, y.cursor, f);
  }

  lemma GoneFileIsKilled(y: System, own: Owners, k: Key)
    requires SteadyContents(y.master, y.cache.contents, y.cursor, own) && SteadyMaster(y.master, own)
    requires y.cursor < |y.master.log| && forall f :: own(f).fileId == f
    requires y.master.log[y.cursor] == FileUpdated(k.fileId) && k.fileId !in y.master.files
    requires At(y.cache.contents, k).Some?
    ensures PendingKill(y.master.log, y.cursor + 1, At(y.cache.contents, k).value)
  {
    var c := At(y.cache.contents, k).value;
    AtIsLive(y.cache.contents, k);
    var j :| y.cursor <= j < |y.master.log| && y.master.log[j].KillsFile(own(k.fileId));
    assert j != y.cursor;
    RecordsGoWithFile(y.master.log[j], c, own);
  }

  lemma RecordHasFile(m: Master, own: Owners, k: Key)
    requires SteadyMaster(m, own) && At(m.contents, k).Some?
    ensures k.fileId in m.files
  {
  }

  // What the master has arrives.
  lemma NothingIsMissed(y: System, own: Owners, k: Key)
    requires y.cursor < |y.master.log| && SteadyMaster(y.master, own) && SteadyStep(y, Process(true, true), own)
    ensures !Missed(y, y.master.log[y.cursor], true, true, k)
  {
    if At(y.master.contents, k).Some? {
      RecordHasFile(y.master, own, k);
    }
  }

  // An update replaces the records of its file, or the file is gone and a deletion to come
  // matches them.
  lemma UpdatesReplace(y: System, own: Owners, k: Key)
    requires y.cursor < |y.master.log| && SteadyMaster(y.master, own) && forall f :: own(f).fileId == f
    requires SteadyContents(y.master, y.cache.contents, y.cursor, own)
    requires SteadyFiles(y.master, y.cache.files, y.cursor, own)
    requires y.master.log[y.cursor] == FileUpdated(k.fileId)
    ensures !UpdateMissed(y, FileUpdated(k.fileId), true, k) && !LeftStale(y, FileUpdated(k.fileId), true, k)
  {
    if k.fileId in y.master.files {
      FileIsCached(y, own, k.fileId);
    } else if At(y.cache.contents, k).Some? {
      GoneFileIsKilled(y, own, k);
      if At(y.master.contents, k).Some? {
        RecordHasFile(y.master, own, k);
      }
    }
  }

  lemma NothingGoesWrong(y: System, own: Owners, k: Key)
    requires y.cursor < |y.master.log| && Steady(y, own) && y.phase == Ready
    requires SteadyStep(y, Process(true, true), own)
    ensures var errors := AfterEvent(y, y.master.log[y.cursor], true, true);
            k !in errors.lost && k !in errors.stale
  {
    var ev := y.master.log[y.cursor];
    NothingIsMissed(y, own, k);
    assert !KilledAlive(y, ev, k);
    if ev == FileUpdated(k.fileId) {
      UpdatesReplace(y, own, k);
    }
  }

  lemma NoFileGoesWrong(y: System, own: Owners, f: nat)
    requires CanProcess(y) && Steady(y, own)
    ensures var errors := FileErrorsAfter(y, y.master.log[y.cursor], true); f !in errors.lost && f !in errors.stale
  {
    var ev := y.master.log[y.cursor];
    if ev == FileUpdated(f) && f !in y.master.files && f in y.cache.files {
      PassFileKill(y.master.log, y.cursor, own(f));
    }
  }

  lemma SteadyLess(m: Master, c: ContentInfo, own: Owners, a: nat, b: nat)
    requires a <= b && SteadyEntry(m, c, b, own)
    ensures SteadyEntry(m, c, a, own)
  {
  }

  // A handler keeps a record, drops it, or takes it from the page or the master.
  lemma NextComesFrom(y: System, k: Key)
    requires PageOk(y) && UniqueKeys(y.master.contents) && y.cursor < y.page.end
    ensures var next := NextEntry(y, true, true, k);
            next.Some? ==>
              next == At(y.cache.contents, k) || next == At(y.page.contents, k) || next == At(y.master.contents, k)
  {
    var ev := y.master.log[y.cursor];
    if ev.FileAdded? || ev.FileUpdated? {
      FileRecordsServed(y.page.contents, ev.fileId);
      FileRecordsServed(y.master.contents, ev.fileId);
    }
  }

  lemma ProcessKeepsSteadyEntry(y: System, own: Owners, k: Key)
    requires CanProcess(y) && Steady(y, own)
    requires NextEntry(y, true, true, k).Some?
    ensures SteadyEntry(y.master, NextEntry(y, true, true, k).value, y.cursor + 1, own)
  {
    var next := NextEntry(y, true, true, k);
    NextComesFrom(y, k);
    AtIsLive(y.master.contents, k);
    if next == At(y.cache.contents, k) {
      StillKilled(y, own, k);
    } else if next == At(y.page.contents, k) {
      SteadyLess(y.master, next.value, own, y.cursor + 1, y.page.length);
    }
  }

  lemma StillKilled(y: System, own: Owners, k: Key)
    requires y.cursor < |y.master.log| && SteadyContents(y.master, y.cache.contents, y.cursor, own)
    requires forall f :: own(f).fileId == f
    requires At(y.cache.contents, k).Some? && NextEntry(y, true, true, k) == At(y.cache.contents, k)
    ensures SteadyEntry(y.master, At(y.cache.contents, k).value, y.cursor + 1, own)
  {
    var c, ev := At(y.cache.contents, k).value, y.master.log[y.cursor];
    AtIsLive(y.cache.contents, k);
    PassFileKill(y.master.log, y.cursor, own(k.fileId));
    if ev.KillsFile(own(k.fileId)) {
      RecordsGoWithFile(ev, c, own);
    }
  }

  lemma PassFileAdd(log: seq<Event>, c: nat, f: nat)
    requires c < |log|
    ensures PendingFileAdd(log, c, f) && !(log[c].FileAdded? && log[c].fileId == f) ==> PendingFileAdd(log, c + 1, f)
  {
  }

  ghost predicate SteadyFile(m: Master, entry: Option<FileInfo>, cursor: nat, own: Owners, f: nat) {
    if entry.Some? then entry.value == own(f) && (f !in m.files ==> PendingFileKill(m.log, cursor, own(f)))
    else f in m.files ==> PendingFileAdd(m.log, cursor, f)
  }

  lemma NextFileIsSteady(y: System, own: Owners, f: nat)
    requires CanProcess(y) && Steady(y, own)
    ensures SteadyFile(y.master, NextFileIs(y, true, f), y.cursor + 1, own, f)
  {
    PassFileKill(y.master.log, y.cursor, own(f));
    PassFileAdd(y.master.log, y.cursor, f);
  }

  lemma FileAfterIsSteady(y: System, own: Owners, f: nat)
    requires CanProcess(y) && Steady(y, own)
    ensures var handled := Handled(y, y.master.log[y.cursor], true, true);
            SteadyFile(y.master, FileAt(FilesAfterEvent(y.cache.files, handled), f), y.cursor + 1, own, f)
  {
    NextFileEntryIs(y, true, true, f);
    NextFileIsSteady(y, own, f);
  }

  lemma FilesAreSteady(m: Master, files: map<nat, FileInfo>, cursor: nat, own: Owners)
    requires forall f :: SteadyFile(m, FileAt(files, f), cursor, own, f)
    ensures SteadyFiles(m, files, cursor, own)
  {
    forall f
      ensures f in files ==> files[f] == own(f) && (f !in m.files ==> PendingFileKill(m.log, cursor, own(f)))
      ensures f in m.files && f !in files ==> PendingFileAdd(m.log, cursor, f)
    {
      assert SteadyFile(m, FileAt(files, f), cursor, own, f);
    }
  }

  lemma ProcessKeepsSteadyFiles(y: System, own: Owners)
    requires CanProcess(y) && Steady(y, own)
    ensures var handled := Handled(y, y.master.log[y.cursor], true, true);
            SteadyFiles(y.master, FilesAfterEvent(y.cache.files, handled), y.cursor + 1, own)
  {
    var files := FilesAfterEvent(y.cache.files, Handled(y, y.master.log[y.cursor], true, true));
    forall f ensures SteadyFile(y.master, FileAt(files, f), y.cursor + 1, own, f) {
      FileAfterIsSteady(y, own, f);
    }
    FilesAreSteady(y.master, files, y.cursor + 1, own);
  }

  lemma ProcessKeepsSteadyContents(y: System, own: Owners)
    requires CanProcess(y) && Steady(y, own)
    ensures var y' := Exec(y, Process(true, true)); SteadyContents(y.master, y'.cache.contents, y.cursor + 1, own)
  {
    var y', ev := Exec(y, Process(true, true)), y.master.log[y.cursor];
    HandledIsServed(y, ev, true, true);
    forall k | At(y'.cache.contents, k).Some?
      ensures SteadyEntry(y.master, At(y'.cache.contents, k).value, y.cursor + 1, own)
    {
      EntryAfter(y.cache, Handled(y, ev, true, true), k);
      ProcessKeepsSteadyEntry(y, own, k);
    }
  }

  lemma NothingIsWrong(y: System, own: Owners)
    requires CanProcess(y) && Steady(y, own) && SteadyStep(y, Process(true, true), own)
    ensures var y' := Exec(y, Process(true, true));
            y'.contents == Errors(iset{}, iset{}) && y'.files == Errors(iset{}, iset{})
  {
    var y' := Exec(y, Process(true, true));
    forall k ensures k !in y'.contents.lost && k !in y'.contents.stale {
      NothingGoesWrong(y, own, k);
    }
    forall f ensures f !in y'.files.lost && f !in y'.files.stale {
      NoFileGoesWrong(y, own, f);
    }
  }

  lemma ProcessStaysSteady(y: System, own: Owners)
    requires CanProcess(y) && Steady(y, own) && SteadyStep(y, Process(true, true), own)
    ensures Steady(Exec(y, Process(true, true)), own)
  {
    var handled := Handled(y, y.master.log[y.cursor], true, true);
    HandledIsServed(y, y.master.log[y.cursor], true, true);
    FilesAre(y.cache, handled);
    ProcessKeepsSteadyFiles(y, own);
    ProcessKeepsSteadyContents(y, own);
    NothingIsWrong(y, own);
    OneProcessed(y);
  }

  lemma MasterStepStaysSteady(y: System, op: MasterOp, own: Owners)
    requires Invariant(y) && Steady(y, own) && SteadyOp(op, own)
    ensures Steady(Exec(y, MasterStep(op)), own)
  {
    MasterStaysSteady(y.master, op, own);
    SideStaysSteady(y.master, op, own, y.page.contents, y.page.files, y.page.length);
    SideStaysSteady(y.master, op, own, y.cache.contents, y.cache.files, y.cursor);
  }

  lemma MasterIsSteadySide(m: Master, own: Owners, c: nat)
    requires SteadyMaster(m, own)
    ensures SteadyContents(m, m.contents, c, own) && SteadyFiles(m, m.files, c, own)
  {
    forall k | At(m.contents, k).Some? ensures SteadyEntry(m, At(m.contents, k).value, c, own) {
      AtIsLive(m.contents, k);
    }
  }

  // A cache with the same answers is as steady.
  lemma SameSide(m: Master, s: seq<ContentInfo>, t: seq<ContentInfo>, c: nat, own: Owners)
    requires SteadyContents(m, s, c, own) && forall k :: At(t, k) == At(s, k)
    ensures SteadyContents(m, t, c, own)
  {
  }

  lemma LoadStaysSteady(y: System, own: Owners)
    requires Invariant(y) && Steady(y, own) && y.phase == ContentsMissing
    ensures Steady(Exec(y, LoadContents), own)
  {
    LoadingAnswers(y.cache, y.master.contents);
    MasterIsSteadySide(y.master, own, y.cursor);
    SameSide(y.master, y.master.contents, Exec(y, LoadContents).cache.contents, y.cursor, own);
  }

  lemma CompactStaysSteady(y: System, shutdown: bool, own: Owners)
    requires Invariant(y) && Steady(y, own) && y.phase == Ready
    ensures Steady(Exec(y, Compact(shutdown)), own)
  {
    CompactionAnswers(y.cache, shutdown);
    SameSide(y.master, y.cache.contents, Exec(y, Compact(shutdown)).cache.contents, y.cursor, own);
  }

  lemma StepStaysSteady(y: System, step: Step, own: Owners)
    requires Invariant(y) && Steady(y, own) && SteadyStep(y, step, own)
    ensures Steady(Exec(y, step), own)
  {
    match step
    case MasterStep(op) => MasterStepStaysSteady(y, op, own);
    case LoadContents =>
      if y.phase == ContentsMissing {
        LoadStaysSteady(y, own);
      }
    case Process(_, _) =>
      if CanProcess(y) {
        ProcessStaysSteady(y, own);
      }
    case Compact(shutdown) =>
      if y.phase == Ready {
        CompactStaysSteady(y, shutdown, own);
      }
    case LoadFiles => MasterIsSteadySide(y.master, own, y.cursor);
    case _ => MasterIsSteadySide(y.master, own, |y.master.log|);
  }

  lemma {:induction false} RunStaysSteady(steps: seq<Step>, own: Owners)
    requires SteadyRun(steps, own)
    ensures Steady(Run(INITIAL, steps), own)
  {
    if |steps| > 0 {
      var front, last := steps[..|steps| - 1], steps[|steps| - 1];
      forall n | 0 <= n < |front| ensures SteadyStep(Run(INITIAL, front[..n]), front[n], own) {
        assert front[..n] == steps[..n] && front[n] == steps[n];
      }
      RunStaysSteady(front, own);
      RunKeepsInvariant(front);
      assert SteadyStep(Run(INITIAL, steps[..|front|]), steps[|front|], own);
      StepStaysSteady(Run(INITIAL, front), last, own);
    }
  }

  lemma SteadyReadsSucceed(steps: seq<Step>, own: Owners)
    requires SteadyRun(steps, own)
    ensures FileReadsSucceed(steps)
  {
    forall n | 0 <= n < |steps| && steps[n].Process? ensures steps[n].fileOk {
      assert SteadyStep(Run(INITIAL, steps[..n]), steps[n], own);
    }
  }

  // When files keep their owners, no geometry is deleted, reads succeed and no CONTENT_ADDED
  // meets a tombstone, the caught-up cache has exactly the master's files and live records,
  // although the cursor is taken before the lists are loaded and pages carry what the master had
  // when they were fetched.
  lemma SteadyConvergence(steps: seq<Step>, own: Owners)
    requires SteadyRun(steps, own) && CaughtUp(Run(INITIAL, steps))
    ensures var y := Run(INITIAL, steps);
            LiveSet(y.cache.contents) == LiveSet(y.master.contents) && y.cache.files == y.master.files
  {
    RunStaysSteady(steps, own);
    SteadyReadsSucceed(steps, own);
    ExactConvergence(steps);
    ExactFileConvergence(steps);
  }

  // The steps such a run may have at any time, and when it may have the others.
  lemma AllowedSteps(y: System, own: Owners, info: FileInfo, records: seq<ContentInfo>, c: ContentInfo, ev: Event)
    ensures forall step :: step in {TakeCursor, LoadFiles, LoadContents, Compact(true), Compact(false),
                                    MasterStep(Note)} ==>
              SteadyStep(y, step, own)
    ensures forall n :: SteadyStep(y, FetchPage(n), own)
    ensures own(info.fileId) == info
            && (forall r :: r in records ==>
                  && r.fileId == info.fileId && r.producerId == info.producerId
                  && r.generationId == info.generationId && r.sourceId == info.sourceId) ==>
              SteadyStep(y, MasterStep(AddFile(info, records)), own)
              && SteadyStep(y, MasterStep(UpdateFile(info, records)), own)
    ensures own(c.fileId).producerId == c.producerId && own(c.fileId).generationId == c.generationId
            && own(c.fileId).sourceId == c.sourceId ==>
              SteadyStep(y, MasterStep(AddContent(c)), own) && SteadyStep(y, MasterStep(SetContent(c)), own)
    ensures !(ev.ListDeleted? && ev.sel.ByGeometry?) ==> SteadyStep(y, MasterStep(Delete(ev)), own)
    ensures y.cursor >= |y.master.log| ==> SteadyStep(y, Process(true, true), own)
    ensures y.cursor < |y.master.log| ==>
              var next := y.master.log[y.cursor];
              (next.ContentAdded? ==>
                 forall d :: d in y.cache.contents && d.deleted ==> Key(d.fileId, d.messageIndex) != next.key) ==>
              SteadyStep(y, Process(true, true), own)
  {
  }
}
