// The file and content events of the cache as functions on the primary lists, the plain
// registry they implement, and the proof that tombstones, in-place reuse and delayed
// compaction do not show: every run of events has the effect of immediate deletion.
module ContentEvents {
  import opened Wrappers
  import opened ContentOrder
  import opened ContentSequences

  datatype FileInfo = FileInfo(fileId: nat, producerId: nat, generationId: nat, sourceId: nat)

  // The primary content list with its delete counter, and what a lookup in the file list answers.
  datatype State = State(contents: seq<ContentInfo>, deleteCounter: nat, files: map<nat, FileInfo>)

  // One event of the master together with what the handler gets when it reads from the master.
  datatype Event =
    | FileAdded(file: Option<FileInfo>, records: seq<ContentInfo>)
    | FileUpdated(fileId: nat, file: Option<FileInfo>, fetched: Option<seq<ContentInfo>>)
    | ListDeleted(sel: Selector, withFiles: bool)  // also GEOMETRY_DELETED
    | GenerationListDeleted(producerId: nat)
    | ContentAdded(fileId: nat, messageIndex: nat, content: Option<ContentInfo>)
    | ContentUpdated(fileId: nat, messageIndex: nat, content: Option<ContentInfo>)
    | ContentDeleted(fileId: nat, messageIndex: nat)
    | Clear
    | Reload(files: map<nat, FileInfo>, loaded: seq<ContentInfo>)
    | Compact(shutdown: bool)
  {
    // The master serves live records, a file under its own id, and a message under its own key.
    ghost predicate FromMaster() {
      match this
      case FileAdded(file, records) => AllLive(records)
      case FileUpdated(f, file, fetched) =>
        (file.Some? ==> file.value.fileId == f) && (fetched.Some? ==> AllLive(fetched.value))
      case ContentAdded(f, i, content) => content.Some? ==> !content.value.deleted && HasKey(content.value, f, i)
      case ContentUpdated(f, i, content) => content.Some? ==> !content.value.deleted && HasKey(content.value, f, i)
      case Reload(files, loaded) => AllLive(loaded) && SortedBy(FILE_MESSAGE, loaded) && UniqueKeys(loaded)
      case _ => true
    }
  }

  ghost predicate AllLive(s: seq<ContentInfo>) {
    forall i :: 0 <= i < |s| ==> !s[i].deleted
  }

  // Sorted, one record per message, and no more tombstones than the counter says.
  ghost predicate Invariant(st: State) {
    && SortedBy(FILE_MESSAGE, st.contents)
    && UniqueKeys(st.contents)
    && CountDeleted(st.contents) <= st.deleteCounter
  }

  // ---- The handlers ----

  // An equal record that is a tombstone is overwritten; an equal live record stays.
  function AddOrReplaceContent(st: State, c: ContentInfo): State {
    var i := LowerBound(FILE_MESSAGE, st.contents, c);
    if i < |st.contents| && st.contents[i].Compare(FILE_MESSAGE, c) == 0 then
      if st.contents[i].deleted then
        st.(contents := st.contents[i := c.(deleted := false)],
            deleteCounter := if st.deleteCounter > 0 then st.deleteCounter - 1 else 0)
      else st
    else st.(contents := Inserted(FILE_MESSAGE, st.contents, c))
  }

  function AddIfNotLive(st: State, c: ContentInfo): State {
    if LookupLive(st.contents, c.fileId, c.messageIndex).Some? then st else AddOrReplaceContent(st, c)
  }

  function AddAll(st: State, records: seq<ContentInfo>): State {
    if |records| == 0 then st
    else AddIfNotLive(AddAll(st, records[..|records| - 1]), records[|records| - 1])
  }

  function MarkContents(st: State, sel: Selector): State {
    st.(contents := Marked(st.contents, sel), deleteCounter := st.deleteCounter + CountSelected(st.contents, sel))
  }

  predicate SelectsFile(sel: Selector, file: FileInfo) {
    match sel
    case ByFile(f) => file.fileId == f
    case ByGeneration(g) => file.generationId == g
    case ByProducer(p) => file.producerId == p
    case BySource(s) => file.sourceId == s
    case _ => false
  }

  function RemainingFiles(files: map<nat, FileInfo>, sel: Selector): map<nat, FileInfo> {
    map f | f in files && !SelectsFile(sel, files[f]) :: files[f]
  }

  function OnFileAdded(st: State, file: FileInfo, records: seq<ContentInfo>): State {
    AddAll(if file.fileId in st.files then st else st.(files := st.files[file.fileId := file]), records)
  }

  function OnFileUpdated(st: State, fileId: nat, file: FileInfo, fetched: Option<seq<ContentInfo>>): State {
    var marked := if fileId in st.files then MarkContents(st, ByFile(fileId)) else st;
    var refreshed := marked.(files := st.files[fileId := file]);
    if fetched.Some? then AddAll(refreshed, fetched.value) else refreshed
  }

  function OnContentAdded(st: State, fileId: nat, messageIndex: nat, content: Option<ContentInfo>): State {
    if LookupLive(st.contents, fileId, messageIndex).Some? || content.None? then st
    else if LookupLive(st.contents, content.value.fileId, content.value.messageIndex).Some? then st
    else st.(contents := Inserted(FILE_MESSAGE, st.contents, content.value))
  }

  function OnCompact(st: State, shutdown: bool): State {
    if st.deleteCounter == 0 || shutdown then st
    else st.(contents := Kept(st.contents, Nothing), deleteCounter := 0)
  }

  function Apply(st: State, ev: Event): State {
    match ev
    case FileAdded(file, records) => if file.None? then st else OnFileAdded(st, file.value, records)
    case FileUpdated(f, file, fetched) => if file.None? then st else OnFileUpdated(st, f, file.value, fetched)
    case ListDeleted(sel, withFiles) =>
      MarkContents(st, sel).(files := if withFiles then RemainingFiles(st.files, sel) else st.files)
    case GenerationListDeleted(p) =>
      var kept := Kept(st.contents, ByProducer(p));
      State(kept, st.deleteCounter + Removed(st.contents, ByProducer(p)), RemainingFiles(st.files, ByProducer(p)))
    case ContentAdded(f, i, content) => OnContentAdded(st, f, i, content)
    case ContentUpdated(f, i, content) =>
      OnContentAdded(st.(contents := Kept(st.contents, ByMessage(f, i))), f, i, content)
    case ContentDeleted(f, i) =>
      st.(contents := MarkedMessage(st.contents, f, i),
          deleteCounter := st.deleteCounter + if LookupLive(st.contents, f, i).Some? then 1 else 0)
    case Clear => State([], st.deleteCounter, map[])
    case Reload(files, loaded) => State(loaded, st.deleteCounter, files)
    case Compact(shutdown) => OnCompact(st, shutdown)
  }

  function Removed(s: seq<ContentInfo>, sel: Selector): nat {
    KeptIsNotLonger(s, sel);
    |s| - |Kept(s, sel)|
  }

  lemma KeptIsNotLonger(s: seq<ContentInfo>, sel: Selector)
    ensures |Kept(s, sel)| <= |s|
  {
  }

  ghost function Run(st: State, events: seq<Event>): State {
    if |events| == 0 then st else Apply(Run(st, events[..|events| - 1]), events[|events| - 1])
  }

  // ---- The plain registry: deleting removes at once ----

  datatype Registry = Registry(live: set<ContentInfo>, files: map<nat, FileInfo>)

  ghost function View(st: State): Registry {
    Registry(LiveSet(st.contents), st.files)
  }

  ghost predicate HasMessage(live: set<ContentInfo>, fileId: nat, messageIndex: nat) {
    exists c :: c in live && HasKey(c, fileId, messageIndex)
  }

  ghost function RecordsOf(records: seq<ContentInfo>): set<ContentInfo> {
    set i | 0 <= i < |records| :: records[i]
  }

  ghost function Without(live: set<ContentInfo>, sel: Selector): set<ContentInfo> {
    set c | c in live && !sel.Selects(c)
  }

  ghost function With(live: set<ContentInfo>, c: ContentInfo): set<ContentInfo> {
    if HasMessage(live, c.fileId, c.messageIndex) then live else live + {c}
  }

  ghost function WithAll(live: set<ContentInfo>, records: seq<ContentInfo>): set<ContentInfo> {
    if |records| == 0 then live else With(WithAll(live, records[..|records| - 1]), records[|records| - 1])
  }

  ghost function PlainApply(r: Registry, ev: Event): Registry {
    match ev
    case FileAdded(file, records) =>
      if file.None? then r
      else Registry(WithAll(r.live, records),
                    if file.value.fileId in r.files then r.files else r.files[file.value.fileId := file.value])
    case FileUpdated(f, file, fetched) =>
      if file.None? then r
      else
        var base := if f in r.files then Without(r.live, ByFile(f)) else r.live;
        Registry(if fetched.Some? then WithAll(base, fetched.value) else base, r.files[f := file.value])
    case ListDeleted(sel, withFiles) =>
      Registry(Without(r.live, sel), if withFiles then RemainingFiles(r.files, sel) else r.files)
    case GenerationListDeleted(p) =>
      Registry(Without(r.live, ByProducer(p)), RemainingFiles(r.files, ByProducer(p)))
    case ContentAdded(f, i, content) =>
      if content.None? then r else r.(live := With(r.live, content.value))
    case ContentUpdated(f, i, content) =>
      var base := Without(r.live, ByMessage(f, i));
      if content.None? then r.(live := base) else r.(live := With(base, content.value))
    case ContentDeleted(f, i) => r.(live := Without(r.live, ByMessage(f, i)))
    case Clear => Registry({}, map[])
    case Reload(files, loaded) => Registry(RecordsOf(loaded), files)
    case Compact(_) => r
  }

  ghost function PlainRun(r: Registry, events: seq<Event>): Registry {
    if |events| == 0 then r else PlainApply(PlainRun(r, events[..|events| - 1]), events[|events| - 1])
  }

  // CONTENT_ADDED does not reuse tombstones: it loses the new record when one is in the way.
  ghost predicate LosesRecord(st: State, ev: Event) {
    && ev.ContentAdded?
    && ev.content.Some?
    && exists k :: 0 <= k < |st.contents| && st.contents[k].deleted
                   && HasKey(st.contents[k], ev.fileId, ev.messageIndex)
  }

  // ---- One step ----

  lemma LookupIsMembership(s: seq<ContentInfo>, fileId: nat, messageIndex: nat)
    requires UniqueKeys(s)
    ensures LookupLive(s, fileId, messageIndex).Some? <==> HasMessage(LiveSet(s), fileId, messageIndex)
  {
    var i := FirstWithKey(s, fileId, messageIndex);
    if c :| c in LiveSet(s) && HasKey(c, fileId, messageIndex) {
      LookupFindsTheLiveRecord(s, c);
    }
  }

  lemma LiveSetOfInsertion(s: seq<ContentInfo>, i: nat, c: ContentInfo)
    requires i <= |s|
    ensures LiveSet(s[..i] + [c] + s[i..]) == LiveSet(s) + if c.deleted then {} else {c}
  {
    var t := s[..i] + [c] + s[i..];
    forall d | d in LiveSet(s) ensures d in LiveSet(t) {
      var k :| 0 <= k < |s| && !s[k].deleted && s[k] == d;
      assert t[if k < i then k else k + 1] == d;
    }
    assert t[i] == c;
  }

  lemma LiveSetOfReuse(s: seq<ContentInfo>, i: nat, c: ContentInfo)
    requires i < |s| && s[i].deleted && !c.deleted
    ensures LiveSet(s[i := c]) == LiveSet(s) + {c}
  {
    var t := s[i := c];
    forall d | d in LiveSet(s) ensures d in LiveSet(t) {
      var k :| 0 <= k < |s| && !s[k].deleted && s[k] == d;
      assert t[k] == d;
    }
    assert t[i] == c;
  }

  lemma InsertedEffect(st: State, c: ContentInfo)
    requires Invariant(st) && !c.deleted && !HasEqual(FILE_MESSAGE, st.contents, c)
    ensures Invariant(st.(contents := Inserted(FILE_MESSAGE, st.contents, c)))
    ensures LiveSet(Inserted(FILE_MESSAGE, st.contents, c)) == LiveSet(st.contents) + {c}
  {
    var i := LowerBound(FILE_MESSAGE, st.contents, c);
    AfterLowerBound(FILE_MESSAGE, st.contents, c);
    InsertedKeepsOrder(FILE_MESSAGE, st.contents, c);
    InsertedKeepsUniqueKeys(st.contents, c);
    CountDeletedOfInsertion(st.contents, i, c);
    LiveSetOfInsertion(st.contents, i, c);
  }

  lemma ReuseKeepsOrderAndKeys(s: seq<ContentInfo>, i: nat, c: ContentInfo)
    requires SortedBy(FILE_MESSAGE, s) && UniqueKeys(s)
    requires i < |s| && HasKey(s[i], c.fileId, c.messageIndex)
    ensures SortedBy(FILE_MESSAGE, s[i := c]) && UniqueKeys(s[i := c])
  {
  }

  // Adding a record that is not live yet makes it live, through a new slot or a tombstone's.
  lemma AddIfNotLiveEffect(st: State, c: ContentInfo)
    requires Invariant(st) && !c.deleted
    ensures Invariant(AddIfNotLive(st, c))
    ensures LiveSet(AddIfNotLive(st, c).contents) == With(LiveSet(st.contents), c)
    ensures AddIfNotLive(st, c).files == st.files
  {
    var s := st.contents;
    LookupIsMembership(s, c.fileId, c.messageIndex);
    if LookupLive(s, c.fileId, c.messageIndex).None? {
      var i := LowerBound(FILE_MESSAGE, s, c);
      AfterLowerBound(FILE_MESSAGE, s, c);
      if i < |s| && s[i].Compare(FILE_MESSAGE, c) == 0 {
        FileMessageEquality(s[i], c);
        assert s[i].deleted;
        LiveSetOfReuse(s, i, c);
        ReuseKeepsOrderAndKeys(s, i, c);
        CountDeletedOfUpdate(s, i, c);
      } else {
        InsertedEffect(st, c);
      }
    }
  }

  // Whether the lookup has been made before or not: a live record of the message stays.
  lemma AddOrReplaceIsAddIfNotLive(st: State, c: ContentInfo)
    requires Invariant(st)
    ensures AddOrReplaceContent(st, c) == AddIfNotLive(st, c)
  {
    var s := st.contents;
    AfterLowerBound(FILE_MESSAGE, s, c);
    var k := FirstWithKey(s, c.fileId, c.messageIndex);
    if k < |s| {
      FileMessageEquality(s[k], c);
      FileMessageEquality(s[LowerBound(FILE_MESSAGE, s, c)], c);
    }
  }

  lemma AddOrReplaceEffect(st: State, c: ContentInfo)
    requires Invariant(st) && !c.deleted
    ensures var i := LowerBound(FILE_MESSAGE, st.contents, c);
            HasEqual(FILE_MESSAGE, st.contents, c) <==>
              i < |st.contents| && st.contents[i].Compare(FILE_MESSAGE, c) == 0
    ensures Invariant(AddOrReplaceContent(st, c))
  {
    AddOrReplaceIsAddIfNotLive(st, c);
    AddIfNotLiveEffect(st, c);
    AfterLowerBound(FILE_MESSAGE, st.contents, c);
  }

  lemma {:induction false} AddAllEffect(st: State, records: seq<ContentInfo>)
    requires Invariant(st) && AllLive(records)
    ensures Invariant(AddAll(st, records))
    ensures LiveSet(AddAll(st, records).contents) == WithAll(LiveSet(st.contents), records)
    ensures AddAll(st, records).files == st.files
  {
    if |records| > 0 {
      AddAllEffect(st, records[..|records| - 1]);
      AddIfNotLiveEffect(AddAll(st, records[..|records| - 1]), records[|records| - 1]);
    }
  }

  lemma MarkContentsEffect(st: State, sel: Selector)
    requires Invariant(st)
    ensures Invariant(MarkContents(st, sel))
    ensures LiveSet(MarkContents(st, sel).contents) == Without(LiveSet(st.contents), sel)
  {
    MarkedKeepsOrderAndKeys(FILE_MESSAGE, st.contents, sel);
    MarkedCount(st.contents, sel);
    LiveSetOfMarked(st.contents, sel);
  }

  lemma KeptEffect(st: State, sel: Selector, counter: nat)
    requires Invariant(st)
    ensures Invariant(State(Kept(st.contents, sel), counter, st.files))
    ensures LiveSet(Kept(st.contents, sel)) == Without(LiveSet(st.contents), sel)
  {
    var kept := Kept(st.contents, sel);
    KeptKeepsOrderAndKeys(FILE_MESSAGE, st.contents, sel);
    KeptAreTheLiveUnselected(st.contents, sel);
    KeptHasNoTombstone(st.contents, sel);
    CountDeletedZero(kept);
    forall c | c in kept ensures c in LiveSet(kept) {
      var i :| 0 <= i < |kept| && kept[i] == c;
    }
  }

  // The counter bounds the tombstones after every event, so compaction is never skipped wrongly.
  lemma StepKeepsInvariant(st: State, ev: Event)
    requires Invariant(st) && ev.FromMaster()
    ensures Invariant(Apply(st, ev))
  {
    match ev
    case FileAdded(file, records) =>
      if file.Some? {
        var base := if file.value.fileId in st.files then st
            else st.(files := st.files[file.value.fileId := file.value]);
        AddAllEffect(base, records);
      }
    case FileUpdated(f, file, fetched) =>
      if file.Some? {
        MarkContentsEffect(st, ByFile(f));
        var marked := if f in st.files then MarkContents(st, ByFile(f)) else st;
        if fetched.Some? {
          AddAllEffect(marked.(files := st.files[f := file.value]), fetched.value);
        }
      }
    case ListDeleted(sel, withFiles) => MarkContentsEffect(st, sel);
    case GenerationListDeleted(p) =>
      KeptEffect(st, ByProducer(p), st.deleteCounter + Removed(st.contents, ByProducer(p)));
    case ContentAdded(f, i, content) => ContentAddedKeepsInvariant(st, f, i, content);
    case ContentUpdated(f, i, content) =>
      KeptEffect(st, ByMessage(f, i), st.deleteCounter);
      ContentAddedKeepsInvariant(st.(contents := Kept(st.contents, ByMessage(f, i))), f, i, content);
    case ContentDeleted(f, i) =>
      MarkedMessageIsMarked(st.contents, f, i);
      MarkedKeepsOrderAndKeys(FILE_MESSAGE, st.contents, ByMessage(f, i));
      var k := FirstWithKey(st.contents, f, i);
      if k < |st.contents| && !st.contents[k].deleted {
        CountDeletedOfUpdate(st.contents, k, st.contents[k].(deleted := true));
      }
    case Clear =>
    case Reload(files, loaded) => CountDeletedZero(loaded);
    case Compact(shutdown) => KeptEffect(st, Nothing, 0);
  }

  // What the handler checks before it adds the record.
  predicate Adds(st: State, fileId: nat, messageIndex: nat, content: Option<ContentInfo>) {
    && LookupLive(st.contents, fileId, messageIndex).None? && content.Some?
    && LookupLive(st.contents, content.value.fileId, content.value.messageIndex).None?
  }

  lemma AddedState(st: State, fileId: nat, messageIndex: nat, content: Option<ContentInfo>)
    requires Invariant(st) && ContentAdded(fileId, messageIndex, content).FromMaster()
    ensures var st' := Apply(st, ContentAdded(fileId, messageIndex, content));
            && Invariant(st')
            && st' == if Adds(st, fileId, messageIndex, content)
                      then st.(contents := Inserted(FILE_MESSAGE, st.contents, content.value)) else st
  {
    ContentAddedKeepsInvariant(st, fileId, messageIndex, content);
  }

  lemma ProducerRemovedState(st: State, producerId: nat)
    requires Invariant(st)
    ensures var st' := Apply(st, GenerationListDeleted(producerId));
            var kept := Kept(st.contents, ByProducer(producerId));
            && Invariant(st') && |kept| <= |st.contents|
            && st' == State(kept, st.deleteCounter + (|st.contents| - |kept|), RemainingFiles(st.files,
                ByProducer(producerId)))
  {
    StepKeepsInvariant(st, GenerationListDeleted(producerId));
  }

  lemma ContentAddedKeepsInvariant(st: State, fileId: nat, messageIndex: nat, content: Option<ContentInfo>)
    requires Invariant(st) && (content.Some? ==> !content.value.deleted)
    ensures Invariant(OnContentAdded(st, fileId, messageIndex, content))
  {
    if content.Some? && !HasEqual(FILE_MESSAGE, st.contents, content.value) {
      InsertedEffect(st, content.value);
    } else if content.Some? {
      AfterLowerBound(FILE_MESSAGE, st.contents, content.value);
    }
  }

  lemma ContentAddedEffect(st: State, fileId: nat, messageIndex: nat, content: Option<ContentInfo>)
    requires Invariant(st) && ContentAdded(fileId, messageIndex, content).FromMaster()
    ensures OnContentAdded(st, fileId, messageIndex, content).files == st.files
    ensures var after := LiveSet(OnContentAdded(st, fileId, messageIndex, content).contents);
            if content.None? || LosesRecord(st, ContentAdded(fileId, messageIndex, content))
            then after == LiveSet(st.contents)
            else after == With(LiveSet(st.contents), content.value)
  {
    var s := st.contents;
    LookupIsMembership(s, fileId, messageIndex);
    if content.Some? {
      var c := content.value;
      AfterLowerBound(FILE_MESSAGE, s, c);
      forall k | 0 <= k < |s|
        ensures s[k].Compare(FILE_MESSAGE, c) == 0 <==> HasKey(s[k], fileId, messageIndex)
      {
        FileMessageEquality(s[k], c);
      }
      if !HasEqual(FILE_MESSAGE, s, c) {
        InsertedEffect(st, c);
      }
    }
  }

  // Each event has the plain effect exactly when it does not lose a record to a tombstone.
  lemma StepRefinesPlain(st: State, ev: Event)
    requires Invariant(st) && ev.FromMaster()
    ensures View(Apply(st, ev)) == PlainApply(View(st), ev) <==> !LosesRecord(st, ev)
  {
    var s := st.contents;
    match ev
    case FileAdded(file, records) =>
      if file.Some? {
        var base := if file.value.fileId in st.files then st
            else st.(files := st.files[file.value.fileId := file.value]);
        AddAllEffect(base, records);
      }
    case FileUpdated(f, file, fetched) =>
      if file.Some? {
        MarkContentsEffect(st, ByFile(f));
        var marked := if f in st.files then MarkContents(st, ByFile(f)) else st;
        if fetched.Some? {
          AddAllEffect(marked.(files := st.files[f := file.value]), fetched.value);
        }
      }
    case ListDeleted(sel, withFiles) => MarkContentsEffect(st, sel);
    case GenerationListDeleted(p) => KeptEffect(st, ByProducer(p), 0);
    case ContentAdded(f, i, content) => ContentAddedRefines(st, f, i, content);
    case ContentUpdated(f, i, content) =>
      KeptEffect(st, ByMessage(f, i), st.deleteCounter);
      var kept := st.(contents := Kept(s, ByMessage(f, i)));
      CountDeletedZero(kept.contents);
      KeptHasNoTombstone(s, ByMessage(f, i));
      ContentAddedEffect(kept, f, i, content);
    case ContentDeleted(f, i) =>
      MarkedMessageIsMarked(s, f, i);
      LiveSetOfMarked(s, ByMessage(f, i));
    case Clear =>
    case Reload(files, loaded) => assert LiveSet(loaded) == RecordsOf(loaded);
    case Compact(shutdown) =>
      KeptEffect(st, Nothing, 0);
      assert Without(LiveSet(s), Nothing) == LiveSet(s);
  }

  lemma ContentAddedRefines(st: State, f: nat, i: nat, content: Option<ContentInfo>)
    requires Invariant(st) && ContentAdded(f, i, content).FromMaster()
    ensures var ev := ContentAdded(f, i, content);
            View(Apply(st, ev)) == PlainApply(View(st), ev) <==> !LosesRecord(st, ev)
  {
    var ev := ContentAdded(f, i, content);
    ContentAddedEffect(st, f, i, content);
    if LosesRecord(st, ev) {
      var k :| 0 <= k < |st.contents| && st.contents[k].deleted && HasKey(st.contents[k], f, i);
      forall c | c in LiveSet(st.contents) ensures !HasKey(c, f, i) {
        var j :| 0 <= j < |st.contents| && !st.contents[j].deleted && st.contents[j] == c;
      }
      assert content.value in PlainApply(View(st), ev).live;
      assert content.value !in LiveSet(st.contents);
    }
  }

  // ---- Whole runs ----

  ghost predicate AllFromMaster(events: seq<Event>) {
    forall i :: 0 <= i < |events| ==> events[i].FromMaster()
  }

  lemma {:induction false} RunKeepsInvariant(st: State, events: seq<Event>)
    requires Invariant(st) && AllFromMaster(events)
    ensures Invariant(Run(st, events))
  {
    if |events| > 0 {
      RunKeepsInvariant(st, events[..|events| - 1]);
      StepKeepsInvariant(Run(st, events[..|events| - 1]), events[|events| - 1]);
    }
  }

  // In every reachable state a compaction attempt leaves no tombstone and no live record is
  // touched; skipping it because of a zero counter is right, only a shutdown can leave some.
  lemma CompactionIsComplete(st: State, events: seq<Event>)
    requires Invariant(st) && AllFromMaster(events)
    ensures var after := Apply(Run(st, events), Compact(false));
            && AllLive(after.contents)
            && after.deleteCounter == 0
            && View(after) == View(Run(st, events))
  {
    RunKeepsInvariant(st, events);
    var reached := Run(st, events);
    StepRefinesPlain(reached, Compact(false));
    CountDeletedZero(reached.contents);
    KeptHasNoTombstone(reached.contents, Nothing);
    CountDeletedZero(Kept(reached.contents, Nothing));
  }

  ghost predicate NoRecordLost(st: State, events: seq<Event>) {
    forall n :: 0 <= n < |events| ==> !LosesRecord(Run(st, events[..n]), events[n])
  }

  // After every event of the run the cache shows what the plain registry holds.
  ghost predicate LooksPlain(st: State, events: seq<Event>) {
    forall n :: 0 <= n <= |events| ==> View(Run(st, events[..n])) == PlainRun(View(st), events[..n])
  }

  // Readers see exactly what immediate deletion would show, after every event of the run, if
  // and only if no CONTENT_ADDED meets a tombstone of its message.
  lemma RunRefinesPlain(st: State, events: seq<Event>)
    requires Invariant(st) && AllFromMaster(events)
    ensures LooksPlain(st, events) <==> NoRecordLost(st, events)
    ensures NoRecordLost(st, events) ==> View(Run(st, events)) == PlainRun(View(st), events)
  {
    if NoRecordLost(st, events) {
      forall n | 0 <= n <= |events| ensures View(Run(st, events[..n])) == PlainRun(View(st), events[..n]) {
        PrefixRefinesPlain(st, events, n);
      }
      assert events[..|events|] == events;
    }
    if LooksPlain(st, events) {
      forall n | 0 <= n < |events| ensures !LosesRecord(Run(st, events[..n]), events[n]) {
        RunNext(st, events, n);
        RunKeepsInvariant(st, events[..n]);
        StepRefinesPlain(Run(st, events[..n]), events[n]);
      }
    }
  }

  lemma RunNext(st: State, events: seq<Event>, n: nat)
    requires n < |events|
    ensures Run(st, events[..n + 1]) == Apply(Run(st, events[..n]), events[n])
    ensures PlainRun(View(st), events[..n + 1]) == PlainApply(PlainRun(View(st), events[..n]), events[n])
  {
    assert events[..n + 1][..n] == events[..n];
  }

  lemma {:induction false} PrefixRefinesPlain(st: State, events: seq<Event>, n: nat)
    requires Invariant(st) && AllFromMaster(events) && NoRecordLost(st, events) && n <= |events|
    ensures View(Run(st, events[..n])) == PlainRun(View(st), events[..n])
  {
    if n > 0 {
      RunKeepsInvariant(st, events[..n - 1]);
      PrefixRefinesPlain(st, events, n - 1);
      StepRefinesPlain(Run(st, events[..n - 1]), events[n - 1]);
      RunNext(st, events, n - 1);
    }
  }

  // A record deleted and added again before the next compaction is missing afterwards.
  lemma AddedAfterDeletedIsLost(c: ContentInfo)
    requires !c.deleted
    ensures var st := State([c], 0, map[]);
            var events := [ContentDeleted(c.fileId, c.messageIndex), ContentAdded(c.fileId, c.messageIndex, Some(c))];
            && Invariant(st) && AllFromMaster(events)
            && View(Run(st, events)).live == {}
            && PlainRun(View(st), events).live == {c}
  {
    var st := State([c], 0, map[]);
    var events := [ContentDeleted(c.fileId, c.messageIndex), ContentAdded(c.fileId, c.messageIndex, Some(c))];
    assert events[..1] == [events[0]] && events[..1][..0] == [];
    assert CountDeleted([c]) == CountDeleted([]) + 0 by { assert [c][..0] == []; }
    assert Run(st, events[..1][..0]) == st;
    var st1 := Run(st, events[..1]);
    assert st1.contents == [c.(deleted := true)] by {
      assert FirstWithKey([c], c.fileId, c.messageIndex) == 0;
    }
    assert LosesRecord(st1, events[1]) by {
      assert st1.contents[0].deleted;
    }
    RunKeepsInvariant(st, events[..1]);
    ContentAddedEffect(st1, c.fileId, c.messageIndex, Some(c));
    assert Run(st, events) == Apply(st1, events[1]);
    assert LiveSet(st.contents) == {c} by { assert st.contents[0] == c; }
    assert PlainRun(View(st), events[..1]).live == {};
  }

  // ---- FILE_UPDATED ----

  // The master's current list of a file: live records of that file, one per message.
  ghost predicate ServedFor(fileId: nat, records: seq<ContentInfo>) {
    && AllLive(records)
    && UniqueKeys(records)
    && forall i :: 0 <= i < |records| ==> records[i].fileId == fileId
  }

  lemma {:induction false} WithAllOfNewMessages(live: set<ContentInfo>, records: seq<ContentInfo>)
    requires UniqueKeys(records)
    ensures WithAll(live, records) ==
            live + set c | c in RecordsOf(records) && !HasMessage(live, c.fileId, c.messageIndex)
  {
    if |records| > 0 {
      var front, last := records[..|records| - 1], records[|records| - 1];
      WithAllOfNewMessages(live, front);
      assert RecordsOf(records) == RecordsOf(front) + {last} by {
        assert forall i :: 0 <= i < |front| ==> records[i] == front[i];
      }
      forall c | c in RecordsOf(front) ensures !HasKey(c, last.fileId, last.messageIndex) {
        var i :| 0 <= i < |front| && front[i] == c;
        assert records[i] == c;
      }
    }
  }

  // When both reads succeed for a cached file, its live records become exactly the master's
  // list, those of all other files stay, and the list stays sorted with one record per message.
  lemma FileUpdatedIsExact(st: State, fileId: nat, file: FileInfo, records: seq<ContentInfo>)
    requires Invariant(st) && fileId in st.files
    requires file.fileId == fileId && ServedFor(fileId, records)
    ensures var after := Apply(st, FileUpdated(fileId, Some(file), Some(records)));
            && Invariant(after)
            && (set c | c in LiveSet(after.contents) && c.fileId == fileId) == RecordsOf(records)
            && (set c | c in LiveSet(after.contents) && c.fileId != fileId)
               == (set c | c in LiveSet(st.contents) && c.fileId != fileId)
            && after.files == st.files[fileId := file]
  {
    var ev := FileUpdated(fileId, Some(file), Some(records));
    StepKeepsInvariant(st, ev);
    StepRefinesPlain(st, ev);
    var base := Without(LiveSet(st.contents), ByFile(fileId));
    WithAllOfNewMessages(base, records);
    assert forall c :: c in RecordsOf(records) ==> !HasMessage(base, c.fileId, c.messageIndex);
  }

  // The other outcomes: a failed content read empties a cached file, and for a file that is
  // not cached the records already live win over the master's.
  lemma FileUpdatedOtherwise(st: State, fileId: nat, file: FileInfo, records: seq<ContentInfo>)
    requires Invariant(st) && file.fileId == fileId && ServedFor(fileId, records)
    ensures fileId in st.files ==>
              LiveSet(Apply(st, FileUpdated(fileId, Some(file), None)).contents)
              == Without(LiveSet(st.contents), ByFile(fileId))
    ensures fileId !in st.files ==>
              LiveSet(Apply(st, FileUpdated(fileId, Some(file), Some(records))).contents)
              == LiveSet(st.contents) +
                 set c | c in RecordsOf(records) && !HasMessage(LiveSet(st.contents), c.fileId, c.messageIndex)
    ensures Apply(st, FileUpdated(fileId, Some(file), None)).files == st.files[fileId := file]
    ensures Apply(st, FileUpdated(fileId, None, Some(records))) == st
  {
    StepRefinesPlain(st, FileUpdated(fileId, Some(file), None));
    StepRefinesPlain(st, FileUpdated(fileId, Some(file), Some(records)));
    WithAllOfNewMessages(LiveSet(st.contents), records);
  }

  // ---- The events in fields ----

  // What the marking handlers leave, for each of the things records are deleted by.
  lemma ListDeletedLeaves(st: State, id: nat, geometryId: int, withFiles: bool)
    ensures var live := View(st).live;
            && View(Apply(st, ListDeleted(ByFile(id), withFiles))).live == (set c | c in live && c.fileId != id)
            && View(Apply(st, ListDeleted(ByGeneration(id), withFiles))).live
               == (set c | c in live && c.generationId != id)
            && View(Apply(st, ListDeleted(ByProducer(id), withFiles))).live
               == (set c | c in live && c.producerId != id)
            && View(Apply(st, ListDeleted(BySource(id), withFiles))).live == (set c | c in live && c.sourceId != id)
            && View(Apply(st, ListDeleted(ByGeometry(id, geometryId), withFiles))).live
               == (set c | c in live && !(c.generationId == id && c.geometryId == geometryId))
  {
    LiveSetOfMarked(st.contents, ByFile(id));
    LiveSetOfMarked(st.contents, ByGeneration(id));
    LiveSetOfMarked(st.contents, ByProducer(id));
    LiveSetOfMarked(st.contents, BySource(id));
    LiveSetOfMarked(st.contents, ByGeometry(id, geometryId));
  }

  // The same for the files, when they go as well.
  lemma ListDeletedLeavesFiles(st: State, id: nat, geometryId: int)
    ensures forall sel :: Apply(st, ListDeleted(sel, false)).files == st.files
    ensures var files := st.files;
            && Apply(st, ListDeleted(ByFile(id), true)).files
               == (map f | f in files && files[f].fileId != id :: files[f])
            && Apply(st, ListDeleted(ByGeneration(id), true)).files
               == (map f | f in files && files[f].generationId != id :: files[f])
            && Apply(st, ListDeleted(ByProducer(id), true)).files
               == (map f | f in files && files[f].producerId != id :: files[f])
            && Apply(st, ListDeleted(BySource(id), true)).files
               == (map f | f in files && files[f].sourceId != id :: files[f])
            && Apply(st, ListDeleted(ByGeometry(id, geometryId), true)).files == files
  {
  }

  lemma GenerationListDeletedLeaves(st: State, producerId: nat)
    ensures var st' := Apply(st, GenerationListDeleted(producerId));
            && View(st').live == (set c | c in View(st).live && c.producerId != producerId)
            && st'.files == (map f | f in st.files && st.files[f].producerId != producerId :: st.files[f])
            && |st'.contents| + st'.deleteCounter == |st.contents| + st.deleteCounter
            && forall c :: c in st'.contents ==> !c.deleted
  {
    var kept := Kept(st.contents, ByProducer(producerId));
    KeptAreTheLiveUnselected(st.contents, ByProducer(producerId));
    forall c ensures c in LiveSet(kept) <==> c in kept {
      if c in kept {
        var i :| 0 <= i < |kept| && kept[i] == c;
      }
    }
    assert View(Apply(st, GenerationListDeleted(producerId))).live == LiveSet(kept);
  }

  // Nobody of the live records has the message.
  ghost predicate IsNew(live: set<ContentInfo>, c: ContentInfo) {
    forall d :: d in live ==> !(d.fileId == c.fileId && d.messageIndex == c.messageIndex)
  }

  // FILE_ADDED keeps what is there, of the file as of its records.
  lemma FileAddedBrings(st: State, file: FileInfo, records: seq<ContentInfo>)
    requires Invariant(st) && AllLive(records) && UniqueKeys(records)
    ensures var st' := Apply(st, FileAdded(Some(file), records));
            && View(st').live == View(st).live + (set c | c in records && IsNew(View(st).live, c))
            && st'.files == if file.fileId in st.files then st.files else st.files[file.fileId := file]
    ensures Apply(st, FileAdded(None, records)) == st
  {
    StepRefinesPlain(st, FileAdded(Some(file), records));
    NewRecords(View(st).live, records);
  }

  lemma NewRecords(live: set<ContentInfo>, records: seq<ContentInfo>)
    requires UniqueKeys(records)
    ensures WithAll(live, records) == live + set c | c in records && IsNew(live, c)
  {
    WithAllOfNewMessages(live, records);
    forall c ensures IsNew(live, c) <==> !HasMessage(live, c.fileId, c.messageIndex) {
    }
    forall c ensures c in records <==> c in RecordsOf(records) {
    }
  }

  // CONTENT_ADDED needs a message of which there is neither a record nor a tombstone.
  lemma ContentAddedBrings(st: State, f: nat, i: nat, c: ContentInfo)
    requires Invariant(st) && ContentAdded(f, i, Some(c)).FromMaster()
    ensures var st' := Apply(st, ContentAdded(f, i, Some(c)));
            && st'.files == st.files
            && View(st').live == View(st).live +
               if exists d :: d in st.contents && d.fileId == f && d.messageIndex == i then {} else {c}
    ensures Apply(st, ContentAdded(f, i, None)) == st
  {
    ContentAddedEffect(st, f, i, Some(c));
    forall d | d in st.contents && HasKey(d, f, i)
      ensures LosesRecord(st, ContentAdded(f, i, Some(c))) || d in View(st).live
    {
      var k :| 0 <= k < |st.contents| && st.contents[k] == d;
    }
  }

  // CONTENT_UPDATED puts the record in place of whatever there was.
  lemma ContentUpdatedBrings(st: State, f: nat, i: nat, content: Option<ContentInfo>)
    requires Invariant(st) && ContentUpdated(f, i, content).FromMaster()
    ensures var st' := Apply(st, ContentUpdated(f, i, content));
            && st'.files == st.files
            && View(st').live == (set c | c in View(st).live && !(c.fileId == f && c.messageIndex == i)) +
               if content.Some? then {content.value} else {}
  {
    StepRefinesPlain(st, ContentUpdated(f, i, content));
  }

  lemma ContentDeletedLeaves(st: State, f: nat, i: nat)
    requires Invariant(st)
    ensures var st' := Apply(st, ContentDeleted(f, i));
            && st'.files == st.files
            && View(st').live == (set c | c in View(st).live && !(c.fileId == f && c.messageIndex == i))
            && st'.deleteCounter == st.deleteCounter + |View(st).live| - |View(st').live|
  {
    StepRefinesPlain(st, ContentDeleted(f, i));
    LookupIsMembership(st.contents, f, i);
    OneLess(View(st).live, View(Apply(st, ContentDeleted(f, i))).live, LookupLive(st.contents, f, i));
  }

  lemma OneLess(live: set<ContentInfo>, after: set<ContentInfo>, gone: Option<ContentInfo>)
    requires after == if gone.Some? then live - {gone.value} else live
    requires gone.Some? ==> gone.value in live
    ensures |live| == |after| + if gone.Some? then 1 else 0
  {
    if gone.Some? {
      assert live == after + {gone.value};
    }
  }

  // The counter grows by every selected slot, marked before or not.
  lemma MarkingCounts(st: State, sel: Selector, withFiles: bool)
    ensures Apply(st, ListDeleted(sel, withFiles)).deleteCounter
         == st.deleteCounter + |set k: nat | k < |st.contents| && sel.Selects(st.contents[k])|
  {
    SelectedAreCounted(st.contents, sel);
  }

  // Reusing a tombstone takes it off a positive counter; adding nothing or a new slot does not.
  lemma ReuseCounts(st: State, c: ContentInfo)
    requires Invariant(st)
    ensures var reused := exists d :: d in st.contents && d.deleted && d.fileId == c.fileId
                                      && d.messageIndex == c.messageIndex;
            AddOrReplaceContent(st, c).deleteCounter
            == if reused && st.deleteCounter > 0 then st.deleteCounter - 1 else st.deleteCounter
  {
    var s, i := st.contents, LowerBound(FILE_MESSAGE, st.contents, c);
    AfterLowerBound(FILE_MESSAGE, s, c);
    forall k | 0 <= k < |s| && HasKey(s[k], c.fileId, c.messageIndex) ensures k == i {
      FileMessageEquality(s[k], c);
      FileMessageEquality(s[i], c);
    }
    if i < |s| && s[i].Compare(FILE_MESSAGE, c) == 0 {
      FileMessageEquality(s[i], c);
      assert s[i] in s;
    }
  }

  // What the other events do to the counter, and what a shutdown leaves of a compaction.
  lemma CounterStays(st: State, f: nat, i: nat, content: Option<ContentInfo>, files: map<nat, FileInfo>)
    ensures Apply(st, ContentAdded(f, i, content)).deleteCounter == st.deleteCounter
    ensures Apply(st, ContentUpdated(f, i, content)).deleteCounter == st.deleteCounter
    ensures forall loaded :: Apply(st, Reload(files, loaded)) == State(loaded, st.deleteCounter, files)
    ensures Apply(st, Clear) == State([], st.deleteCounter, map[])
    ensures Apply(st, Compact(true)) == st
  {
  }
}
