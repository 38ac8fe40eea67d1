# A verified model of the SmartMet grid content cache

SmartMet grid-content keeps a registry of weather data: producers, generations, files and content
records. A content cache mirrors a master registry. It takes a cursor into the master's event log,
loads the lists page by page, and from then on replays the events, often reading the master's
current record instead of the one the event was about. Deletions only mark records until the next
compaction, and readers see a search structure that is published in one step. On top of the
registry the server evaluates functions over grid values, some of them in Lua.

This project models that logic in Dafny and proves what it keeps.

| module | what it models |
|---|---|
| `ContentOrder`, `ContentSequences`, `ContentInfoLists` | the content record, its twelve sort orders, and the list class on its array |
| `ContentEvents`, `ContentCaches` | file and content events on the primary list with tombstones and delete counter, as functions and as the class that runs them |
| `ContentMessages`, `ContentSync`, `ContentSteady` | what a handler does to one message, and the replication protocol for files and content records as a step relation of master, fetched page and cache |
| `GenerationSync` | the replication protocol for generations as a step relation of master and cache |
| `GenerationLists`, `GenerationCaches` | the generation list on its array, and the handlers of the generation events that run it |
| `EventCursors` | the bounded event list, the cursor and the event loop, against a master that goes on |
| `PagedLoads` | loading the file and content lists page by page |
| `ParamSummaries` | the parameter summary of a generation |
| `SwapDelays` | publishing a search structure that may wait for files |
| `Values`, `Variances`, `Medians`, `Modes`, `ThreeValued` | ensemble statistics and three-valued logic over values that may be missing |
| `LuaPools`, `FunctionTables` | the pool of Lua states with its threads, and the function table |
| `Csv`, `Numbers`, `EventCsv`, `ContentCsv` | CSV rows of events and content records |

`Wrappers` holds the option type. Where the source changes objects in place, a class or a loop with
the same fields and steps is proved against a function, and the main results are lemmas about that
function, over all inputs or all runs.

Results worth knowing:

- The generation list does not converge in every run. `GenerationSync.Convergence` says exactly for
  which generations it does, and two lemmas give runs, with all reads succeeding, that end with a
  missing and with a surplus generation.
- Neither do the content records. `ContentSync.Convergence` says exactly for which messages they do,
  by conditions on the single steps.
  From every caught-up state, a record that the master deletes and adds again before the next
  compaction goes missing (`ContentSync.ReplacedRecordIsMissing`): `CONTENT_ADDED` is the one event
  that loses a record to a tombstone (`ContentEvents.StepRefinesPlain`). So does every record of a
  geometry the master deletes, because the memory master keeps the records while the cache marks
  them (`ContentSync.DroppedGeometryIsMissing`).
- A cursor that falls behind the master's bounded event list skips events silently, and the cache
  could see it: the identifier of the next event does not follow the cursor
  (`EventCursors.ExactIffNothingLost`, `EventCursors.LateFetchSkips`).
- After a load of the Lua script that fails, slots without a state are handed out
  (`LuaPools.EmptySlotIsHandedOut`).
- A function name over 99 characters falls apart and loses characters
  (`FunctionTables.TokensAreChoppedPieces`).

Verify everything with `dafny verify dfyconfig.toml`.

## Model

| member | source | states |
|---|---|---|
| GenerationSync.Convergence | src/contentServer/cache/CacheImplementation.cpp:537-559 | For every run of master changes, cursor takes, late loads, replayed events with failing or succeeding reads, and compactions: when the cursor has caught up, the cache agrees with the master on a generation (present exactly if the master has it, with the same record) if and only if it is not in `lost`; excepted are only those whose last update could not be read. `lost` is filled and emptied by conditions on single steps |
| GenerationSync.ExactConvergence | src/contentServer/cache/CacheImplementation.cpp:6919-6960 | When every read of a living generation succeeds, what lookups in the caught-up cache find is the master's whole list if and only if nothing is lost |
| GenerationSync.CleanConvergence | src/contentServer/cache/CacheImplementation.cpp:6830-7033 | When in addition updates leave producer and source alone and no marking deletion hits the entry of a living generation, the caught-up cache is exactly the master's list, although the cursor is taken before the list is loaded |
| GenerationSync.UnmarkedConvergence | src/contentServer/cache/CacheImplementation.cpp:537-559 | When the master only sends the ADDED, UPDATED, STATUS_CHANGED, DELETED and LIST_DELETED_BY_PRODUCER_ID events, leaves producer and source of a generation alone and answers every read, the caught-up cache is exactly the master's list in every run |
| GenerationSync.FailedAdditionIsRepaired | src/contentServer/cache/CacheImplementation.cpp:6935-6941 | A generation whose addition could not be read is live again after the next update or status event that can be read, equal to the master's record but for a status that a later event will set |
| GenerationSync.LateLoadLosesGeneration | src/contentServer/cache/CacheImplementation.cpp:7060-7070 | A concrete run in which every read succeeds and the caught-up cache misses a generation: a deletion by source older than the load is replayed and marks it, and its own ADDED event meets the tombstone |
| GenerationSync.MovedGenerationSurvives | src/contentServer/cache/CacheImplementation.cpp:7023-7033 | A concrete run in which an update to another producer is read too late and the cache keeps a generation the master has deleted |
| GenerationSync.RunKeepsInvariant | src/contentServer/cache/CacheImplementation.cpp:6830-7089 | The invariant behind convergence holds in every run: each entry that is neither lost nor stale is right or an event still in the log will put it right, and exactly the lost ones are live on one side only |
| GenerationSync.StepKeepsInvariant | src/contentServer/cache/CacheImplementation.cpp:8449-8478 | The same for one step of any kind, compaction included |
| GenerationSync.MasterStepKeepsMaster | src/contentServer/memory/MemoryImplementation.cpp:1187-1254 | The master's log and list stay consistent: identifiers are used once, deleted ones stay away, a bulk deletion that matches a living generation is older than its record, and the last status event tells its status |
| GenerationSync.ProcessKeepsEntry | src/contentServer/cache/CacheImplementation.cpp:6830-6960 | Replaying one event against the master's current record keeps every entry that does not become lost or stale right or repairable |
| GenerationSync.ProcessKeepsLost | src/contentServer/cache/CacheImplementation.cpp:6706-6717 | A lost generation stays live on exactly one side until an event restores it |
| GenerationSync.BecomesLost | src/contentServer/cache/CacheImplementation.cpp:6830-7089 | When exactly a generation becomes lost, told by both sides and the event: its own event cannot be read while it is missing, a deletion hides it while the master has it (by a marking or because its record is stale), or its update is read after the master has deleted it and no deletion to come matches |
| GenerationSync.StaysLost | src/contentServer/cache/CacheImplementation.cpp:6830-7089 | After each further step a lost generation is still lost if and only if one side only has it |
| GenerationSync.GoesStale | src/contentServer/cache/CacheImplementation.cpp:6919-6942 | A record is stale exactly from an update that cannot be read until one that can, or until it goes |
| GenerationSync.RefreshKeepsEntry | src/contentServer/cache/CacheImplementation.cpp:6968-6997 | The ADDED, UPDATED and STATUS_CHANGED handlers, each with a failing and a succeeding read, on one entry |
| GenerationSync.KilledEntryIsDead | src/contentServer/cache/CacheImplementation.cpp:7030-7033 | An entry that a physical deletion removes although the master still has the generation is followed by an event that brings it back |
| GenerationSync.EntryAfter | src/contentServer/cache/CacheImplementation.cpp:6706-6717 | A deletion event hides exactly the entries it matches, marking and removing alike, and all other events leave the entries they do not name as they are |
| GenerationSync.DeletionsLeave | src/contentServer/cache/CacheImplementation.cpp:6706-6717 | In record fields: a generation stays live after the deletion of a producer, of the generations of a producer or of a source, or of one generation, if and only if it was live and its producer, source or identifier is another one; and which of the four leave a tombstone |
| GenerationSync.HandlersBring | src/contentServer/cache/CacheImplementation.cpp:6830-6997 | What ADDED, UPDATED and STATUS_CHANGED make of the list, in record fields, with the read succeeding and failing |
| GenerationSync.MasterDeletionsLeave | src/contentServer/memory/MemoryImplementation.cpp:1266-1494 | At the master, the same deletions leave exactly the generations with another identifier, producer or source |
| GenerationSync.MasterBrings | src/contentServer/memory/MemoryImplementation.cpp:1187-1254 | What additions, updates and status changes make of the master, in record fields, each with its event; unknown generations change nothing |
| GenerationSync.TakenAndLoaded | src/contentServer/cache/CacheImplementation.cpp:521-560 | Taking the cursor and loading end behind the last event with exactly the records of the master; nothing is handled in between, and nothing is loaded without a cursor taken before |
| GenerationSync.AllowedSteps | src/contentServer/memory/MemoryImplementation.cpp:1226-1254 | Which steps the runs without exception may have at any time: every change of the master but an update to another owner, a marking deletion only in the first of the two results |
| GenerationCaches.GenerationCache.EventGenerationAdded | src/contentServer/cache/CacheImplementation.cpp:6830-6860 | On the array list: changes what lookups see as the specification of the event says, with both early returns, and keeps order, unique identifiers and the counter bound |
| GenerationCaches.GenerationCache.EventGenerationUpdated | src/contentServer/cache/CacheImplementation.cpp:6919-6942 | Overwrites a live record in place, adds a missing one, does nothing when the read fails |
| GenerationCaches.GenerationCache.EventGenerationStatusChanged | src/contentServer/cache/CacheImplementation.cpp:6968-6997 | Sets the status of a live record, or adds the record read from the master with the status of the event |
| GenerationCaches.GenerationCache.EventGenerationDeleted | src/contentServer/cache/CacheImplementation.cpp:6876-6893 | Removes the entry, marked or not, and counts it exactly when there was one |
| GenerationCaches.GenerationCache.EventGenerationListDeletedByProducerId | src/contentServer/cache/CacheImplementation.cpp:7023-7033 | Removes the entries of the producer at once |
| GenerationCaches.GenerationCache.MarkDeleted | src/contentServer/cache/CacheImplementation.cpp:6706-6717 | Marks the entries that the event hides, those of the producer or of the source, and adds the number of all of them, so the counter still bounds the tombstones; which stay live is told in fields by `GenerationSync.DeletionsLeave` |
| GenerationLists.GenerationInfoList.MarkDeleted | src/contentServer/definition/GenerationInfoList.cpp:774-804 | Marks exactly the entries of the producer or of the source on the array (in fields: `GenerationSync.DeletionsLeave`), counts each once, also those marked before, and the count bounds the new tombstones |
| GenerationLists.MarkedAreCounted | src/contentServer/definition/GenerationInfoList.cpp:774-804 | For every list the tombstones after a marking are at most those before plus its count |
| GenerationCaches.GenerationCache.DeleteMarkedRecords | src/contentServer/cache/CacheImplementation.cpp:8449-8479 | Leaves no marked entry, also when the zero counter makes it skip the work, and keeps all others; after a shutdown request it does nothing |
| GenerationLists.GenerationInfoList.GetGenerationInfoById | src/contentServer/definition/GenerationInfoList.cpp:908-929 | The binary search on the array answers the record of the identifier unless it is marked or not there |
| GenerationLists.GenerationInfoList.AddGenerationInfo | src/contentServer/definition/GenerationInfoList.cpp:348-398 | Puts the record at its place, or keeps an existing one of the same identifier, marked or not |
| GenerationLists.GenerationInfoList.GetClosestIndexNoLock | src/contentServer/definition/GenerationInfoList.cpp:556-594 | Everything before the index is smaller and everything behind it greater, so that it is the index of the identifier if that is in the list |
| GenerationLists.GenerationInfoList.ClosestAfterSearch | src/contentServer/definition/GenerationInfoList.cpp:533-547 | The walk from the last midpoint ends at such an index |
| GenerationLists.ClosestFinds | src/contentServer/definition/GenerationInfoList.cpp:908-929 | The record at such an index decides the lookup of the identifier |
| GenerationLists.ClosestIsBetween | src/contentServer/definition/GenerationInfoList.cpp:556-594 | In an ordered list the two neighbours decide which index is the closest |
| GenerationLists.GenerationInfoList.DeleteGenerationInfoById | src/contentServer/definition/GenerationInfoList.cpp:607-641 | Removes the record of the identifier by shifting the rest, and tells whether there was one |
| GenerationLists.GenerationInfoList.RemoveInPlace | src/contentServer/definition/GenerationInfoList.cpp:651-732 | The loop of the bulk deletion and the compaction keeps exactly the other records in order and counts the removed ones |
| GenerationLists.InsertedIsList | src/contentServer/definition/GenerationInfoList.cpp:362-393 | Inserting between its neighbours keeps the order and adds exactly one identifier to what lookups see |
| GenerationLists.RemovedIsList | src/contentServer/definition/GenerationInfoList.cpp:622-637 | Closing the gap keeps the order and removes exactly that identifier |
| GenerationLists.MarkedByEvent | src/contentServer/definition/GenerationInfoList.cpp:774-840 | Marking along the array is marking by identifier |
| ContentEvents.RunRefinesPlain | src/contentServer/cache/CacheImplementation.cpp:7361-7392 | For every run of file and content events, deletions of geometries, reloads and compactions: lookups see exactly what deleting at once would show after each event, so that tombstones, reuse in place and late compaction are invisible, if and only if no CONTENT_ADDED meets a tombstone of its message |
| ContentEvents.StepRefinesPlain | src/contentServer/cache/CacheImplementation.cpp:7872-7892 | For one event this is so if and only if the event is not a CONTENT_ADDED whose message has a tombstone |
| ContentEvents.AddedAfterDeletedIsLost | src/contentServer/cache/CacheImplementation.cpp:7872-7892 | A concrete run in which a record deleted and added again before the next compaction is missing afterwards |
| ContentEvents.RunKeepsInvariant | src/contentServer/cache/CacheImplementation.cpp:6535-6554 | In every reachable state the list is sorted with one record per message and the delete counter is at least the number of marked records, across all handlers that mark (those for files, generations, producers, sources, geometries and single messages), remove, reuse, clear and reload |
| ContentEvents.StepKeepsInvariant | src/contentServer/cache/CacheImplementation.cpp:7567-7600 | The same for one event |
| ContentEvents.CompactionIsComplete | src/contentServer/cache/CacheImplementation.cpp:8449-8469 | In every state reached through any of these events a compaction attempt leaves no tombstone and a zero counter and changes nothing a lookup sees, so skipping it on a zero counter is sound |
| ContentEvents.FileUpdatedIsExact | src/contentServer/cache/CacheImplementation.cpp:7567-7603 | FILE_UPDATED of a cached file with both reads succeeding: its live contents become exactly the master's list, those of other files stay, order and unique keys hold, although old records survive as tombstones or are overwritten in place |
| ContentEvents.FileUpdatedOtherwise | src/contentServer/cache/CacheImplementation.cpp:7567-7603 | A failed content read leaves a cached file without live contents; for a file that is not cached, records already live win over the master's |
| ContentEvents.AddIfNotLiveEffect | src/contentServer/cache/CacheImplementation.cpp:7361-7375 | Adding a record whose message is not live makes it live, through a new slot or through the slot of its tombstone |
| ContentEvents.AddAllEffect | src/contentServer/cache/CacheImplementation.cpp:7480-7496 | The loop over the fetched contents adds exactly those whose message is not live |
| ContentEvents.ContentAddedEffect | src/contentServer/cache/CacheImplementation.cpp:7872-7892 | CONTENT_ADDED makes the record live, or changes nothing when there is none or a tombstone is in the way |
| ContentEvents.MarkContentsEffect | src/contentServer/cache/CacheImplementation.cpp:7534-7542 | Marking hides exactly the selected records and keeps order, keys and the counter bound |
| ContentEvents.KeptEffect | src/contentServer/definition/ContentInfoList.cpp:1181-1210 | Removal keeps exactly the live records that are not selected |
| ContentEvents.WithAllOfNewMessages | src/contentServer/cache/CacheImplementation.cpp:7590-7602 | Adding a list with one record per message adds exactly the records of messages that are not live |
| ContentEvents.ListDeletedLeaves | src/contentServer/cache/CacheImplementation.cpp:7137-7160 | In record fields: after the deletion by file, generation, producer, source or geometry exactly the live records with another file, generation, producer, source, or another generation or geometry are live |
| ContentEvents.ListDeletedLeavesFiles | src/contentServer/cache/CacheImplementation.cpp:7617-7704 | The same for the files, which go with the first four when the event says so and never with a geometry |
| ContentEvents.GenerationListDeletedLeaves | src/contentServer/cache/CacheImplementation.cpp:7023-7033 | Contents and files of other producers stay, no tombstone does, and slots and counter add up to what they were |
| ContentEvents.FileAddedBrings | src/contentServer/cache/CacheImplementation.cpp:7465-7525 | FILE_ADDED adds exactly the records of messages that were not live and keeps a file that was there |
| ContentEvents.ContentAddedBrings | src/contentServer/cache/CacheImplementation.cpp:7837-7892 | CONTENT_ADDED adds its record if and only if the list has neither a record nor a tombstone of its message |
| ContentEvents.ContentUpdatedBrings | src/contentServer/cache/CacheImplementation.cpp:7907-7930 | CONTENT_UPDATED puts what is read in place of the live record of the message and leaves all other messages |
| ContentEvents.ContentDeletedLeaves | src/contentServer/cache/CacheImplementation.cpp:7942-7950 | CONTENT_DELETED hides the live record of the message and no other, and the counter grows by what is hidden |
| ContentEvents.MarkingCounts | src/contentServer/cache/CacheImplementation.cpp:7534-7542 | The delete counter grows by the number of all selected slots, those marked before included |
| ContentEvents.ReuseCounts | src/contentServer/cache/CacheImplementation.cpp:7361-7375 | A positive counter falls by one exactly when a tombstone of the message is reused |
| ContentCaches.ContentCache.AddOrReplace | src/contentServer/cache/CacheImplementation.cpp:7361-7375 | Adds the record, or overwrites the tombstone of its message in place and lowers a positive counter, or drops it when its message is live |
| ContentCaches.ContentCache.AddMissing | src/contentServer/cache/CacheImplementation.cpp:7480-7496 | The loop over fetched records, skipping those whose message is live |
| ContentCaches.ContentCache.EventFileAdded | src/contentServer/cache/CacheImplementation.cpp:7465-7525 | The list, the counter and the files become what the specification of the event says |
| ContentCaches.ContentCache.EventFileUpdated | src/contentServer/cache/CacheImplementation.cpp:7567-7603 | Marks the old contents, refreshes the file and adds the fetched contents, with each failing read |
| ContentCaches.ContentCache.EventListDeleted | src/contentServer/cache/CacheImplementation.cpp:7617-7690 | The marking handlers for a file, a generation, a producer or a source, with or without the files; the handler of GEOMETRY_DELETED (line 7144) is the same without the files. What stays live is told in fields by `ContentEvents.ListDeletedLeaves` |
| ContentCaches.ContentCache.EventGenerationListDeletedByProducerId | src/contentServer/cache/CacheImplementation.cpp:7030-7031 | Removes contents and files of the producer at once and adds the number removed |
| ContentCaches.ContentCache.EventContentAdded | src/contentServer/cache/CacheImplementation.cpp:7837-7892 | Both lookups and both early returns; no tombstone is reused |
| ContentCaches.ContentCache.EventContentUpdated | src/contentServer/cache/CacheImplementation.cpp:7907-7930 | Removes the old record together with all tombstones, then adds |
| ContentCaches.ContentCache.EventContentDeleted | src/contentServer/cache/CacheImplementation.cpp:7942-7950 | Marks the live record of the message and counts it |
| ContentCaches.ContentCache.EventClear | src/contentServer/cache/CacheImplementation.cpp:6535-6554 | Empties contents and files and leaves the counter |
| ContentCaches.ContentCache.ReloadData | src/contentServer/cache/CacheImplementation.cpp:521-560 | Replaces files and contents by what the paged loads read, for every page split, and leaves the counter |
| ContentCaches.ContentCache.DeleteMarkedRecords | src/contentServer/cache/CacheImplementation.cpp:8449-8469 | Compacts unless the counter is zero or a shutdown is requested |
| ContentMessages.EntryAfter | src/contentServer/cache/CacheImplementation.cpp:7465-7950 | What each handler does to the answer of a lookup of any one message, whatever tombstones there are |
| ContentSync.Convergence | src/contentServer/cache/CacheImplementation.cpp:537-559 | For every run of master changes, cursor takes, late loads of files and contents, fetched pages whose additions carry what the master had when the page was fetched, replayed events with failing or succeeding reads, and compactions: when the cursor has caught up, a lookup of a message answers what the master has if and only if the message is not in `lost`; excepted are only those in `stale`, of which the cache has a record that missed an update. Both are filled and emptied by conditions on single steps: a record that does not arrive or meets a tombstone, a deletion that hits a younger or stale record or that of a geometry, an update whose file cannot be read or is not cached |
| ContentSync.FileConvergence | src/contentServer/cache/CacheImplementation.cpp:7404-7448 | The same for files: lost after a failed read, an update read when the file was gone, or a deletion of a stale file; stale after an update that could not be read |
| ContentSync.ExactConvergence | src/contentServer/cache/CacheImplementation.cpp:6482-6522 | When no record is stale, the live records of the caught-up cache are exactly the master's if and only if none is lost |
| ContentSync.ExactFileConvergence | src/contentServer/cache/CacheImplementation.cpp:6419-6454 | When every read of a file succeeds, the caught-up cache has exactly the master's files if and only if none is lost |
| ContentSteady.SteadyConvergence | src/contentServer/cache/CacheImplementation.cpp:537-559 | When files keep their producer, generation and source, no geometry is deleted, reads succeed and no CONTENT_ADDED meets a tombstone, the caught-up cache has exactly the master's files and live records in every run, although the cursor is taken before the lists are loaded and events meet records newer than themselves |
| ContentSteady.RunStaysSteady | src/contentServer/cache/CacheImplementation.cpp:7567-7603 | The invariant behind this: nothing is ever lost or stale, a cached file that the master has no more will be deleted by an event to come, and a missing one will be added before it is updated |
| ContentSteady.AllowedSteps | src/contentServer/cache/CacheImplementation.cpp:537-559 | In fields, which steps such a run may have at any time, and under which condition on its records or on tombstones it may have the others |
| ContentSync.RunKeepsInvariant | src/contentServer/cache/CacheImplementation.cpp:7465-7950 | The invariant behind convergence in every run: each message and each file that is neither lost nor stale is right or an event still in the log will put it right, both for the cache behind its cursor and for the page behind the log; exactly one side has a lost one, and the cache has every stale one |
| ContentSync.StepKeepsInvariant | src/contentServer/cache/CacheImplementation.cpp:8137-8172 | The same for one step of any kind |
| ContentSync.MasterStepKeepsMaster | src/contentServer/memory/MemoryImplementation.cpp:2397-2487 | The master stays consistent: its list is ordered with one live record per message, file identifiers are not reused, and a deletion in the log that matches a present record or file is older than it, unless it is that of a geometry |
| ContentSync.MasterChanges | src/contentServer/memory/MemoryImplementation.cpp:2397-2487 | What each change of the master does to one message, through the same list operations on the whole list |
| ContentSync.MasterDeletionsLeave | src/contentServer/memory/MemoryImplementation.cpp:2651-2680 | In record fields: what the deletions by file, generation and producer leave of a message at the master |
| ContentSync.MasterDeletionsLeaveOthers | src/contentServer/memory/MemoryImplementation.cpp:3765-3790 | The same for the deletions by source, of the generations of a producer, and of a single message |
| ContentSync.MasterAdditionsBring | src/contentServer/memory/MemoryImplementation.cpp:2397-2487 | What adding and updating a file with its contents, or one record, brings of a message and of the files |
| ContentSync.MasterTells | src/contentServer/memory/MemoryImplementation.cpp:2397-2487 | Each change of the master appends exactly its own event to the log |
| ContentSync.AcceptedChanges | src/contentServer/memory/MemoryImplementation.cpp:2397-2487 | In fields, which changes the master accepts: new files under the next identifier, updates of files it has, records of files it has, any deletion |
| ContentSync.ProcessKeepsEntry | src/contentServer/cache/CacheImplementation.cpp:7837-7930 | Replaying one event keeps every message right or repairable that does not become lost or stale, although the record it brings may be newer than the event |
| ContentSync.ProcessKeepsErrors | src/contentServer/cache/CacheImplementation.cpp:7837-7930 | After one event a lost message is on exactly one side, and a stale one is in the cache |
| ContentSync.BecomesLost | src/contentServer/cache/CacheImplementation.cpp:7465-7950 | When exactly a message becomes lost, told by both sides and the event: the record of the master does not arrive with an event of the message (unless the page has the file without it), a deletion hides it while the master has it (that of a geometry, or of a stale record), or an update of its file leaves a record that the master has not and no deletion to come matches |
| ContentSync.StaysLost | src/contentServer/cache/CacheImplementation.cpp:7465-7950 | After each further step a lost message is still lost if and only if one side only has it |
| ContentSync.GoesStale | src/contentServer/cache/CacheImplementation.cpp:7567-7603 | A record is stale exactly from an update whose file cannot be read or is not cached until an update that replaces it, or until it goes |
| ContentSync.NextEntryIs | src/contentServer/cache/CacheImplementation.cpp:7465-7950 | Every handler does one of three things to a message: it takes what it gets of it, unless nothing comes or a tombstone is in the way, it drops it, or it leaves it |
| ContentSync.UpdateBringsMasters | src/contentServer/cache/CacheImplementation.cpp:7907-7930 | After CONTENT_UPDATED a lookup answers what the master has by then, and nothing if the read fails |
| ContentSync.FileUpdateBringsMasters | src/contentServer/cache/CacheImplementation.cpp:7567-7603 | After FILE_UPDATED of a file on both sides every message of it is what the master has by then, or missing if its contents cannot be read; a failed read of the file changes nothing |
| ContentSync.AdditionBringsPages | src/contentServer/cache/CacheImplementation.cpp:7465-7525 | FILE_ADDED brings of a missing message what the fetched page has, or what the master has if the page is without the file; a live record stays |
| ContentSync.ContentAdditionBringsPages | src/contentServer/cache/CacheImplementation.cpp:7837-7892 | CONTENT_ADDED does the same for one message that has no tombstone |
| ContentSync.FileEventBrings | src/contentServer/cache/CacheImplementation.cpp:7404-7448 | The same for the file itself; a failed read brings nothing |
| ContentSync.FetchedAndLoaded | src/contentServer/cache/CacheImplementation.cpp:8273-8287 | A fetched page ends at the end of the log or after the asked number of events and carries what the master has then; a load ends with the lists of the master and the cursor behind its last event |
| ContentSync.PhasesGuard | src/contentServer/cache/CacheImplementation.cpp:521-560 | Files and then contents are loaded after the cursor is taken; nothing is fetched, handled or compacted before that is done, and nothing handled beyond the page |
| ContentSync.ProcessKeepsFile | src/contentServer/cache/CacheImplementation.cpp:7567-7603 | The same for one file |
| ContentSync.ProcessKeepsFileErrors | src/contentServer/cache/CacheImplementation.cpp:7567-7603 | A lost file is on exactly one side, and a stale one is in the cache |
| ContentSync.FileBecomesLost | src/contentServer/cache/CacheImplementation.cpp:7404-7448 | When exactly a file becomes lost, told by both sides and the event |
| ContentSync.FileStaysLost | src/contentServer/cache/CacheImplementation.cpp:7404-7448 | After each further step a lost file is still lost if and only if one side only has it |
| ContentSync.FileGoesStale | src/contentServer/cache/CacheImplementation.cpp:7567-7603 | A file is stale exactly from an update that cannot be read until one that can, or until it goes |
| ContentSync.ReplacedRecordIsMissing | src/contentServer/cache/CacheImplementation.cpp:7872-7892 | From every caught-up state of every run: a record on both sides that the master deletes and adds again before the cache compacts is missing in the cache when it has caught up again, with all reads succeeding |
| ContentSync.DroppedGeometryIsMissing | src/contentServer/cache/CacheImplementation.cpp:7144-7146 | From every caught-up state of every run: when the master deletes a geometry and keeps its records, as the memory back-end does, each of them is missing in the cache when it has caught up again |
| ContentOrder.CompareIsTotalOrder | src/contentServer/definition/ContentInfo.h:110-163 | Each of the twelve methods (and the fallback) is antisymmetric, transitive and total, and zero exactly when all its keys agree, in spite of type 4 sorting before type 3 |
| ContentOrder.CompareIsLexicographic | src/contentServer/definition/ContentInfo.h:180-483 | Each method is the lexicographic comparison of its documented key, with types 3 and 4 exchanged where the method does so |
| ContentOrder.OrdersByIdentifier | src/contentServer/definition/ContentInfo.h:169-483 | Which of two records comes first under methods 1, 4, 9 and 12, by the first field in which they differ; unknown methods are method 1 |
| ContentOrder.OrdersByParameter | src/contentServer/definition/ContentInfo.h:180-448 | The same for methods 2, 3, 5, 6 and 10, field by field |
| ContentOrder.OrdersByTime | src/contentServer/definition/ContentInfo.h:328-475 | The same for methods 7, 8 and 11 |
| ContentOrder.TypeFourComesBeforeThree | src/contentServer/definition/ContentInfo.h:292-325 | Under seven methods a forecast of type 4 comes before the same one of type 3, and the smaller type first otherwise |
| ContentOrder.EqualMeansSameMessage | src/contentServer/definition/ContentInfo.h:169-175 | Records that compare equal under any method have the same file id and message index |
| ContentOrder.LexOrder | src/contentServer/definition/ContentInfo.h:292-325 | Lexicographic comparison is a total order on keys of any length |
| ContentInfoLists.ContentInfoList.constructor | src/contentServer/definition/ContentInfoList.cpp:379-392 | An empty list with the given comparison method |
| ContentInfoLists.ContentInfoList.GetClosestIndexNoLock | src/contentServer/definition/ContentInfoList.h:197-236 | On a list sorted by the asked method: the leftmost equal record, otherwise the last smaller one, 0 if there is none; with another method: the first equal record in list order |
| ContentSequences.ClosestIndexIs | src/contentServer/definition/ContentInfoList.h:197-236 | The closest index is the number of smaller records if an equal one stands there, and else one less, but not below 0 |
| ContentInfoLists.ContentInfoList.LeftmostEqual | src/contentServer/definition/ContentInfoList.h:211-222 | The walk to the left over equal records stops at one whose left neighbour differs |
| ContentInfoLists.ContentInfoList.GetFirstEqualIndexNoLock | src/contentServer/definition/ContentInfoList.h:243-251 | The first equal record, or 0 |
| ContentSequences.FirstEqualIndexIs | src/contentServer/definition/ContentInfoList.h:243-251 | It is the number of records in front that are not equal, or 0 if none is equal |
| ContentInfoLists.ContentInfoList.GetClosestIndexAfterSearchNoLock | src/contentServer/definition/ContentInfoList.h:256-269 | From any midpoint an unsuccessful search ends at, the walk reaches the closest index |
| ContentInfoLists.ContentInfoList.GetContentInfoByFileIdAndMessageIndexNoLock | src/contentServer/definition/ContentInfoList.h:292-317 | The live record of a message, whatever order the list has: the binary search and the linear scan answer alike |
| ContentSequences.LookupFindsTheLiveRecord | src/contentServer/definition/ContentInfoList.h:306-312 | With one record per message the lookup answers a record exactly when it is in the list and live |
| ContentSequences.PageLength | src/contentServer/definition/ContentInfoList.cpp:2808-2878 | A page is the beginning of the live records at or after the start key, as long as asked for or as there are records; asked for none it still has one |
| ContentSequences.PageByIndexLength | src/contentServer/definition/ContentInfoList.cpp:2808-2878 | The same for a page by index, which has the live records from that index on |
| ContentSequences.LiveFromHolds | src/contentServer/definition/ContentInfoList.cpp:2840-2868 | A record is at or after the start key if and only if it is in the list, live, and of a later file or of the same file and no earlier message |
| ContentInfoLists.ContentInfoList.GetContentInfoList | src/contentServer/definition/ContentInfoList.cpp:2808-2878 | A page of the live records at or after a start key, at most the asked number; on a list in another order the live records from a start index on |
| ContentInfoLists.ContentInfoList.SetSize | src/contentServer/definition/ContentInfoList.cpp:1015-1052 | A new array with the records that fit; the contents stay if and only if they fit |
| ContentInfoLists.ContentInfoList.AddContentInfo | src/contentServer/definition/ContentInfoList.cpp:650-716 | Inserts at the place the order asks for, keeps an equal record that is already there, and tells the slot of the record handed back |
| ContentInfoLists.ContentInfoList.InsertionIndex | src/contentServer/definition/ContentInfoList.cpp:676-697 | The first place not smaller than the record, found from the closest index, and whether an equal record stands there |
| ContentInfoLists.ContentInfoList.InsertAt | src/contentServer/definition/ContentInfoList.cpp:699-712 | Shifts the records behind the gap by one and fills the gap |
| ContentInfoLists.ContentInfoList.MarkDeletedByFileId | src/contentServer/definition/ContentInfoList.cpp:1226-1287 | Marks exactly the records of the file and counts them, also when a sorted list lets it start late and stop early |
| ContentInfoLists.ContentInfoList.MarkDeleted | src/contentServer/definition/ContentInfoList.cpp:1357-1386 | Marks exactly the selected records, in fields as `ContentSequences.MarkedInFields` says, and counts all of them |
| ContentInfoLists.ContentInfoList.MarkDeletedByFileIdAndMessageIndex | src/contentServer/definition/ContentInfoList.cpp:1295-1315 | Marks the live record of the message if there is one |
| ContentInfoLists.ContentInfoList.DeleteContentInfo | src/contentServer/definition/ContentInfoList.cpp:1181-1216 | Keeps exactly the records that are neither selected nor marked, in order, and counts the others |
| ContentInfoLists.ContentInfoList.RemoveInPlace | src/contentServer/definition/ContentInfoList.cpp:1637-1672 | The compaction loop in place on the array |
| ContentInfoLists.ContentInfoList.Overwrite | src/contentServer/cache/CacheImplementation.cpp:7367-7371 | Overwrites one record by one that compares equal, as reusing a tombstone does, and the order stays |
| ContentSequences.InsertedKeepsOrder | src/contentServer/definition/ContentInfoList.cpp:676-712 | Insertion keeps the list sorted by its own method |
| ContentSequences.InsertedRecords | src/contentServer/definition/ContentInfoList.cpp:681-687 | Insertion adds exactly the new record, or nothing when an equal one is there |
| ContentSequences.InsertedKeepsUniqueKeys | src/contentServer/definition/ContentInfoList.cpp:681-687 | Insertion in file and message order keeps one record per message |
| ContentSequences.MarkedCount | src/contentServer/definition/ContentInfoList.cpp:1226-1287 | The count a marking returns is at least the number of newly marked records |
| ContentSequences.MarkedInFields | src/contentServer/definition/ContentInfoList.cpp:1357-1440 | In record fields: what marking by file, message, generation, producer, source and geometry does to each slot |
| ContentSequences.SelectedAreCounted | src/contentServer/definition/ContentInfoList.cpp:1357-1386 | The count of a marking is the number of selected slots |
| ContentSequences.KeptAreTheLiveUnselected | src/contentServer/definition/ContentInfoList.cpp:1181-1210 | Compaction keeps a record if and only if it is live and not selected |
| ContentSequences.KeptKeepsOrderAndKeys | src/contentServer/definition/ContentInfoList.cpp:1181-1210 | Compaction keeps order and unique keys |
| PagedLoads.ReadFileList | src/contentServer/cache/CacheImplementation.cpp:6419-6454 | For every way the master cuts its ascending list into pages, the loop ends and collects every file exactly once, in order |
| PagedLoads.AddFilePage | src/contentServer/cache/CacheImplementation.cpp:6434-6447 | One page: the start id moves behind the last file of the page |
| PagedLoads.FilePageLength | src/contentServer/cache/CacheImplementation.cpp:6419-6454 | A served page is as long as the master chooses, at least one and at most 50000 files, or as there are files left |
| PagedLoads.FilesByIdHolds | src/contentServer/cache/CacheImplementation.cpp:6419-6454 | After the load every file is found under its own identifier and nothing else is found |
| PagedLoads.ReadContentList | src/contentServer/cache/CacheImplementation.cpp:6482-6522 | For every page split the loop ends and the list holds exactly the master's live records, each once and in order |
| PagedLoads.AddContentPage | src/contentServer/cache/CacheImplementation.cpp:6497-6517 | One page: its records go to the end of the list and the start key moves lexicographically behind the last |
| ContentSequences.LiveFromAfter | src/contentServer/definition/ContentInfoList.cpp:2840-2868 | The records at or after the key behind a served record are exactly those that follow it |
| EventCursors.EveryRunIsInOrder | src/contentServer/cache/CacheImplementation.cpp:8137-8172 | In every interleaving of master appends, loads, page fetches, handled events and shutdowns, the handled events are master events after the last load, in the master's order |
| EventCursors.ExactIffNothingLost | src/contentServer/cache/CacheImplementation.cpp:8137-8172 | In every such run, exactly the master's events from the last load up to the cursor have been handled, each once, if and only if since that load no event was handled whose identifier does not follow the cursor |
| EventCursors.TimelyRunIsExact | src/contentServer/cache/CacheImplementation.cpp:8273-8287 | If no page is fetched after the master's bounded list has dropped an event the cursor has not reached, nothing is ever jumped over |
| EventCursors.LateFetchSkips | src/contentServer/definition/EventInfoList.cpp:173-203 | A page starts behind a gap if and only if it is fetched after the master dropped an event the cursor has not reached, and handling it makes the cursor jump over exactly the dropped events |
| EventCursors.ListHoldsNewest | src/contentServer/definition/EventInfoList.cpp:173-203 | In every interleaving the bounded list holds exactly the newest events of the log, one more than its limit as soon as there have been that many |
| EventCursors.PageHolds | src/contentServer/definition/EventInfoList.cpp:406-438 | A page is the beginning of the events at or above its start, in order, as many as asked for or all of them; asked for none it has all |
| EventCursors.FetchedPageLength | src/contentServer/cache/CacheImplementation.cpp:8273-8287 | A fetch brings up to 10000 of the events that the list still has behind the cursor, and leaves the cursor |
| EventCursors.EventCache.ProcessEvents | src/contentServer/cache/CacheImplementation.cpp:8300-8350 | Terminates; with a reachable master, no shutdown and finitely many further appends it ends with the cursor at the master's last event, extends the handled events, skips none while the master's list has room, and reloads exactly when the event thread finds the master restarted |
| EventCursors.EventCache.ProcessMore | src/contentServer/cache/CacheImplementation.cpp:8318-8345 | One turn of that loop: progress in the cursor or in the remaining appends |
| EventCursors.EventCache.Poll | src/contentServer/cache/CacheImplementation.cpp:8321-8341 | What the last event of the master leads to: no answer, reload, caught up, or events to fetch |
| EventCursors.EventCache.Compare | src/contentServer/cache/CacheImplementation.cpp:8321-8341 | The comparison with that last event: after a restart of the master the event thread reloads, otherwise the cache is caught up or behind exactly as the two numbers say |
| EventCursors.EventCache.ProcessNextEvents | src/contentServer/cache/CacheImplementation.cpp:8273-8287 | Fetches the page after the cursor; a failed fetch changes nothing |
| EventCursors.EventCache.ProcessPage | src/contentServer/cache/CacheImplementation.cpp:8278-8287 | The page of the list as it is, from right behind the cursor |
| EventCursors.EventCache.ProcessEventInfoList | src/contentServer/cache/CacheImplementation.cpp:8137-8172 | Handles the events of a page in order, moves the cursor also past an event whose handler throws, and stops at a shutdown |
| EventCursors.EventCache.ReloadAfterRestart | src/contentServer/cache/CacheImplementation.cpp:8245-8264 | Reloads if and only if the master started later than last known, and then forgets what was handled before |
| EventCursors.EventInfoList.AddEventInfo | src/contentServer/definition/EventInfoList.cpp:173-203 | Drops only as many of the oldest events as are over the limit and appends: the list has one event more than before, or than its limit if that is less |
| EventCursors.EventInfoList.GetEventInfoList | src/contentServer/definition/EventInfoList.cpp:406-438 | The first events at or above the start id, at most the asked number, found by walking back and collecting forward |
| EventCursors.PageIsRun | src/contentServer/definition/EventInfoList.cpp:406-438 | A page is a run of consecutive log events that starts right behind the cursor unless events there were dropped |
| EventCursors.ContentStorage.AddEvent | src/contentServer/memory/MemoryImplementation.cpp:5497-5519 | Numbers the events one after the other; with events disabled it answers 0 and notes nothing |
| EventCursors.ContentStorage.GetLastEventInfo | src/contentServer/memory/MemoryImplementation.cpp:3442-3466 | The last event, or DATA_NOT_FOUND |
| ParamSummaries.GetContentParamList | src/contentServer/cache/CacheImplementation.cpp:5420-5449 | The grouping loop on a list sorted by the parameter order: each group once, as the first record of the group, with exactly the number of its records, all records covered, and the numbers add up to the length |
| ParamSummaries.SummaryHoldsFirsts | src/contentServer/cache/CacheImplementation.cpp:5420-5449 | Each record of the summary is the first record of its group but for the number, and the groups come in the order of their first records |
| ParamSummaries.SummaryOfFetched | src/contentServer/cache/CacheImplementation.cpp:5418-5449 | The same for the fetched list, however it was brought into that order |
| ParamSummaries.GroupsStayTogether | src/contentServer/definition/ContentInfo.h:414-445 | Between two records of a group the sort order puts only records of that group, because the group is a prefix of the sort key |
| ParamSummaries.GroupIsPrefixOfKeys | src/contentServer/definition/ContentInfo.h:414-445 | Two records are of one group if and only if their first five sort keys agree |
| ParamSummaries.SortedIsGrouped | src/contentServer/cache/CacheImplementation.cpp:5427-5433 | In a sorted list a record that differs from the one before it is the first of its group |
| ParamSummaries.CountOfPermutation | src/contentServer/cache/CacheImplementation.cpp:5419-5419 | Rearranging a list leaves the size of every group |
| SwapDelays.SearchStructures.SwapSearchStructure | src/contentServer/cache/CacheImplementation.cpp:8810-8874 | One attempt: dismissed, delayed, interrupted or published, with the new wait time, the five hashes, counter and slots; which of them it is in a run, `SwapDelays.OutcomeFromHistory` tells without the state |
| SwapDelays.SearchStructures.UpdateContent | src/contentServer/cache/CacheImplementation.cpp:9288-9325 | One call: refused once a shutdown is requested, else one attempt |
| SwapDelays.SearchStructures.IsCachedFileWaitAllowed | src/contentServer/cache/CacheImplementation.cpp:8553-8557 | Waiting is allowed while the limit of the first or of the later swaps is not reached |
| SwapDelays.SearchStructures.IsSearchStructureCurrent | src/contentServer/cache/CacheImplementation.cpp:8512-8540 | Nothing is waited for and all five hashes agree |
| SwapDelays.DelaysAreBounded | src/contentServer/cache/CacheImplementation.cpp:8634-8654 | In every run and any stretch of it without a publication, shutdowns included, at most the limit divided by 20, rounded up, attempts are delayed; before the first publication the first-wait limit counts |
| SwapDelays.DelayedIsNotForgotten | src/contentServer/cache/CacheImplementation.cpp:8534-8539 | In every run, shutdowns included, once an attempt is delayed none is dismissed as unchanged before the next publication |
| SwapDelays.ShutdownIsFinal | src/contentServer/cache/CacheImplementation.cpp:9295-9296 | The shutdown flag is up exactly after a request, and from then on every call is refused and nothing changes |
| SwapDelays.PublicationComes | src/contentServer/cache/CacheImplementation.cpp:8831-8870 | Without a shutdown, one more attempt than that bound, each with something to publish, brings a publication |
| SwapDelays.OutcomeFromHistory | src/contentServer/cache/CacheImplementation.cpp:8810-8874 | In every run without an earlier shutdown, what an attempt comes to is told by the attempts and outcomes before it: it is dismissed if and only if nothing has waited since the last publication and its five hashes are those published then; it waits if and only if it is not dismissed, a file is missing and the waits since then are below the limit |
| SwapDelays.SwapsAreCounted | src/contentServer/cache/CacheImplementation.cpp:8864-8870 | The counter of swaps is the number of publications |
| SwapDelays.MissingFileDelaysExactly | src/contentServer/cache/CacheImplementation.cpp:8835-8843 | The bound is exact: a file that never arrives delays that many attempts and the next one publishes |
| SwapDelays.ActiveIsLastPublished | src/contentServer/cache/CacheImplementation.cpp:8864-8868 | Readers always get the last published structure, and publishing leaves the replaced one in the other slot |
| Variances.Variance | src/functions/Function_variance.cpp:66-97 | The one-pass loop returns the sample variance of the values that are not missing, defined by two passes; missing with fewer than two values |
| Variances.StepIsExact | src/functions/Function_variance.cpp:83-87 | One step adds exactly what the sum of squared deviations from the mean grows by, although the mean moves |
| Variances.VarianceOfMoments | src/functions/Function_variance.cpp:83-93 | n (n - 1) times the variance is n times the sum of squares less the squared sum; fewer than two values have none |
| Variances.SumOfSquaresScaled | src/functions/Function_variance.cpp:83-87 | n times the sum of squared deviations is n times the sum of squares less the squared sum |
| Variances.VarianceGrid | src/functions/Function_variance.cpp:150-189 | Each point of the grid gets the variance of its column, short grids padded with missing values |
| Variances.VarianceIsNotNegative | src/functions/Function_variance.cpp:92-93 | The result is never negative |
| Variances.VarianceOfPermutation | src/functions/Function_variance.cpp:74-90 | The order of the parameters, missing ones included, does not matter |
| Medians.ShiftedMedian | src/functions/Function_smedian.cpp:130-181 | The first parameter is truncated to the shift; the result is the value that many places from the middle of the sorted remaining values, or the mean of two, clamped to the list; its rank is told by `Medians.ShiftedMedianOfOdd` and `Medians.ShiftedMedianOfEven` |
| Medians.Median | src/functions/Function_median.cpp:66-98 | The middle of the sorted values, or the mean of the two middle ones |
| Medians.ShiftedMedianGrid | src/functions/Function_smedian.cpp:250-272 | The same at each grid point, and no output without exactly one shift |
| Medians.CollectValues | src/functions/Function_smedian.cpp:140-149 | The values that are not missing, in order |
| Medians.ZeroShiftIsMedian | src/functions/Function_smedian.cpp:157-176 | With shift 0 both functions agree |
| Medians.ShiftedMedianIsMonotone | src/functions/Function_smedian.cpp:157-176 | A larger shift never gives a smaller result |
| Medians.ShiftedMedianIsBetween | src/functions/Function_smedian.cpp:161-176 | The result lies between two of the values |
| Medians.ShiftedMedianIsOdd | src/functions/Function_smedian.cpp:130-176 | Negating all values together with the shift negates the result |
| Medians.ShiftedMedianOfPermutation | src/functions/Function_smedian.cpp:150-150 | The order of the values does not matter |
| Medians.MedianSplits | src/functions/Function_median.cpp:84-92 | At most half of the values that are not missing lie below the median of the parameters and at most half above |
| Medians.ShiftedMedianOfOdd | src/functions/Function_smedian.cpp:155-168 | Of an odd number of values the result is the one `shift` places from the middle, or the first or last one: fewer values than that are smaller, and enough are not larger |
| Medians.ShiftedMedianOfEven | src/functions/Function_smedian.cpp:155-176 | Of an even number it is the mean of the values at two neighbouring places, `shift` places from the middle two or the outermost two |
| Medians.SortedIsOrderedPermutation | src/functions/Function_median.cpp:82-82 | Sorting puts the same values in order |
| Medians.OrderIsUnique | src/functions/Function_median.cpp:82-82 | Values can be put in order in one way only |
| Modes.Mode | src/functions/Function_mode.cpp:67-115 | The winner has the highest count among the rounded values that are not missing and is the smallest such key; missing without values |
| Modes.CountValues | src/functions/Function_mode.cpp:80-95 | The frequency map holds exactly the count of every rounded value |
| Modes.MostFrequent | src/functions/Function_mode.cpp:100-111 | The ascending scan with a strict comparison finds the smallest key with the highest count |
| Modes.ModeOfPermutation | src/functions/Function_mode.cpp:67-111 | The order of the data values does not matter |
| Modes.CountedInCounts | src/functions/Function_mode.cpp:87-93 | Finding or inserting a key raises its count by one and no other |
| Modes.RoundIsNearest | src/functions/Function_mode.cpp:87-87 | The rounded value is at most one half away and no whole number is nearer |
| Modes.KeyIsNearest | src/functions/Function_mode.cpp:84-93 | The key of a value is the nearest multiple of the unit, and halves go away from zero |
| Modes.SmallestOfMostFrequent | src/functions/Function_mode.cpp:100-111 | Of two values with different keys the smaller wins in either order, and the larger if it occurs twice |
| ThreeValued.And | src/functions/Function_and.cpp:67-91 | The least of the parameters in the order false, missing, true, in spite of the early exit; missing with fewer than two |
| ThreeValued.Or | src/functions/Function_or.cpp:67-91 | The greatest of the parameters in that order |
| ThreeValued.Not | src/functions/Function_not.cpp:67-86 | Exchanges false and true and keeps missing; an error unless there is exactly one parameter |
| ThreeValued.AndGrid | src/functions/Function_and.cpp:137-165 | Each cell is the conjunction of its column, short grids padded with missing values; no output with fewer than two grids |
| ThreeValued.OrGrid | src/functions/Function_or.cpp:139-167 | The same for the disjunction |
| ThreeValued.NotGrid | src/functions/Function_not.cpp:129-155 | Each cell is negated; no output unless there is exactly one grid |
| ThreeValued.AndAt | src/functions/Function_and.cpp:150-157 | The loop over the grids with its decided flag, at one cell |
| ThreeValued.OrAt | src/functions/Function_or.cpp:152-159 | The same for the disjunction |
| ThreeValued.DeMorgan | src/functions/Function_or.cpp:67-89 | Conjunction and disjunction are dual to each other through negation |
| ThreeValued.OrderDoesNotMatter | src/functions/Function_and.cpp:71-73 | Neither the order nor repetitions of the parameters matter |
| ThreeValued.ConjunctionOfParts | src/functions/Function_and.cpp:67-89 | A call over all parameters equals a call over the results of its parts |
| ThreeValued.LeastIsLeast | src/functions/Function_and.cpp:78-89 | The result is at most every parameter and is one of them unless all are true |
| ThreeValued.AndTable | src/functions/Function_and.cpp:67-91 | False if and only if a parameter is 0, true if and only if all are present and not 0, missing otherwise |
| ThreeValued.OrTable | src/functions/Function_or.cpp:67-91 | True if and only if a parameter is present and not 0, false if and only if all are 0, missing otherwise |
| LuaPools.PoolIsSafe | src/lua/LuaFile.cpp:174-225 | In every interleaving of threads that check states out and in and of reloads that succeed or fail: keys in use are distinct and at most the counter, no two threads have the same slot, key or state, and the state a thread has is still in its slot; it exists if and only if no load has failed at an earlier slot |
| LuaPools.RunKeepsInvariant | src/lua/LuaFile.cpp:174-279 | The invariant behind this, over every run |
| LuaPools.StepKeepsInvariant | src/lua/LuaFile.cpp:174-279 | The same for one step of one thread |
| LuaPools.ReloadWaitsForAllSlots | src/lua/LuaFile.cpp:241-270 | A step of the reload closes or replaces a state only when no thread has a slot, although the slots are counted one by one while others release without a lock |
| LuaPools.ReleaseFreesOwnSlot | src/lua/LuaFile.h:105-132 | Releasing always finds the slot of its thread and frees exactly that one; taking fills one free slot; no other step changes a key |
| LuaPools.EmptySlotIsHandedOut | src/lua/LuaFile.cpp:1566-1591 | A concrete run: a load fails at the first slot, and the thread that takes the second slot gets no state |
| LuaPools.LuaFile.TryGetLuaState | src/lua/LuaFile.cpp:181-190 | One pass over the slots: the first free slot gets the next key |
| LuaPools.LuaFile.ReleaseLuaState | src/lua/LuaFile.cpp:206-218 | The first slot with the key is freed, and nothing else changes |
| LuaPools.ReleaseUndoesGet | src/lua/LuaFile.cpp:181-218 | Releasing a key just handed out restores the keys |
| LuaPools.CheckOutTakesFirstFree | src/lua/LuaFile.cpp:181-190 | A thread that goes on alone leaves the scan with the first free slot, its state and the next key, and without the lock |
| LuaPools.CheckInFreesTheSlot | src/lua/LuaFile.cpp:206-218 | A thread that releases alone frees the first slot with its key and nothing else |
| LuaPools.LoadFillsAllSlots | src/lua/LuaFile.cpp:1566-1591 | A load that succeeds leaves a new state in every slot from where it is on, no key changed and the lock free |
| LuaPools.FailedLoadStops | src/lua/LuaFile.cpp:1577-1584 | A load that fails leaves the state it was making, no later one, and the lock free |
| FunctionTables.TableAnswersLikeSearch | src/lua/LuaFile.cpp:1625-1643 | For all lists: every lookup after loading them equals splitting and searching them (the smallest type that lists the name in any case, with its first spelling, and nothing for other names) if and only if no name is over 99 characters |
| FunctionTables.TokensArePieces | src/lua/LuaFile.cpp:1625-1643 | The tokenizer yields exactly the non-empty pieces between separators if and only if no piece is longer than 99 characters |
| FunctionTables.TokensAreChoppedPieces | src/lua/LuaFile.cpp:1627-1643 | For every list the names are the pieces cut into parts of 99 characters, with the character after each full part lost |
| FunctionTables.SearchFindsSmallestType | src/lua/LuaFile.cpp:137-141 | What the search answers: no smaller type lists the name, and none at all if there is no answer |
| FunctionTables.FoundAfterInserting | src/lua/LuaFile.cpp:1638-1640 | Inserting never replaces a name, and adds the first spelling of a new one |
| FunctionTables.CaseDoesNotMatter | src/lua/LuaFile.cpp:293-306 | Names that differ in the case of letters only get the same answer, from the table and from the search |
| FunctionTables.FirstLikeIsFirst | src/lua/LuaFile.cpp:1638-1640 | The spelling found is the first in the list that is the name but for case, and there is none if nothing is found |
| FunctionTables.PiecesOfTwo | src/lua/LuaFile.cpp:1627-1643 | Commas and terminators, and nothing else, end a piece |
| FunctionTables.ChoppedAt | src/lua/LuaFile.cpp:1625-1643 | Part k of a long piece is read from its place 100 k on, and place 100 k + 99 is lost |
| FunctionTables.FunctionTable.LoadFunctionList | src/lua/LuaFile.cpp:1604-1644 | The buffer loop inserts exactly the scanned names under the given type |
| FunctionTables.FunctionTable.Init | src/lua/LuaFile.cpp:131-141 | Clears the table and loads the types 1 to 9 in order, up to the first one whose name list the script fails to answer |
| FunctionTables.FunctionTable.GetFunction | src/lua/LuaFile.cpp:293-306 | The type and the spelling found, or 0 |
| Csv.Split | src/contentServer/definition/EventInfo.cpp:230-246 | The in-place loop turns each separator into a terminator so that every noted place holds exactly one field of the row; it stays within the array of places if and only if there are fewer than 100 separators |
| Csv.HeldIsRead | src/contentServer/definition/EventInfo.cpp:230-260 | A place that holds a field is one from which reading a C string gives the field |
| Csv.FieldsAreLaid | src/contentServer/definition/EventInfo.cpp:235-246 | Where each field lies in the row and what follows it |
| Csv.FieldsOfJoined | src/contentServer/definition/EventInfo.cpp:177-190 | Splitting a joined row gives the leading fields back, and splits the last one where it has separators itself |
| Csv.JoinedOfFields | src/contentServer/definition/EventInfo.cpp:235-246 | Joining the fields of a row with semicolons gives the row back |
| Csv.FieldOfRow | src/contentServer/definition/EventInfo.cpp:177-246 | In place of a text behind plain fields its part up to the first separator or terminator is read |
| Csv.FirstFieldOfText | src/contentServer/definition/EventInfo.cpp:235-246 | That part is the whole text if and only if it has neither |
| Csv.FieldsOfRow | src/contentServer/definition/EventInfo.cpp:177-246 | The same for a row read as a C string |
| Csv.FieldsOfLine | src/contentServer/definition/EventInfo.cpp:235-246 | Semicolons and newlines, and nothing else, end a field |
| EventCsv.RowRoundTrip | src/contentServer/definition/EventInfo.cpp:177-258 | For every event, parsing its row restores all numbers, and the payload up to its first terminator, semicolon or newline |
| EventCsv.RowRoundTripIsExact | src/contentServer/definition/EventInfo.cpp:177-258 | The event is restored completely if and only if its payload has none of these characters |
| EventCsv.RowFits | src/contentServer/definition/EventInfo.cpp:228-236 | The row fits the array of fields if and only if the payload, up to its terminator, has at most 91 separators |
| EventCsv.RowPlaces | src/contentServer/definition/EventInfo.cpp:177-190 | Where the row has each field of the event |
| EventCsv.ParsedPlaces | src/contentServer/definition/EventInfo.cpp:223-260 | Which field of any row each field of the event is set from |
| EventCsv.EventInfo.GetCsv | src/contentServer/definition/EventInfo.cpp:177-190 | The nine fields in order |
| EventCsv.EventInfo.SetCsv | src/contentServer/definition/EventInfo.cpp:223-260 | Sets all fields from a row with at least nine, changes nothing otherwise, and stays within the array of fields if and only if the row has fewer than 100 separators |
| ContentCsv.RowRoundTrip | src/contentServer/definition/ContentInfo.cpp:349-493 | When the two texts are free of separators and terminators and the row fits its buffer, or loses only a storage id of 0 to it, the row restores every printed field, the name in upper case and the two values to six decimals |
| ContentCsv.RowRoundTripIsExact | src/contentServer/definition/ContentInfo.cpp:349-493 | For every record, cut rows included: parsing its row restores it in this way, whatever the record parsed into held before, if and only if that condition holds and the printed time stands for the stored one |
| ContentCsv.NothingIsLost | src/contentServer/definition/ContentInfo.cpp:232-247 | Nothing is lost on the way if and only if the name is in upper case and six decimals hold both values |
| ContentCsv.RowLength | src/contentServer/definition/ContentInfo.cpp:349-385 | A row of 1000 or more characters is cut to its first 999 |
| ContentCsv.RowPlaces | src/contentServer/definition/ContentInfo.cpp:349-385 | Where the row has each field of a record that reads back, the seven unused places included |
| ContentCsv.ParsedPlaces | src/contentServer/definition/ContentInfo.cpp:421-493 | Which field of any row each field of the record is set from, a bad time and short rows included |
| ContentCsv.ArrivesUnchanged | src/contentServer/memory/MemoryImplementation.cpp:3497-3530 | A record sent as the data of an event arrives as it was, whatever the receiving record held, if and only if nothing is lost in the fields and its row restores it |
| ContentCsv.ContentInfo.SetCsv | src/contentServer/definition/ContentInfo.cpp:421-493 | Sets the fields from a row with at least 28, the last three only if present; a bad forecast time breaks it off after the first eight; it stays within its buffers if and only if the row has fewer than 100 separators and the name, when it gets there, fewer than 200 characters |
| ContentCsv.ContentInfo.SetFmiParameterName | src/contentServer/definition/ContentInfo.cpp:232-247 | Stores the name in upper case through the buffer, within its bounds if and only if it has fewer than 200 characters |
| ContentCsv.FieldsRoundTrip | src/contentServer/definition/ContentInfo.cpp:454-493 | Each printed field is read back from its place in the row |
| Numbers.FixedRoundTrip | src/contentServer/definition/ContentInfo.cpp:354-380 | A value printed with six decimals is read back if and only if six decimals hold it |
| Numbers.IntRoundTrip | src/contentServer/definition/EventInfo.cpp:181-190 | A printed whole number is read back, sign included |
| Numbers.NatRoundTrip | src/contentServer/definition/EventInfo.cpp:181-190 | The same for unsigned numbers, whatever follows the digits |
| Numbers.PrintedNumbers | src/contentServer/definition/EventInfo.cpp:181-190 | The digits stand in the usual order, the sign in front |

## Left out

- Records as pointers: a list holds record values, so records shared between lists and pointers kept across calls are not modelled, nor are empty slots below the length of an array.
- The file list is the map its lookups by id answer; array algorithms are proved for the content and the generation list. The generation list is kept in the one order the cache uses, and loading it is one step.
- GenerationSync.Convergence: says nothing about generations whose last update could not be read, because whether their old record happens to equal the new one is chance.
- EventCsv.EventInfo.SetCsv: what the program does after running over the end of an array is not modelled, only exactly when it does; the same holds for the other three members with such an outcome.
- ContentCsv.RowRoundTrip: setting the parsed time a second time in a try block is not repeated.
- SwapDelays.SearchStructures.SwapSearchStructure: the compaction it starts with is that of ContentCaches and GenerationCaches and not part of this step; neither are the update interval and the wait for a running reload.
- ContentSync.Convergence: says nothing about messages with a stale record, because whether it happens to equal the new one is chance; pages are fetched in time (EventCursors says exactly what happens otherwise), each list is loaded in one step, and so are the two reads of an update; a master that also deletes the records of a geometry tells the cache with a deletion of its own.
- ContentSync.FileConvergence: says nothing about a file whose last update could not be read, for the same reason.
- In that protocol a page hands over the records of the master unchanged. ContentCsv.ArrivesUnchanged says exactly for which records this is so; any other arrives with a name in upper case, with rounded values, cut or not at all.
- Medians.ShiftedMedian: sorting is a function on sequences, not std::sort in place.
- Modes.Mode: the grid version of mode, which also counts missing values, is not modelled.
- EventCursors.EventCache.ReloadAfterRestart: the lists it reloads are not part of this step, only the cursor and the event list; a master that restarts during a call is not modelled.
- The race between a reload from a service call and the event thread over the cursor.
- In both replication protocols: the CLEAR event and a master that starts numbering again. In that for generations: the handlers of producers and geometries. In that for files: identifiers that are used again and the physical location of a file.
- Floating-point rounding (values are reals; printing rounds halves away from zero), the width of integers and wrap-around of counters, results that happen to equal the number for missing values.
- The numeric comparisons and number parsing of the grid-files library, which is not part of this model: comparisons are taken as signs, parsing as the inverse of printing on leading digits. The number for missing values and the text-to-time conversion are parameters.
- Hashes of lists are arbitrary numbers, so two different lists may have equal hashes.
- Negative page sizes (backward pages), the forecast time filled in by adding a content record, the cache of forecast times, string interning.
- The mode without swapping, which moves records between two sets of lists.
- Locks other than the state lock of the Lua pool: handlers, loads and swaps are atomic steps. Lua interpreter calls, file modification times, sleeping, logging and saving.
- Other back-ends (Redis, CORBA, HTTP), the storage list that routes by id, and the remaining grid functions.
- Where documentation and code differ the code is followed: of the comparison methods seven, not all, put forecast type 4 before type 3.
