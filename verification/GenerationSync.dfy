// The replication of the generation list: a master that changes its generations and appends an
// event per change, and a cache that takes an event cursor, loads the list later, and replays
// the events against the master's current records.
module GenerationSync {
  import opened Wrappers

  // `details` stands for the fields no event handler looks at.
  datatype Generation = Generation(producerId: nat, sourceId: nat, status: nat, details: nat)

  datatype Event =
    | Added(id: nat)
    | Updated(id: nat)
    | StatusChanged(id: nat, status: nat)
    | Deleted(id: nat)
    | ListDeletedByProducer(producerId: nat)  // GENERATION_LIST_DELETED_BY_PRODUCER_ID
    | ProducerDeleted(producerId: nat)        // PRODUCER_DELETED
    | ListDeletedBySource(sourceId: nat)      // the generation and producer list events of a source
    | Other
  {
    predicate Bulk() {
      ListDeletedByProducer? || ProducerDeleted? || ListDeletedBySource?
    }

    // The cache answers these events by marking, all other deletions remove at once.
    predicate Marks() {
      ProducerDeleted? || ListDeletedBySource?
    }

    predicate Kills(i: nat, g: Generation) {
      match this
      case Deleted(id) => id == i
      case ListDeletedByProducer(p) => g.producerId == p
      case ProducerDeleted(p) => g.producerId == p
      case ListDeletedBySource(s) => g.sourceId == s
      case _ => false
    }

    predicate About(i: nat) {
      match this
      case Added(id) => id == i
      case Updated(id) => id == i
      case StatusChanged(id, _) => id == i
      case Deleted(id) => id == i
      case _ => false
    }
  }

  // ---- The master ----

  datatype Master = Master(generations: map<nat, Generation>, nextId: nat, log: seq<Event>)

  datatype MasterOp =
    | Add(generation: Generation)
    | Update(id: nat, generation: Generation)
    | SetStatus(id: nat, status: nat)
    | Delete(id: nat)
    | BulkDelete(event: Event)
    | Note

  function Survivors(generations: map<nat, Generation>, ev: Event): map<nat, Generation> {
    map i | i in generations && !ev.Kills(i, generations[i]) :: generations[i]
  }

  // Every change appends its event; identifiers are never reused.
  function ApplyMaster(m: Master, op: MasterOp): Master {
    match op
    case Add(g) => Master(m.generations[m.nextId := g], m.nextId + 1, m.log + [Added(m.nextId)])
    case Update(i, g) =>
      if i !in m.generations then m else m.(generations := m.generations[i := g], log := m.log + [Updated(i)])
    case SetStatus(i, s) =>
      if i !in m.generations then m
      else m.(generations := m.generations[i := m.generations[i].(status := s)], log := m.log + [StatusChanged(i, s)])
    case Delete(i) =>
      if i !in m.generations then m
      else m.(generations := Survivors(m.generations, Deleted(i)), log := m.log + [Deleted(i)])
    case BulkDelete(ev) =>
      if !ev.Bulk() then m else m.(generations := Survivors(m.generations, ev), log := m.log + [ev])
    case Note => m.(log := m.log + [Other])
  }

  // ---- The cached list and its handlers ----

  // An entry that is marked deleted is hidden from lookups until the next compaction.
  datatype Cached = Cached(info: Generation, marked: bool)

  type CachedList = map<nat, Cached>

  predicate Live(list: CachedList, i: nat) {
    i in list && !list[i].marked
  }

  // Adding keeps an existing entry of the same identifier, marked or not.
  function Insert(list: CachedList, i: nat, g: Generation): CachedList {
    if i in list then list else list[i := Cached(g, false)]
  }

  function OnAdded(list: CachedList, i: nat, fetched: Option<Generation>): CachedList {
    if Live(list, i) || fetched.None? then list else Insert(list, i, fetched.value)
  }

  function OnUpdated(list: CachedList, i: nat, fetched: Option<Generation>): CachedList {
    if fetched.None? then list
    else if Live(list, i) then list[i := Cached(fetched.value, false)]
    else Insert(list, i, fetched.value)
  }

  function OnStatusChanged(list: CachedList, i: nat, status: nat, fetched: Option<Generation>): CachedList {
    if Live(list, i) then list[i := Cached(list[i].info.(status := status), false)]
    else if fetched.None? then list
    else Insert(list, i, fetched.value.(status := status))
  }

  function Removed(list: CachedList, ev: Event): CachedList {
    map i | i in list && !ev.Kills(i, list[i].info) :: list[i]
  }

  function Marked(list: CachedList, ev: Event): CachedList {
    map i | i in list :: if ev.Kills(i, list[i].info) then Cached(list[i].info, true) else list[i]
  }

  function Handle(list: CachedList, ev: Event, fetched: Option<Generation>): CachedList {
    match ev
    case Added(i) => OnAdded(list, i, fetched)
    case Updated(i) => OnUpdated(list, i, fetched)
    case StatusChanged(i, s) => OnStatusChanged(list, i, s, fetched)
    case Deleted(_) => Removed(list, ev)
    case ListDeletedByProducer(_) => Removed(list, ev)
    case ProducerDeleted(_) => Marked(list, ev)
    case ListDeletedBySource(_) => Marked(list, ev)
    case Other => list
  }

  function Compacted(list: CachedList): CachedList {
    map i | i in list && !list[i].marked :: list[i]
  }

  // ---- The protocol ----

  // `lost` and `stale` record what the replay got wrong; the code does not see them.
  datatype System = System(master: Master, list: CachedList, cursor: nat, loading: bool,
                           lost: set<nat>, stale: set<nat>)

  datatype Step =
    | MasterStep(op: MasterOp)
    | TakeCursor             // the start of init or reloadData
    | Load                   // the list is read from the master as it is by then
    | Process(fetchOk: bool) // one event; reading from the master may fail
    | Compact

  const INITIAL: System := System(Master(map[], 0, []), map[], 0, false, {}, {})

  function Fetch(m: Master, i: nat, ok: bool): Option<Generation> {
    if ok && i in m.generations then Some(m.generations[i]) else None
  }

  function TargetOf(ev: Event): nat {
    match ev
    case Added(i) => i
    case Updated(i) => i
    case StatusChanged(i, _) => i
    case _ => 0
  }

  // Reading the record at once, or changing it in place.
  predicate Refreshes(ev: Event, i: nat) {
    ev == Added(i) || SetsStatus(ev, i)
  }

  predicate SetsStatus(ev: Event, i: nat) {
    ev == Updated(i) || (ev.StatusChanged? && ev.id == i)
  }

  ghost function Exec(y: System, step: Step): System {
    match step
    case MasterStep(op) =>
      var m := ApplyMaster(y.master, op);
      y.(master := m,
         // a lost generation that the master deletes is no longer missed
         lost := set i | i in y.lost && (i in y.master.generations ==> i in m.generations))
    case TakeCursor => y.(cursor := |y.master.log|, loading := true)
    case Load =>
      if !y.loading then y
      else y.(list := map i | i in y.master.generations :: Cached(y.master.generations[i], false),
              loading := false, lost := {}, stale := {})
    case Process(ok) =>
      if y.loading || y.cursor >= |y.master.log| then y
      else
        var ev := y.master.log[y.cursor];
        y.(list := Handle(y.list, ev, Fetch(y.master, TargetOf(ev), ok)),
           cursor := y.cursor + 1,
           lost := LostAfter(y, ev, ok),
           stale := StaleAfter(y, ev, ok))
    case Compact => if y.loading then y else y.(list := Compacted(y.list))
  }

  ghost function Run(y: System, steps: seq<Step>): System {
    if |steps| == 0 then y else Exec(Run(y, steps[..|steps| - 1]), steps[|steps| - 1])
  }

  // The read that would have brought a missing generation failed.
  ghost predicate FetchLost(y: System, ev: Event, ok: bool, i: nat) {
    !ok && i in y.master.generations && !Live(y.list, i) && Refreshes(ev, i)
  }

  // A deletion that did not concern the living generation hits the cached entry: either it
  // is a marking one, older than the entry, or the entry is stale.
  ghost predicate KilledAlive(y: System, ev: Event, i: nat) {
    && Live(y.list, i) && i in y.master.generations && ev.Kills(i, y.list[i].info)
    && (ev.Marks() || i in y.stale)
  }

  // An update is read too late: the generation is gone, and no deletion to come matches the
  // old record the cache still has.
  ghost predicate UpdateMissed(y: System, ev: Event, i: nat) {
    && ev == Updated(i) && i !in y.master.generations && Live(y.list, i)
    && !PendingKill(y.master.log, y.cursor + 1, i, y.list[i].info)
  }

  // A read succeeds with no tombstone in the way, or a deletion reaches the dead entry.
  ghost predicate Restored(y: System, ev: Event, ok: bool, i: nat) {
    || (ok && i in y.master.generations && i !in y.list && Refreshes(ev, i))
    || (i !in y.master.generations && Live(y.list, i) && ev.Kills(i, y.list[i].info))
  }

  ghost function Known(y: System): set<nat> {
    y.list.Keys + y.master.generations.Keys
  }

  ghost function LostAfter(y: System, ev: Event, ok: bool): set<nat> {
    set i | i in y.lost + Known(y) && (
              || FetchLost(y, ev, ok, i)
              || KilledAlive(y, ev, i)
              || UpdateMissed(y, ev, i)
              || (i in y.lost && !Restored(y, ev, ok, i)))
  }

  // The entry of a living generation misses an update; a later update that can be read ends
  // this, and so does the removal of the entry.
  ghost function StaleAfter(y: System, ev: Event, ok: bool): set<nat> {
    set i | i in y.stale + Known(y) && (
              || (!ok && ev == Updated(i) && i in y.master.generations && Live(y.list, i))
              || (i in y.stale
                  && !(ok && ev == Updated(i) && i in y.master.generations)
                  && !(Live(y.list, i) && ev.Kills(i, y.list[i].info))))
  }

  // ---- What the rest of the log still brings ----

  ghost predicate PendingKill(log: seq<Event>, cursor: nat, i: nat, g: Generation) {
    exists k :: cursor <= k < |log| && log[k].Kills(i, g)
  }

  ghost predicate PendingUpdate(log: seq<Event>, cursor: nat, i: nat) {
    exists k :: cursor <= k < |log| && log[k] == Updated(i)
  }

  ghost predicate PendingStatus(log: seq<Event>, cursor: nat, i: nat) {
    exists k :: cursor <= k < |log| && SetsStatus(log[k], i)
  }

  ghost predicate PendingRefresh(log: seq<Event>, cursor: nat, i: nat) {
    exists k :: cursor <= k < |log| && Refreshes(log[k], i)
  }

  ghost predicate PendingRecord(log: seq<Event>, cursor: nat, i: nat) {
    exists k :: cursor <= k < |log| && (log[k] == Updated(i) || log[k] == Added(i))
  }

  // ---- Invariants ----

  // A bulk deletion that matches a living generation is older than its present record.
  ghost predicate KillsAreOld(m: Master) {
    forall k, i :: 0 <= k < |m.log| && i in m.generations && m.log[k].Kills(i, m.generations[i]) ==>
      PendingRecord(m.log, k + 1, i)
  }

  // The last event that sets a status tells the present one.
  ghost predicate StatusIsTold(m: Master) {
    forall k :: 0 <= k < |m.log| && m.log[k].StatusChanged? && m.log[k].id in m.generations
                && !PendingStatus(m.log, k + 1, m.log[k].id) ==>
      m.generations[m.log[k].id].status == m.log[k].status
  }

  ghost predicate IdsAreUsedOnce(m: Master) {
    && (forall i :: i in m.generations ==> i < m.nextId)
    && (forall k, i: nat :: 0 <= k < |m.log| && m.log[k].About(i) ==> i < m.nextId)
    && (forall k :: 0 <= k < |m.log| && m.log[k].Deleted? ==> m.log[k].id !in m.generations)
  }

  ghost predicate MasterInvariant(m: Master) {
    IdsAreUsedOnce(m) && KillsAreOld(m) && StatusIsTold(m)
  }

  ghost predicate SameBesideStatus(a: Generation, b: Generation) {
    a.(status := b.status) == b
  }

  // An entry of the list is right, or an event to come will put it right.
  ghost predicate EntryOk(m: Master, list: CachedList, cursor: nat, i: nat) {
    if Live(list, i) then LiveOk(m, list[i].info, cursor, i)
    else i in m.generations ==> PendingRefresh(m.log, cursor, i)
  }

  ghost predicate LiveOk(m: Master, g: Generation, cursor: nat, i: nat) {
    if i in m.generations then
      && (SameBesideStatus(g, m.generations[i]) || PendingUpdate(m.log, cursor, i))
      && (g.status == m.generations[i].status || PendingStatus(m.log, cursor, i))
    else
      PendingKill(m.log, cursor, i, g) || PendingUpdate(m.log, cursor, i)
  }

  ghost predicate CacheInvariant(y: System) {
    && y.cursor <= |y.master.log|
    && (!y.loading ==>
          && (forall i :: i in y.list ==> i < y.master.nextId)
          && (forall i :: i in y.list && y.list[i].marked && i in y.master.generations ==> i in y.lost)
          && (forall i :: i in y.lost ==> i < y.master.nextId && (Live(y.list, i) <==> i !in y.master.generations))
          && (forall i :: i !in y.lost && i !in y.stale ==> EntryOk(y.master, y.list, y.cursor, i)))
  }

  ghost predicate Invariant(y: System) {
    MasterInvariant(y.master) && CacheInvariant(y)
  }

  // ---- One step keeps the invariants ----

  lemma LaterEventsStay(a: seq<Event>, ev: Event, cursor: nat, i: nat, g: Generation)
    ensures PendingKill(a, cursor, i, g) ==> PendingKill(a + [ev], cursor, i, g)
    ensures PendingUpdate(a, cursor, i) ==> PendingUpdate(a + [ev], cursor, i)
    ensures PendingStatus(a, cursor, i) ==> PendingStatus(a + [ev], cursor, i)
    ensures PendingRefresh(a, cursor, i) ==> PendingRefresh(a + [ev], cursor, i)
    ensures PendingRecord(a, cursor, i) ==> PendingRecord(a + [ev], cursor, i)
    ensures cursor <= |a| && ev.Kills(i, g) ==> PendingKill(a + [ev], cursor, i, g)
    ensures cursor <= |a| && ev == Updated(i) ==> PendingUpdate(a + [ev], cursor, i)
    ensures cursor <= |a| && SetsStatus(ev, i) ==> PendingStatus(a + [ev], cursor, i)
    ensures cursor <= |a| && Refreshes(ev, i) ==> PendingRefresh(a + [ev], cursor, i)
    ensures cursor <= |a| && (ev == Updated(i) || ev == Added(i)) ==> PendingRecord(a + [ev], cursor, i)
  {
    var b := a + [ev];
    assert b[|a|] == ev;
    assert forall k :: 0 <= k < |a| ==> b[k] == a[k];
  }

  lemma MasterStepKeepsIds(m: Master, op: MasterOp)
    requires IdsAreUsedOnce(m)
    ensures IdsAreUsedOnce(ApplyMaster(m, op))
  {
    var m' := ApplyMaster(m, op);
    forall k | 0 <= k < |m'.log|
      ensures forall i: nat :: m'.log[k].About(i) ==> i < m'.nextId
      ensures m'.log[k].Deleted? ==> m'.log[k].id !in m'.generations
    {
      if k < |m.log| {
        assert m'.log[k] == m.log[k];
        assert m.log[k].Deleted? ==> m.log[k].About(m.log[k].id);
      }
    }
  }

  lemma MasterStepKeepsKills(m: Master, op: MasterOp, k: nat, i: nat)
    requires MasterInvariant(m)
    requires var m' := ApplyMaster(m, op);
             k < |m'.log| && i in m'.generations && m'.log[k].Kills(i, m'.generations[i])
    ensures PendingRecord(ApplyMaster(m, op).log, k + 1, i)
  {
    var m', n := ApplyMaster(m, op), |m.log|;
    if m'.log != m.log {
      var ev := m'.log[n];
      assert m'.log == m.log + [ev];
      LaterEventsStay(m.log, ev, k + 1, i, m'.generations[i]);
      if k < n && ev != Added(i) && ev != Updated(i) {
        assert i in m.generations && m.log[k].Kills(i, m.generations[i]);
      }
    }
  }

  lemma MasterStepKeepsStatus(m: Master, op: MasterOp, k: nat)
    requires MasterInvariant(m)
    requires var m' := ApplyMaster(m, op);
             && k < |m'.log| && m'.log[k].StatusChanged? && m'.log[k].id in m'.generations
             && !PendingStatus(m'.log, k + 1, m'.log[k].id)
    ensures var m' := ApplyMaster(m, op); m'.generations[m'.log[k].id].status == m'.log[k].status
  {
    var m', n := ApplyMaster(m, op), |m.log|;
    if m'.log != m.log && k < n {
      var i := m'.log[k].id;
      assert m'.log == m.log + [m'.log[n]] && m.log[k].About(i);
      LaterEventsStay(m.log, m'.log[n], k + 1, i, m'.generations[i]);
      assert i in m.generations && m'.generations[i] == m.generations[i];
    }
  }

  lemma MasterStepKeepsMaster(m: Master, op: MasterOp)
    requires MasterInvariant(m)
    ensures MasterInvariant(ApplyMaster(m, op))
  {
    var m' := ApplyMaster(m, op);
    MasterStepKeepsIds(m, op);
    forall k, i | 0 <= k < |m'.log| && i in m'.generations && m'.log[k].Kills(i, m'.generations[i])
      ensures PendingRecord(m'.log, k + 1, i)
    {
      MasterStepKeepsKills(m, op, k, i);
    }
    forall k | 0 <= k < |m'.log| && m'.log[k].StatusChanged? && m'.log[k].id in m'.generations
               && !PendingStatus(m'.log, k + 1, m'.log[k].id)
      ensures m'.generations[m'.log[k].id].status == m'.log[k].status
    {
      MasterStepKeepsStatus(m, op, k);
    }
  }

  lemma MasterStepKeepsEntry(m: Master, op: MasterOp, list: CachedList, cursor: nat, i: nat)
    requires MasterInvariant(m) && cursor <= |m.log| && (i in list ==> i < m.nextId)
    requires EntryOk(m, list, cursor, i)
    ensures EntryOk(ApplyMaster(m, op), list, cursor, i)
  {
    var m' := ApplyMaster(m, op);
    if m'.log != m.log {
      var ev := m'.log[|m.log|];
      assert m'.log == m.log + [ev];
      var g := if i in list then list[i].info else Generation(0, 0, 0, 0);
      LaterEventsStay(m.log, ev, cursor, i, g);
    }
  }

  lemma MasterStepKeepsInvariant(y: System, op: MasterOp)
    requires Invariant(y)
    ensures Invariant(Exec(y, MasterStep(op)))
  {
    var y' := Exec(y, MasterStep(op));
    MasterStepKeepsMaster(y.master, op);
    if !y.loading {
      forall i | i !in y'.lost && i !in y'.stale ensures EntryOk(y'.master, y.list, y.cursor, i) {
        if i !in y.lost {
          MasterStepKeepsEntry(y.master, op, y.list, y.cursor, i);
        }
      }
    }
  }

  // What passing one event leaves pending.
  lemma PassEvent(log: seq<Event>, c: nat, i: nat, g: Generation)
    requires c < |log|
    ensures PendingKill(log, c, i, g) && !log[c].Kills(i, g) ==> PendingKill(log, c + 1, i, g)
    ensures PendingUpdate(log, c, i) && log[c] != Updated(i) ==> PendingUpdate(log, c + 1, i)
    ensures PendingStatus(log, c, i) && !SetsStatus(log[c], i) ==> PendingStatus(log, c + 1, i)
    ensures PendingRefresh(log, c, i) && !Refreshes(log[c], i) ==> PendingRefresh(log, c + 1, i)
    ensures PendingUpdate(log, c, i) ==> PendingStatus(log, c, i) && PendingRecord(log, c, i)
    ensures PendingUpdate(log, c + 1, i) ==> PendingRecord(log, c + 1, i)
    ensures PendingRecord(log, c + 1, i) || PendingStatus(log, c + 1, i) ==> PendingRefresh(log, c + 1, i)
  {
  }

  // What an event does to the one entry of `i`.
  lemma EntryAfter(list: CachedList, ev: Event, fetched: Option<Generation>, i: nat)
    ensures var list' := Handle(list, ev, fetched);
            && (!Refreshes(ev, i) && !(i in list && ev.Kills(i, list[i].info)) ==>
                  (i in list' <==> i in list) && (i in list ==> list'[i] == list[i]))
            && (i in list && ev.Kills(i, list[i].info) ==>
                  !Live(list', i) && (ev.Marks() <==> i in list'))
  {
  }

  lemma RefreshKeepsEntry(m: Master, list: CachedList, c: nat, ok: bool, i: nat)
    requires MasterInvariant(m) && c < |m.log| && Refreshes(m.log[c], i)
    requires EntryOk(m, list, c, i) || (ok && (i !in list || m.log[c] == Updated(i)))
    requires i in list && list[i].marked ==> i !in m.generations
    requires ok || (i in m.generations ==> Live(list, i) && m.log[c] != Updated(i))
    requires m.log[c] == Updated(i) && i !in m.generations && Live(list, i) ==>
        PendingKill(m.log, c + 1, i, list[i].info)
    ensures EntryOk(m, Handle(list, m.log[c], Fetch(m, i, ok)), c + 1, i)
  {
    var g := if i in list then list[i].info else Generation(0, 0, 0, 0);
    PassEvent(m.log, c, i, g);
    if m.log[c].StatusChanged? && Live(list, i) && i !in m.generations {
      KillIgnoresStatus(m.log, c + 1, i, g, g.(status := m.log[c].status));
    }
  }

  lemma KilledEntryIsDead(y: System, i: nat)
    requires Invariant(y) && !y.loading && y.cursor < |y.master.log| && EntryOk(y.master, y.list, y.cursor, i)
    requires Live(y.list, i) && y.master.log[y.cursor].Kills(i, y.list[i].info)
    requires !y.master.log[y.cursor].Marks() && i in y.master.generations
    ensures PendingRefresh(y.master.log, y.cursor + 1, i)
  {
    var m, c, g := y.master, y.cursor, y.list[i].info;
    PassEvent(m.log, c, i, g);
    if !PendingUpdate(m.log, c + 1, i) {
      assert m.log[c].Kills(i, m.generations[i]);
    }
  }

  lemma ProcessKeepsEntry(y: System, ok: bool, i: nat)
    requires Invariant(y) && !y.loading && y.cursor < |y.master.log|
    requires i !in Exec(y, Process(ok)).lost && i !in Exec(y, Process(ok)).stale
    ensures var y' := Exec(y, Process(ok)); EntryOk(y'.master, y'.list, y'.cursor, i)
  {
    var m, c := y.master, y.cursor;
    var ev := m.log[c];
    var g := if i in y.list then y.list[i].info else Generation(0, 0, 0, 0);
    assert Live(y.list, i) || i in m.generations ==> i in Known(y);
    if Refreshes(ev, i) {
      RefreshKeepsEntry(m, y.list, c, ok, i);
    } else {
      EntryAfter(y.list, ev, Fetch(m, TargetOf(ev), ok), i);
      PassEvent(m.log, c, i, g);
      if Live(y.list, i) && ev.Kills(i, g) && i in m.generations {
        KilledEntryIsDead(y, i);
      }
    }
  }

  lemma ProcessKeepsLost(y: System, ok: bool, i: nat)
    requires Invariant(y) && !y.loading && y.cursor < |y.master.log|
    requires i in Exec(y, Process(ok)).lost
    ensures var y' := Exec(y, Process(ok)); Live(y'.list, i) <==> i !in y'.master.generations
  {
    var ev := y.master.log[y.cursor];
    EntryAfter(y.list, ev, Fetch(y.master, TargetOf(ev), ok), i);
  }

  lemma ProcessKeepsTombstones(y: System, ok: bool, i: nat)
    requires Invariant(y) && !y.loading && y.cursor < |y.master.log|
    ensures var y' := Exec(y, Process(ok));
            && (i in y'.list ==> i in Known(y))
            && (i in y'.list && y'.list[i].marked && i in y'.master.generations ==> i in y'.lost)
  {
    var ev := y.master.log[y.cursor];
    EntryAfter(y.list, ev, Fetch(y.master, TargetOf(ev), ok), i);
  }

  lemma ProcessKeepsInvariant(y: System, ok: bool)
    requires Invariant(y)
    ensures Invariant(Exec(y, Process(ok)))
  {
    if !y.loading && y.cursor < |y.master.log| {
      var y' := Exec(y, Process(ok));
      forall i | i !in y'.lost && i !in y'.stale ensures EntryOk(y'.master, y'.list, y'.cursor, i) {
        ProcessKeepsEntry(y, ok, i);
      }
      forall i | i in y'.lost ensures i < y'.master.nextId && (Live(y'.list, i) <==> i !in y'.master.generations) {
        ProcessKeepsLost(y, ok, i);
      }
      forall i | i in y'.list
        ensures i < y'.master.nextId && (y'.list[i].marked && i in y'.master.generations ==> i in y'.lost)
      {
        ProcessKeepsTombstones(y, ok, i);
      }
    }
  }

  lemma StepKeepsInvariant(y: System, step: Step)
    requires Invariant(y)
    ensures Invariant(Exec(y, step))
  {
    match step
    case MasterStep(op) => MasterStepKeepsInvariant(y, op);
    case TakeCursor =>
    case Load =>
    case Process(ok) => ProcessKeepsInvariant(y, ok);
    case Compact =>
      forall i | !y.loading && i !in y.lost && i !in y.stale
        ensures EntryOk(y.master, Compacted(y.list), y.cursor, i)
      {
        assert EntryOk(y.master, y.list, y.cursor, i);
      }
  }

  lemma {:induction false} RunKeepsInvariant(steps: seq<Step>)
    ensures Invariant(Run(INITIAL, steps))
  {
    if |steps| > 0 {
      RunKeepsInvariant(steps[..|steps| - 1]);
      StepKeepsInvariant(Run(INITIAL, steps[..|steps| - 1]), steps[|steps| - 1]);
    }
  }

  // ---- Convergence ----

  ghost predicate CaughtUp(y: System) {
    !y.loading && y.cursor == |y.master.log|
  }

  // The cache answers for this generation what the master has.
  ghost predicate Agrees(y: System, i: nat) {
    && (Live(y.list, i) <==> i in y.master.generations)
    && (Live(y.list, i) && i in y.master.generations ==> y.list[i].info == y.master.generations[i])
  }

  // The generations that lookups in the cache find.
  function Visible(list: CachedList): map<nat, Generation> {
    map i | i in list && !list[i].marked :: list[i].info
  }

  // In every run, however late the list was loaded: whenever the cursor has caught up, the
  // cache agrees with the master on every generation, except on exactly the lost ones and
  // possibly on those whose update could not be read.
  lemma Convergence(steps: seq<Step>, i: nat)
    requires CaughtUp(Run(INITIAL, steps)) && i !in Run(INITIAL, steps).stale
    ensures Agrees(Run(INITIAL, steps), i) <==> i !in Run(INITIAL, steps).lost
  {
    RunKeepsInvariant(steps);
    var y := Run(INITIAL, steps);
    assert i !in y.lost ==> EntryOk(y.master, y.list, y.cursor, i);
  }

  ghost predicate ReadsSucceed(steps: seq<Step>) {
    forall n :: 0 <= n < |steps| && steps[n].Process? ==> steps[n].fetchOk
  }

  lemma {:induction false} NothingIsStale(steps: seq<Step>)
    requires ReadsSucceed(steps)
    ensures Run(INITIAL, steps).stale == {}
  {
    if |steps| > 0 {
      NothingIsStale(steps[..|steps| - 1]);
    }
  }

  // When every read of a living generation succeeds, the caught-up cache is the master's list
  // if and only if nothing is lost.
  lemma ExactConvergence(steps: seq<Step>)
    requires ReadsSucceed(steps) && CaughtUp(Run(INITIAL, steps))
    ensures var y := Run(INITIAL, steps); Visible(y.list) == y.master.generations <==> y.lost == {}
  {
    NothingIsStale(steps);
    var y := Run(INITIAL, steps);
    forall i ensures Agrees(y, i) <==> i !in y.lost {
      Convergence(steps, i);
    }
    SameMap(y);
    if i :| i in y.lost {
      assert !Agrees(y, i);
    }
  }

  lemma SameMap(y: System)
    ensures Visible(y.list) == y.master.generations <==> forall i :: Agrees(y, i)
  {
    var v, g := Visible(y.list), y.master.generations;
    if forall i :: Agrees(y, i) {
      forall i ensures i in v <==> i in g {
        assert Agrees(y, i);
      }
      forall i | i in v ensures v[i] == g[i] {
        assert Agrees(y, i);
      }
    }
    if v == g {
      forall i ensures Agrees(y, i) {
        assert i in v <==> Live(y.list, i);
      }
    }
  }

  // A generation whose addition could not be read is right again after the next update or
  // status event that can be read, unless a tombstone of it is in the way.
  lemma FailedAdditionIsRepaired(y: System, i: nat)
    requires Invariant(y) && !y.loading && y.cursor < |y.master.log|
    requires i in y.master.generations && i !in y.list && i !in y.stale
    requires Refreshes(y.master.log[y.cursor], i)
    ensures var y' := Exec(y, Process(true));
            && i !in y'.lost
            && Live(y'.list, i)
            && SameBesideStatus(y'.list[i].info, y'.master.generations[i])
            && (y'.list[i].info.status == y'.master.generations[i].status
                || PendingStatus(y'.master.log, y'.cursor, i))
  {
    assert Restored(y, y.master.log[y.cursor], true, i);
    ProcessKeepsEntry(y, true, i);
  }

  // ---- Runs in which nothing is lost ----

  ghost predicate CleanStep(y: System, step: Step) {
    match step
    // updates leave the producer and the source of a generation alone
    case MasterStep(op) =>
      op.Update? && op.id in y.master.generations ==>
        SameOwner(op.generation, y.master.generations[op.id])
    // reads succeed, and no marking deletion hits the entry of a living generation
    case Process(ok) =>
      ok && (!y.loading && y.cursor < |y.master.log| ==>
               forall i :: i in y.list ==> !KilledAlive(y, y.master.log[y.cursor], i))
    case _ => true
  }

  ghost predicate SameOwner(a: Generation, b: Generation) {
    a.producerId == b.producerId && a.sourceId == b.sourceId
  }

  ghost predicate CleanRun(steps: seq<Step>) {
    forall n :: 0 <= n < |steps| ==> CleanStep(Run(INITIAL, steps[..n]), steps[n])
  }

  // With steady owners, a deletion that reaches every dead entry is always pending.
  ghost predicate OwnersSteady(y: System) {
    && y.lost == {} && y.stale == {}
    && (!y.loading ==> forall i :: Live(y.list, i) ==> OwnerSteady(y.master, y.cursor, i, y.list[i].info))
  }

  ghost predicate OwnerSteady(m: Master, cursor: nat, i: nat, g: Generation) {
    if i in m.generations then SameOwner(g, m.generations[i]) else PendingKill(m.log, cursor, i, g)
  }

  lemma KillIgnoresStatus(log: seq<Event>, cursor: nat, i: nat, a: Generation, b: Generation)
    requires SameOwner(a, b)
    ensures PendingKill(log, cursor, i, a) ==> PendingKill(log, cursor, i, b)
  {
    if k :| cursor <= k < |log| && log[k].Kills(i, a) {
      assert log[k].Kills(i, b);
    }
  }

  lemma MasterKeepsOwner(y: System, op: MasterOp, i: nat)
    requires Invariant(y) && OwnersSteady(y) && CleanStep(y, MasterStep(op)) && !y.loading && Live(y.list, i)
    ensures OwnerSteady(ApplyMaster(y.master, op), y.cursor, i, y.list[i].info)
  {
    var m' := ApplyMaster(y.master, op);
    assert OwnerSteady(y.master, y.cursor, i, y.list[i].info);
    if m'.log != y.master.log {
      var ev := m'.log[|y.master.log|];
      assert m'.log == y.master.log + [ev];
      LaterEventsStay(y.master.log, ev, y.cursor, i, y.list[i].info);
    }
  }

  lemma ProcessKeepsOwner(y: System, i: nat)
    requires Invariant(y) && OwnersSteady(y) && !y.loading && y.cursor < |y.master.log|
    requires Live(Exec(y, Process(true)).list, i)
    ensures var y' := Exec(y, Process(true)); OwnerSteady(y'.master, y'.cursor, i, y'.list[i].info)
  {
    var ev, y' := y.master.log[y.cursor], Exec(y, Process(true));
    EntryAfter(y.list, ev, Fetch(y.master, TargetOf(ev), true), i);
    if Live(y.list, i) {
      assert OwnerSteady(y.master, y.cursor, i, y.list[i].info);
      PassEvent(y.master.log, y.cursor, i, y.list[i].info);
      if i !in y.master.generations {
        KillIgnoresStatus(y.master.log, y'.cursor, i, y.list[i].info, y'.list[i].info);
      }
    }
  }

  lemma CleanStepKeepsOwners(y: System, step: Step)
    requires Invariant(y) && OwnersSteady(y) && CleanStep(y, step)
    ensures OwnersSteady(Exec(y, step))
  {
    match step
    case MasterStep(op) =>
      forall i | !y.loading && Live(y.list, i)
        ensures OwnerSteady(ApplyMaster(y.master, op), y.cursor, i, y.list[i].info)
      {
        MasterKeepsOwner(y, op, i);
      }
    case Process(ok) =>
      if !y.loading && y.cursor < |y.master.log| {
        var ev, y' := y.master.log[y.cursor], Exec(y, step);
        forall i | Live(y'.list, i) ensures OwnerSteady(y'.master, y'.cursor, i, y'.list[i].info) {
          ProcessKeepsOwner(y, i);
        }
        forall i ensures !UpdateMissed(y, ev, i) {
          if Live(y.list, i) {
            assert OwnerSteady(y.master, y.cursor, i, y.list[i].info);
            PassEvent(y.master.log, y.cursor, i, y.list[i].info);
          }
        }
      }
    case _ =>
  }

  lemma {:induction false} CleanRunKeepsOwners(steps: seq<Step>)
    requires CleanRun(steps)
    ensures OwnersSteady(Run(INITIAL, steps)) && ReadsSucceed(steps)
  {
    if |steps| > 0 {
      var front, last := steps[..|steps| - 1], steps[|steps| - 1];
      forall n | 0 <= n < |front| ensures CleanStep(Run(INITIAL, front[..n]), front[n]) {
        assert front[..n] == steps[..n] && front[n] == steps[n];
      }
      CleanRunKeepsOwners(front);
      RunKeepsInvariant(front);
      assert CleanStep(Run(INITIAL, steps[..|front|]), steps[|front|]);
      CleanStepKeepsOwners(Run(INITIAL, front), last);
      forall n | 0 <= n < |steps| && steps[n].Process? ensures steps[n].fetchOk {
        assert CleanStep(Run(INITIAL, steps[..n]), steps[n]);
      }
    }
  }

  // In a clean run the caught-up cache has exactly the master's generations.
  lemma CleanConvergence(steps: seq<Step>)
    requires CleanRun(steps) && CaughtUp(Run(INITIAL, steps))
    ensures Visible(Run(INITIAL, steps).list) == Run(INITIAL, steps).master.generations
  {
    CleanRunKeepsOwners(steps);
    ExactConvergence(steps);
  }

  // ---- Without marking deletions ----

  // The events ADDED, UPDATED, STATUS_CHANGED, DELETED and LIST_DELETED_BY_PRODUCER_ID.
  ghost predicate UnmarkedStep(y: System, step: Step) {
    match step
    case MasterStep(op) =>
      && (op.BulkDelete? ==> !op.event.Marks())
      && (op.Update? && op.id in y.master.generations ==>
            SameOwner(op.generation, y.master.generations[op.id]))
    case Process(ok) => ok
    case _ => true
  }

  ghost predicate UnmarkedRun(steps: seq<Step>) {
    forall n :: 0 <= n < |steps| ==> UnmarkedStep(Run(INITIAL, steps[..n]), steps[n])
  }

  lemma {:induction false} LogWithoutMarks(steps: seq<Step>, n: nat)
    requires UnmarkedRun(steps) && n <= |steps|
    ensures forall k :: 0 <= k < |Run(INITIAL, steps[..n]).master.log| ==>
              !Run(INITIAL, steps[..n]).master.log[k].Marks()
  {
    if n > 0 {
      LogWithoutMarks(steps, n - 1);
      assert steps[..n][..n - 1] == steps[..n - 1];
      assert UnmarkedStep(Run(INITIAL, steps[..n - 1]), steps[n - 1]);
    }
  }

  // However late the list was loaded, the caught-up cache has exactly the master's generations.
  lemma UnmarkedConvergence(steps: seq<Step>)
    requires UnmarkedRun(steps) && CaughtUp(Run(INITIAL, steps))
    ensures Visible(Run(INITIAL, steps).list) == Run(INITIAL, steps).master.generations
  {
    forall n | 0 <= n < |steps| ensures CleanStep(Run(INITIAL, steps[..n]), steps[n]) {
      assert UnmarkedStep(Run(INITIAL, steps[..n]), steps[n]);
      LogWithoutMarks(steps, n);
      forall k | 0 <= k < n && steps[..n][k].Process? ensures steps[..n][k].fetchOk {
        assert UnmarkedStep(Run(INITIAL, steps[..k]), steps[k]);
      }
      NothingIsStale(steps[..n]);
    }
    CleanConvergence(steps);
  }

  // ---- Two runs that lose track of the master although every read succeeds ----

  lemma RunThen(y: System, steps: seq<Step>, step: Step)
    ensures Run(y, steps + [step]) == Exec(Run(y, steps), step)
  {
    assert (steps + [step])[..|steps|] == steps;
  }

  lemma RunNothing(y: System)
    ensures Run(y, []) == y
  {
  }

  lemma LoadAfterReplacement(g: Generation)
    ensures Run(INITIAL, [TakeCursor, MasterStep(BulkDelete(ListDeletedBySource(g.sourceId))), MasterStep(Add(g)),
        Load])
         == System(Master(map[0 := g], 1, [ListDeletedBySource(g.sourceId), Added(0)]),
                   map[0 := Cached(g, false)], 0, false, {}, {})
  {
    var deletion := ListDeletedBySource(g.sourceId);
    var s1 := [TakeCursor];
    var s2 := s1 + [MasterStep(BulkDelete(deletion))];
    var s3 := s2 + [MasterStep(Add(g))];
    RunNothing(INITIAL);
    RunThen(INITIAL, [], TakeCursor);
    assert [] + [TakeCursor] == s1;
    RunThen(INITIAL, s1, MasterStep(BulkDelete(deletion)));
    assert Run(INITIAL, s2) == System(Master(map[], 0, [deletion]), map[], 0, true, {}, {});
    RunThen(INITIAL, s2, MasterStep(Add(g)));
    assert Run(INITIAL, s3) == System(Master(map[0 := g], 1, [deletion, Added(0)]), map[], 0, true, {}, {});
    RunThen(INITIAL, s3, Load);
    assert s3 + [Load] == [TakeCursor, MasterStep(BulkDelete(deletion)), MasterStep(Add(g)), Load];
  }

  // The cursor is taken, a source is deleted and a generation of it added again, and only then
  // the list is loaded: replaying the deletion marks the new generation, and its own ADDED
  // event is dropped because the tombstone is in the way.
  lemma LateLoadLosesGeneration(g: Generation)
    ensures var y := Run(INITIAL, [TakeCursor, MasterStep(BulkDelete(ListDeletedBySource(g.sourceId))),
                                   MasterStep(Add(g)), Load, Process(true), Process(true)]);
            CaughtUp(y) && y.master.generations == map[0 := g] && Visible(y.list) == map[] && y.lost == {0}
  {
    var deletion := ListDeletedBySource(g.sourceId);
    var s4 := [TakeCursor, MasterStep(BulkDelete(deletion)), MasterStep(Add(g)), Load];
    var s5 := s4 + [Process(true)];
    LoadAfterReplacement(g);
    var y4 := Run(INITIAL, s4);
    RunThen(INITIAL, s4, Process(true));
    assert KilledAlive(y4, deletion, 0);
    var y5 := Run(INITIAL, s5);
    assert y5 == System(y4.master, map[0 := Cached(g, true)], 1, false, {0}, {});
    RunThen(INITIAL, s5, Process(true));
    assert s5 + [Process(true)] == [TakeCursor, MasterStep(BulkDelete(deletion)), MasterStep(Add(g)), Load,
                                    Process(true), Process(true)];
  }

  // An update moves a generation to another producer, whose generations are deleted before the
  // cache reads the update: the cache keeps the old record for good.
  lemma MovedGenerationSurvives(g: Generation, h: Generation)
    requires g.producerId != h.producerId
    ensures var y := Run(INITIAL, [MasterStep(Add(g)), Process(true), MasterStep(Update(0, h)),
                                   MasterStep(BulkDelete(ListDeletedByProducer(h.producerId))),
                                   Process(true), Process(true)]);
            CaughtUp(y) && y.master.generations == map[] && Visible(y.list) == map[0 := g] && y.lost == {0}
  {
    var deletion := ListDeletedByProducer(h.producerId);
    var log := [Added(0), Updated(0), deletion];
    var s1 := [MasterStep(Add(g))];
    var s2 := s1 + [Process(true)];
    var s3 := s2 + [MasterStep(Update(0, h))];
    var s4 := s3 + [MasterStep(BulkDelete(deletion))];
    var s5 := s4 + [Process(true)];
    RunNothing(INITIAL);
    RunThen(INITIAL, [], MasterStep(Add(g)));
    assert [] + [MasterStep(Add(g))] == s1;
    assert Run(INITIAL, s1) == System(Master(map[0 := g], 1, [Added(0)]), map[], 0, false, {}, {});
    RunThen(INITIAL, s1, Process(true));
    var held := map[0 := Cached(g, false)];
    assert Run(INITIAL, s2) == System(Master(map[0 := g], 1, [Added(0)]), held, 1, false, {}, {});
    RunThen(INITIAL, s2, MasterStep(Update(0, h)));
    assert Run(INITIAL, s3) == System(Master(map[0 := h], 1, [Added(0), Updated(0)]), held, 1, false, {}, {});
    RunThen(INITIAL, s3, MasterStep(BulkDelete(deletion)));
    var y4 := Run(INITIAL, s4);
    assert y4 == System(Master(map[], 1, log), held, 1, false, {}, {});
    RunThen(INITIAL, s4, Process(true));
    assert UpdateMissed(y4, Updated(0), 0);
    assert Run(INITIAL, s5) == System(Master(map[], 1, log), held, 2, false, {0}, {});
    RunThen(INITIAL, s5, Process(true));
    assert s5 + [Process(true)] == [MasterStep(Add(g)), Process(true), MasterStep(Update(0, h)),
                                    MasterStep(BulkDelete(deletion)), Process(true), Process(true)];
  }

  // ---- The events in fields ----

  // What stays live after each of the deletions, and where a tombstone is left.
  lemma DeletionsLeave(list: CachedList, id: nat, i: nat)
    ensures Live(Handle(list, Deleted(id), None), i) <==> Live(list, i) && i != id
    ensures Live(Handle(list, ListDeletedByProducer(id), None), i) <==> Live(list, i) && list[i].info.producerId != id
    ensures Live(Handle(list, ProducerDeleted(id), None), i) <==> Live(list, i) && list[i].info.producerId != id
    ensures Live(Handle(list, ListDeletedBySource(id), None), i) <==> Live(list, i) && list[i].info.sourceId != id
    ensures i in Handle(list, Deleted(id), None) <==> i in list && i != id
    ensures i in Handle(list, ListDeletedByProducer(id), None) <==> i in list && list[i].info.producerId != id
    ensures i in Handle(list, ProducerDeleted(id), None) <==> i in list
    ensures i in Handle(list, ListDeletedBySource(id), None) <==> i in list
    ensures forall ev: Event :: !ev.StatusChanged? && i in list && i in Handle(list, ev, None) ==>
                           Handle(list, ev, None)[i].info == list[i].info
    ensures i in Compacted(list) <==> Live(list, i)
    ensures Live(list, i) ==> Compacted(list)[i] == list[i]
  {
  }

  // The same at the master, where everything goes at once.
  lemma MasterDeletionsLeave(m: Master, id: nat, i: nat)
    ensures var all := m.generations;
            && (i in ApplyMaster(m, Delete(id)).generations <==> i in all && i != id)
            && (i in ApplyMaster(m, BulkDelete(ListDeletedByProducer(id))).generations <==>
                i in all && all[i].producerId != id)
            && (i in ApplyMaster(m, BulkDelete(ProducerDeleted(id))).generations <==>
                i in all && all[i].producerId != id)
            && (i in ApplyMaster(m, BulkDelete(ListDeletedBySource(id))).generations <==>
                i in all && all[i].sourceId != id)
  {
  }

  // What the other three events make of the entry they are about; all others stay.
  lemma HandlersBring(list: CachedList, i: nat, g: Generation, status: nat)
    ensures Handle(list, Added(i), Some(g)) == if i in list then list else list[i := Cached(g, false)]
    ensures Handle(list, Updated(i), Some(g))
         == if i in list && list[i].marked then list else list[i := Cached(g, false)]
    ensures Handle(list, StatusChanged(i, status), Some(g))
         == if i !in list then list[i := Cached(Generation(g.producerId, g.sourceId, status, g.details), false)]
            else if list[i].marked then list
            else list[i := Cached(Generation(list[i].info.producerId, list[i].info.sourceId, status,
                                             list[i].info.details), false)]
    ensures Handle(list, Added(i), None) == Handle(list, Updated(i), None) == list
    ensures Live(list, i) ==>
              Handle(list, StatusChanged(i, status), None) == Handle(list, StatusChanged(i, status), Some(g))
    ensures !Live(list, i) ==> Handle(list, StatusChanged(i, status), None) == list
  {
  }

  // What the master's own changes bring, each with its event.
  lemma MasterBrings(m: Master, i: nat, g: Generation, status: nat)
    ensures ApplyMaster(m, Add(g)) == Master(m.generations[m.nextId := g], m.nextId + 1, m.log + [Added(m.nextId)])
    ensures i in m.generations ==>
              && ApplyMaster(m, Update(i, g)) == Master(m.generations[i := g], m.nextId, m.log + [Updated(i)])
              && var before := m.generations[i];
                 ApplyMaster(m, SetStatus(i, status))
                 == Master(m.generations[i := Generation(before.producerId, before.sourceId, status, before.details)],
                           m.nextId, m.log + [StatusChanged(i, status)])
    ensures i !in m.generations ==>
              ApplyMaster(m, Update(i, g)) == ApplyMaster(m, SetStatus(i, status)) == ApplyMaster(m, Delete(i)) == m
  {
  }

  // ---- What the other steps do, and what they note ----

  // Taking the cursor and loading later; nothing is handled in between.
  lemma TakenAndLoaded(y: System, ok: bool)
    ensures var taken := Exec(y, TakeCursor);
            && taken.list == y.list && taken.cursor == |y.master.log|
            && Exec(taken, Process(ok)) == Exec(taken, Compact) == taken
    ensures var z := Exec(Exec(y, TakeCursor), Load);
            && z.cursor == |y.master.log| && !z.loading && z.lost == z.stale == {}
            && (forall i :: i in z.list <==> i in y.master.generations)
            && (forall i :: i in z.list ==> z.list[i].info == y.master.generations[i] && !z.list[i].marked)
    ensures !y.loading ==> Exec(y, Load) == y
    ensures CaughtUp(y) ==> Exec(y, Process(ok)) == y
  {
  }

  // A generation is lost when an event of its own cannot be read while it is missing, when a
  // deletion hides it while the master has it, by a marking or because its record is stale, and
  // when its update is read after the master has deleted it.
  lemma BecomesLost(y: System, ok: bool, i: nat)
    requires Invariant(y) && !y.loading && y.cursor < |y.master.log| && i !in y.lost
    ensures var ev, z := y.master.log[y.cursor], Exec(y, Process(ok));
            i in z.lost <==>
              || (!ok && i in y.master.generations && !Live(y.list, i)
                  && (ev == Added(i) || ev == Updated(i) || (ev.StatusChanged? && ev.id == i)))
              || (i in y.master.generations && Live(y.list, i) && !Live(z.list, i)
                  && (ev.ProducerDeleted? || ev.ListDeletedBySource? || i in y.stale))
              || (ev == Updated(i) && i !in y.master.generations && Live(y.list, i)
                  && forall k :: y.cursor < k < |y.master.log| ==> !y.master.log[k].Kills(i, y.list[i].info))
  {
    EntryAfter(y.list, y.master.log[y.cursor], Fetch(y.master, TargetOf(y.master.log[y.cursor]), ok), i);
  }

  // It is lost until the two sides agree again on whether it is there, or a load begins.
  lemma StaysLost(y: System, step: Step, i: nat)
    requires Invariant(y) && !y.loading && i in y.lost && !step.TakeCursor?
    ensures i in Exec(y, step).lost
       <==> (Live(Exec(y, step).list, i) <==> i !in Exec(y, step).master.generations)
  {
    if step.Process? && y.cursor < |y.master.log| {
      EntryAfter(y.list, y.master.log[y.cursor], Fetch(y.master, TargetOf(y.master.log[y.cursor]), step.fetchOk), i);
    }
  }

  // A record is stale from an update that cannot be read until one that can, or until it goes.
  lemma GoesStale(y: System, ok: bool, i: nat)
    requires Invariant(y) && !y.loading && y.cursor < |y.master.log|
    ensures var ev, z := y.master.log[y.cursor], Exec(y, Process(ok));
            i in z.stale <==>
              if ev == Updated(i) && i in y.master.generations then !ok && (Live(y.list, i) || i in y.stale)
              else i in y.stale && !(Live(y.list, i) && !Live(z.list, i))
  {
    EntryAfter(y.list, y.master.log[y.cursor], Fetch(y.master, TargetOf(y.master.log[y.cursor]), ok), i);
  }

  // The runs that the last two results are about may have these steps at any time.
  lemma AllowedSteps(y: System, i: nat, g: Generation, status: nat, producerId: nat)
    ensures forall step :: step in {TakeCursor, Load, Compact, MasterStep(Add(g)), MasterStep(SetStatus(i, status)),
                                    MasterStep(Delete(i)), MasterStep(Note),
                                    MasterStep(BulkDelete(ListDeletedByProducer(producerId)))} ==>
              CleanStep(y, step) && UnmarkedStep(y, step)
    ensures i in y.master.generations ==>
              g.producerId == y.master.generations[i].producerId && g.sourceId == y.master.generations[i].sourceId ==>
              CleanStep(y, MasterStep(Update(i, g))) && UnmarkedStep(y, MasterStep(Update(i, g)))
    ensures UnmarkedStep(y, Process(true))
    ensures forall ev :: CleanStep(y, MasterStep(BulkDelete(ev)))
    ensures y.stale == {} && y.cursor < |y.master.log| ==>
              var ev := y.master.log[y.cursor];
              !ev.ProducerDeleted? && !ev.ListDeletedBySource? ==> CleanStep(y, Process(true))
    ensures y.cursor == |y.master.log| ==> CleanStep(y, Process(true))
  {
  }
}
