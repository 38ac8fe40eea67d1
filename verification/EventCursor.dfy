// Following the master's event log: the bounded event list, the cursor of the cache, and the
// loop that fetches pages of events until none is left.
module EventCursors {
  import opened Wrappers

  const PAGE_LENGTH: nat := 10000

  datatype Event = Event(id: nat, payload: nat)

  ghost predicate Ascending(s: seq<Event>) {
    forall j, k :: 0 <= j < k < |s| ==> s[j].id < s[k].id
  }

  // The master numbers its events 1, 2, 3 and so on.
  ghost predicate Numbered(history: seq<Event>) {
    forall k :: 0 <= k < |history| ==> history[k].id == k + 1
  }

  ghost predicate IsEndOf(tail: seq<Event>, s: seq<Event>) {
    |tail| <= |s| && forall k :: 0 <= k < |tail| ==> tail[k] == s[|s| - |tail| + k]
  }

  // The events numbered `start` and above.
  function From(s: seq<Event>, start: nat): seq<Event> {
    if |s| == 0 then [] else
      var last := s[|s| - 1];
      From(s[..|s| - 1], start) + if last.id >= start then [last] else []
  }

  // A limit of zero does not limit, as the length is compared after an event is taken.
  function Page(s: seq<Event>, start: nat, maxRecords: nat): seq<Event> {
    var f := From(s, start);
    if maxRecords == 0 || |f| <= maxRecords then f else f[..maxRecords]
  }

  // What a list of at most `limit` events keeps before one more is appended.
  function Kept(s: seq<Event>, limit: nat): seq<Event> {
    if |s| > limit then s[|s| - limit..] else s
  }

  lemma {:induction false} FromAt(s: seq<Event>, start: nat, p: nat)
    requires p <= |s|
    requires forall k :: 0 <= k < p ==> s[k].id < start
    requires forall k :: p <= k < |s| ==> start <= s[k].id
    ensures From(s, start) == s[p..]
  {
    if |s| > 0 {
      var front := s[..|s| - 1];
      if p == |s| {
        FromAt(front, start, p - 1);
      } else {
        FromAt(front, start, p);
        assert s[p..] == front[p..] + [s[|s| - 1]];
      }
    }
  }

  lemma FromNext(s: seq<Event>, n: nat, start: nat)
    requires n < |s|
    ensures From(s[..n + 1], start) == From(s[..n], start) + if s[n].id >= start then [s[n]] else []
  {
    assert s[..n + 1][..n] == s[..n];
  }

  lemma {:induction false} FromGrows(s: seq<Event>, n: nat, start: nat)
    requires n <= |s|
    ensures From(s[..n], start) <= From(s, start)
    decreases |s| - n
  {
    if n < |s| {
      FromNext(s, n, start);
      FromGrows(s, n + 1, start);
    } else {
      assert s[..n] == s;
    }
  }

  lemma NothingBefore(s: seq<Event>, n: nat, start: nat)
    requires Ascending(s) && n < |s| && (n > 0 ==> s[n].id <= start)
    ensures From(s[..n], start) == []
  {
    FromAt(s[..n], start, n);
  }

  lemma EndGrows(tail: seq<Event>, s: seq<Event>, limit: nat, ev: Event)
    requires IsEndOf(tail, s)
    ensures IsEndOf(Kept(tail, limit) + [ev], s + [ev])
  {
  }

  lemma {:induction false} FromHolds(s: seq<Event>, start: nat)
    ensures forall e :: e in From(s, start) <==> e in s && e.id >= start
  {
    if |s| > 0 {
      FromHolds(s[..|s| - 1], start);
      assert s == s[..|s| - 1] + [s[|s| - 1]];
    }
  }

  lemma {:induction false} FromAscends(s: seq<Event>, start: nat)
    requires Ascending(s)
    ensures Ascending(From(s, start))
  {
    if |s| > 0 {
      var front, last := s[..|s| - 1], s[|s| - 1];
      FromAscends(front, start);
      FromHolds(front, start);
      forall k | 0 <= k < |From(front, start)| ensures From(front, start)[k].id < last.id {
        assert From(front, start)[k] in front;
        var j :| 0 <= j < |front| && front[j] == From(front, start)[k];
        assert s[j] == front[j];
      }
    }
  }

  // A page holds the first events at or above its start, as many as asked for.
  lemma PageHolds(s: seq<Event>, start: nat, maxRecords: nat)
    requires Ascending(s)
    ensures forall e :: e in From(s, start) <==> e in s && e.id >= start
    ensures Ascending(From(s, start)) && Page(s, start, maxRecords) <= From(s, start)
    ensures var all := |From(s, start)|;
            |Page(s, start, maxRecords)| == if maxRecords == 0 || all < maxRecords then all else maxRecords
  {
    FromHolds(s, start);
    FromAscends(s, start);
  }

  // ---- The event list ----

  class EventInfoList {
    var mItems: seq<Event>
    var mMaxLength: nat

    constructor (maxLength: nat)
      ensures mItems == [] && mMaxLength == maxLength
    {
      mItems, mMaxLength := [], maxLength;
    }

    method AddEventInfo(ev: Event)
      modifies `mItems
      ensures mItems == Kept(old(mItems), mMaxLength) + [ev]
      ensures |mItems| == 1 + if |old(mItems)| < mMaxLength then |old(mItems)| else mMaxLength
    {
      while |mItems| > mMaxLength
        invariant |mItems| <= |old(mItems)| && mItems == old(mItems)[|old(mItems)| - |mItems|..]
        invariant |mItems| >= mMaxLength || mItems == old(mItems)
        decreases |mItems|
      {
        mItems := mItems[1..];
      }
      mItems := mItems + [ev];
    }

    // Walks back from the end to the last event numbered at most `start`, then collects forward.
    method GetEventInfoList(start: nat, maxRecords: nat) returns (list: seq<Event>)
      requires Ascending(mItems)
      ensures list == Page(mItems, start, maxRecords)
    {
      list := [];
      if |mItems| == 0 {
        return;
      }
      var it := |mItems| - 1;
      while it >= 0 && mItems[it].id > start
        invariant -1 <= it < |mItems|
      {
        it := it - 1;
      }
      if it < 0 {
        it := 0;
      }
      NothingBefore(mItems, it, start);
      list := CollectForward(it, start, maxRecords);
    }

    method CollectForward(first: nat, start: nat, maxRecords: nat) returns (list: seq<Event>)
      requires first <= |mItems| && From(mItems[..first], start) == []
      ensures list == Page(mItems, start, maxRecords)
    {
      list := [];
      var it := first;
      while it < |mItems|
        invariant first <= it <= |mItems| && list == From(mItems[..it], start)
        invariant maxRecords == 0 || |list| < maxRecords
      {
        FromNext(mItems, it, start);
        if mItems[it].id >= start {
          list := list + [mItems[it]];
          if |list| == maxRecords {
            FromGrows(mItems, it + 1, start);
            return;
          }
        }
        it := it + 1;
      }
      assert mItems[..it] == mItems;
    }
  }

  // ---- The master, as far as its log goes ----

  class ContentStorage {
    const mStartTime: nat
    const mEventsEnabled: bool
    const mEventInfoList: EventInfoList
    var mMaxEventId: nat
    ghost var history: seq<Event>  // every event ever added, also those the list has dropped

    ghost predicate Valid()
      reads this, mEventInfoList
    {
      && Numbered(history) && mMaxEventId == |history|
      && IsEndOf(mEventInfoList.mItems, history)
      && (history != [] ==> mEventInfoList.mItems != [] && mEventsEnabled)
    }

    constructor (startTime: nat, eventsEnabled: bool, maxLength: nat)
      ensures Valid() && history == [] && fresh(mEventInfoList) && mEventInfoList.mMaxLength == maxLength
      ensures mStartTime == startTime && mEventsEnabled == eventsEnabled
    {
      mStartTime := startTime;
      mEventsEnabled := eventsEnabled;
      mEventInfoList := new EventInfoList(maxLength);
      mMaxEventId := 0;
      history := [];
    }

    // None is the answer DATA_NOT_FOUND.
    method GetLastEventInfo() returns (last: Option<Event>)
      requires Valid()
      ensures last == if history == [] then None else Some(history[|history| - 1])
    {
      var items := mEventInfoList.mItems;
      if |items| == 0 {
        return None;
      }
      return Some(items[|items| - 1]);
    }

    // The identifier of the new event, or 0 when events are disabled and nothing is noted.
    method AddEvent(payload: nat) returns (eventId: nat)
      requires Valid()
      modifies this, mEventInfoList`mItems
      ensures Valid() && eventId == if mEventsEnabled then |history| else 0
      ensures history == old(history) + if mEventsEnabled then [Event(eventId, payload)] else []
      ensures mEventsEnabled ==>
                var length := |old(mEventInfoList.mItems)|;
                |mEventInfoList.mItems|
                == 1 + if length < mEventInfoList.mMaxLength then length else mEventInfoList.mMaxLength
      ensures !mEventsEnabled ==> mEventInfoList.mItems == old(mEventInfoList.mItems)
    {
      if !mEventsEnabled {
        return 0;
      }
      mMaxEventId := mMaxEventId + 1;
      var ev := Event(mMaxEventId, payload);
      EndGrows(mEventInfoList.mItems, history, mEventInfoList.mMaxLength, ev);
      mEventInfoList.AddEventInfo(ev);
      history := history + [ev];
      eventId := mMaxEventId;
    }

    // Events added by other clients of the master between two calls of the cache.
    method Receive(payloads: seq<nat>)
      requires Valid()
      modifies this, mEventInfoList`mItems
      ensures Valid()
      ensures old(history) <= history
      ensures |history| == |old(history)| + if mEventsEnabled then |payloads| else 0
      ensures |old(mEventInfoList.mItems)| + |payloads| <= mEventInfoList.mMaxLength + 1 ==>
                |mEventInfoList.mItems| == |old(mEventInfoList.mItems)| + |history| - |old(history)|
      decreases |payloads|
    {
      if |payloads| > 0 {
        var eventId := AddEvent(payloads[0]);
        Receive(payloads[1..]);
      }
    }
  }

  // ---- What has been handled ----

  // `base` is the cursor of the last load, `handled` what was handled since, and `skipped` the
  // number of events the cursor has jumped over.
  datatype Follower = Follower(base: nat, cursor: nat, handled: seq<Event>, skipped: nat)

  function Handle(f: Follower, ev: Event): Follower {
    var jumped := ev.id - f.cursor - 1;
    f.(cursor := ev.id, handled := f.handled + [ev], skipped := f.skipped + if jumped > 0 then jumped else 0)
  }

  // Handles `n` consecutive events of the log.
  function HandleAll(f: Follower, history: seq<Event>, from: nat, n: nat): Follower
    requires from + n <= |history|
  {
    if n == 0 then f else Handle(HandleAll(f, history, from, n - 1), history[from + n - 1])
  }

  function Loaded(history: seq<Event>): Follower {
    Follower(|history|, |history|, [], 0)
  }

  // The handled events are the master's events between `base` and the cursor, in order and
  // each once.
  ghost predicate Exact(f: Follower, history: seq<Event>) {
    && f.base <= f.cursor <= |history| && |f.handled| == f.cursor - f.base
    && forall k :: 0 <= k < |f.handled| ==> f.handled[k] == history[f.base + k]
  }

  // Even with jumps, only events of the log are handled, and in its order.
  ghost predicate InOrder(f: Follower, history: seq<Event>) {
    && Ascending(f.handled) && f.cursor <= |history|
    && forall k :: 0 <= k < |f.handled| ==>
         f.base < f.handled[k].id <= f.cursor && f.handled[k] == history[f.handled[k].id - 1]
  }

  ghost predicate FollowerOk(f: Follower, history: seq<Event>) {
    && f.base <= f.cursor <= |history| && InOrder(f, history)
    && f.base + |f.handled| + f.skipped == f.cursor
  }

  lemma HandleKeepsFollower(f: Follower, history: seq<Event>, q: nat)
    requires Numbered(history) && FollowerOk(f, history) && f.cursor <= q < |history|
    ensures FollowerOk(Handle(f, history[q]), history)
  {
  }

  lemma LongerHistory(f: Follower, history: seq<Event>, longer: seq<Event>)
    requires history <= longer
    ensures FollowerOk(f, history) ==> FollowerOk(f, longer)
  {
  }

  lemma {:induction false} IdsAtLeast(s: seq<Event>, low: nat, k: nat)
    requires Ascending(s) && k < |s| && low < s[0].id
    ensures low + k < s[k].id
  {
    if k > 0 {
      IdsAtLeast(s, low, k - 1);
    }
  }

  lemma {:induction false} IdsAtMost(s: seq<Event>, high: nat, k: nat)
    requires Ascending(s) && k < |s| && s[|s| - 1].id <= high
    ensures s[k].id + |s| <= high + 1 + k
    decreases |s| - k
  {
    if k + 1 < |s| {
      IdsAtMost(s, high, k + 1);
    }
  }

  // Handling is exact if and only if no event was jumped over: there is just one way to put as
  // many ascending numbers between the base and the cursor as fit there.
  lemma ExactIffNothingSkipped(f: Follower, history: seq<Event>)
    requires FollowerOk(f, history)
    ensures Exact(f, history) <==> f.skipped == 0
  {
    if f.skipped == 0 {
      forall k | 0 <= k < |f.handled| ensures f.handled[k] == history[f.base + k] {
        IdsAtLeast(f.handled, f.base, k);
        IdsAtMost(f.handled, f.cursor, k);
      }
    }
  }

  // ---- Pages ----

  // A page is a run of consecutive events of the log, the first of them history[from].
  ghost predicate RunOf(history: seq<Event>, from: nat, page: seq<Event>) {
    from + |page| <= |history| && forall k :: 0 <= k < |page| ==> page[k] == history[from + k]
  }

  // Everything the list has dropped lies behind the cursor.
  predicate Retained(history: seq<Event>, items: seq<Event>, cursor: nat) {
    |history| <= cursor + |items|
  }

  function PageStart(history: seq<Event>, items: seq<Event>, cursor: nat): nat {
    if Retained(history, items, cursor) then cursor else |history| - |items|
  }

  lemma EndIsNumbered(history: seq<Event>, items: seq<Event>)
    requires Numbered(history) && IsEndOf(items, history)
    ensures forall k :: 0 <= k < |items| ==> items[k].id == |history| - |items| + 1 + k
    ensures Ascending(items)
  {
  }

  lemma NumberedFrom(items: seq<Event>, first: nat, p: nat, start: nat)
    requires forall k :: 0 <= k < |items| ==> items[k].id == first + k
    requires p <= |items| && if start >= first then p == start - first else p == 0
    ensures From(items, start) == items[p..]
  {
    FromAt(items, start, p);
  }

  lemma EndOfEnd(history: seq<Event>, items: seq<Event>, p: nat)
    requires IsEndOf(items, history) && p <= |items|
    ensures RunOf(history, |history| - |items| + p, items[p..])
  {
    forall k | 0 <= k < |items| - p ensures items[p..][k] == history[|history| - |items| + p + k] {
      assert items[p..][k] == items[p + k];
    }
  }

  lemma TailOfItems(history: seq<Event>, items: seq<Event>, cursor: nat) returns (p: nat)
    requires Numbered(history) && IsEndOf(items, history) && cursor <= |history|
    ensures p <= |items| && From(items, cursor + 1) == items[p..]
    ensures p == PageStart(history, items, cursor) - (|history| - |items|)
  {
    var d := |history| - |items|;
    p := PageStart(history, items, cursor) - d;
    EndIsNumbered(history, items);
    NumberedFrom(items, d + 1, p, cursor + 1);
  }

  lemma TailIsRun(history: seq<Event>, items: seq<Event>, cursor: nat)
    requires Numbered(history) && IsEndOf(items, history) && cursor <= |history|
    ensures RunOf(history, PageStart(history, items, cursor), From(items, cursor + 1))
    ensures items != [] && cursor < |history| ==> From(items, cursor + 1) != []
  {
    var p := TailOfItems(history, items, cursor);
    EndOfEnd(history, items, p);
    assert items != [] && cursor < |history| ==> p < |items|;
  }

  lemma RunOfFront(history: seq<Event>, from: nat, run: seq<Event>, n: nat)
    requires RunOf(history, from, run) && n <= |run|
    ensures RunOf(history, from, run[..n])
  {
    forall k | 0 <= k < n ensures run[..n][k] == history[from + k] {
      assert run[..n][k] == run[k];
    }
  }

  // A page starts right behind the cursor unless the list has dropped events there.
  lemma PageIsRun(history: seq<Event>, items: seq<Event>, cursor: nat, maxRecords: nat)
    requires Numbered(history) && IsEndOf(items, history) && cursor <= |history|
    ensures RunOf(history, PageStart(history, items, cursor), Page(items, cursor + 1, maxRecords))
    ensures items != [] && cursor < |history| ==> Page(items, cursor + 1, maxRecords) != []
  {
    TailIsRun(history, items, cursor);
    var f := From(items, cursor + 1);
    if maxRecords > 0 && |f| > maxRecords {
      RunOfFront(history, PageStart(history, items, cursor), f, maxRecords);
    }
  }

  lemma {:induction false} HandleAllMoves(f: Follower, history: seq<Event>, from: nat, n: nat)
    requires Numbered(history) && f.cursor <= from && from + n <= |history|
    ensures var f' := HandleAll(f, history, from, n);
            && f'.base == f.base && f'.cursor == (if n == 0 then f.cursor else from + n)
            && f'.skipped == f.skipped + if n == 0 then 0 else from - f.cursor
  {
    if n > 0 {
      HandleAllMoves(f, history, from, n - 1);
      assert history[from + n - 1].id == from + n;
    }
  }

  lemma OneMoreIsOk(f: Follower, g: Follower, history: seq<Event>, q: nat)
    requires Numbered(history) && FollowerOk(g, history) && f.handled <= g.handled && g.cursor <= q < |history|
    ensures FollowerOk(Handle(g, history[q]), history) && f.handled <= Handle(g, history[q]).handled
  {
    HandleKeepsFollower(g, history, q);
  }

  lemma {:induction false} HandleAllIsOk(f: Follower, history: seq<Event>, from: nat, n: nat)
    requires Numbered(history) && FollowerOk(f, history) && f.cursor <= from && from + n <= |history|
    ensures var f' := HandleAll(f, history, from, n); FollowerOk(f', history) && f.handled <= f'.handled
  {
    if n > 0 {
      var g := HandleAll(f, history, from, n - 1);
      HandleAllIsOk(f, history, from, n - 1);
      assert g.cursor <= from + n - 1 by {
        HandleAllMoves(f, history, from, n - 1);
      }
      OneMoreIsOk(f, g, history, from + n - 1);
      assert HandleAll(f, history, from, n) == Handle(g, history[from + n - 1]);
    }
  }

  lemma HandleAllKeepsFollower(f: Follower, history: seq<Event>, from: nat, n: nat)
    requires Numbered(history) && FollowerOk(f, history) && f.cursor <= from && from + n <= |history|
    ensures var f' := HandleAll(f, history, from, n);
            && FollowerOk(f', history) && f'.base == f.base && f.handled <= f'.handled
            && f'.cursor == (if n == 0 then f.cursor else from + n)
            && f'.skipped == f.skipped + if n == 0 then 0 else from - f.cursor
  {
    HandleAllMoves(f, history, from, n);
    HandleAllIsOk(f, history, from, n);
  }

  // ---- Every interleaving with the master ----

  // `page` is what is left of the last page; its first event is history[from].
  datatype System = System(history: seq<Event>, items: seq<Event>, maxLength: nat,
                           follower: Follower, page: seq<Event>, ghost from: nat)

  datatype Step =
    | Append(payload: nat)
    | Load        // the cursor is taken again, as in init and reloadData
    | FetchPage
    | HandleNext  // also when the handler throws: the cursor moves all the same
    | LeavePage   // a shutdown

  ghost function Exec(y: System, step: Step): System {
    match step
    case Append(payload) =>
      var ev := Event(|y.history| + 1, payload);
      y.(history := y.history + [ev], items := Kept(y.items, y.maxLength) + [ev])
    case Load => y.(follower := Loaded(y.history), page := [])
    case FetchPage =>
      if y.page != [] || |y.history| < |y.items| then y
      else y.(page := Page(y.items, y.follower.cursor + 1, PAGE_LENGTH),
              from := PageStart(y.history, y.items, y.follower.cursor))
    case HandleNext =>
      if y.page == [] then y
      else y.(follower := Handle(y.follower, y.page[0]), page := y.page[1..], from := y.from + 1)
    case LeavePage => y.(page := [])
  }

  ghost function Run(y: System, steps: seq<Step>): System {
    if |steps| == 0 then y else Exec(Run(y, steps[..|steps| - 1]), steps[|steps| - 1])
  }

  ghost function Initial(maxLength: nat): System {
    System([], [], maxLength, Follower(0, 0, [], 0), [], 0)
  }

  ghost predicate Invariant(y: System) {
    && Numbered(y.history) && IsEndOf(y.items, y.history) && FollowerOk(y.follower, y.history)
    && (y.page != [] ==> y.follower.cursor <= y.from && RunOf(y.history, y.from, y.page))
  }

  lemma AppendKeepsInvariant(y: System, payload: nat)
    requires Invariant(y)
    ensures Invariant(Exec(y, Append(payload)))
  {
    var ev := Event(|y.history| + 1, payload);
    LongerHistory(y.follower, y.history, y.history + [ev]);
    EndGrows(y.items, y.history, y.maxLength, ev);
  }

  lemma StepKeepsInvariant(y: System, step: Step)
    requires Invariant(y)
    ensures Invariant(Exec(y, step))
  {
    match step
    case Append(payload) => AppendKeepsInvariant(y, payload);
    case Load =>
    case FetchPage => PageIsRun(y.history, y.items, y.follower.cursor, PAGE_LENGTH);
    case HandleNext =>
      if y.page != [] {
        HandleKeepsFollower(y.follower, y.history, y.from);
      }
    case LeavePage =>
  }

  lemma {:induction false} RunKeepsInvariant(maxLength: nat, steps: seq<Step>)
    ensures Invariant(Run(Initial(maxLength), steps))
  {
    if |steps| > 0 {
      RunKeepsInvariant(maxLength, steps[..|steps| - 1]);
      StepKeepsInvariant(Run(Initial(maxLength), steps[..|steps| - 1]), steps[|steps| - 1]);
    }
  }

  // In every interleaving the list holds the newest events of the log, one more than its limit
  // as soon as there have been that many.
  lemma {:induction false} ListHoldsNewest(maxLength: nat, steps: seq<Step>)
    ensures var y := Run(Initial(maxLength), steps);
            var length := if |y.history| <= maxLength then |y.history| else maxLength + 1;
            y.maxLength == maxLength && |y.items| == length && y.items == y.history[|y.history| - length..]
  {
    RunKeepsInvariant(maxLength, steps);
    if |steps| > 0 {
      ListHoldsNewest(maxLength, steps[..|steps| - 1]);
    }
  }

  // Taking the cursor starts afresh behind the last event.
  lemma LoadStartsAfresh(y: System)
    ensures var f := Exec(y, Load).follower;
            f.base == f.cursor == |y.history| && f.handled == [] && Exec(y, Load).page == []
  {
  }

  // In every interleaving the handled events are events of the master after the last load, in
  // the master's order.
  lemma EveryRunIsInOrder(maxLength: nat, steps: seq<Step>)
    ensures var y := Run(Initial(maxLength), steps); InOrder(y.follower, y.history)
  {
    RunKeepsInvariant(maxLength, steps);
  }

  // ---- When every event is handled ----

  // The next event does not follow the last handled one: what the cache can see of a gap.
  ghost predicate HandlesGap(y: System, step: Step) {
    step.HandleNext? && y.page != [] && y.page[0].id != y.follower.cursor + 1
  }

  // Step n handles an event behind a gap, and no load follows that starts afresh.
  ghost predicate LosesEvents(maxLength: nat, steps: seq<Step>, n: nat)
    requires n < |steps|
  {
    && HandlesGap(Run(Initial(maxLength), steps[..n]), steps[n])
    && forall k :: n < k < |steps| ==> !steps[k].Load?
  }

  ghost predicate NothingLost(maxLength: nat, steps: seq<Step>) {
    forall n :: 0 <= n < |steps| ==> !LosesEvents(maxLength, steps, n)
  }

  lemma StepSkipsAtGap(y: System, step: Step)
    requires Invariant(y)
    ensures Exec(y, step).follower.skipped == 0 <==>
              step.Load? || (y.follower.skipped == 0 && !HandlesGap(y, step))
  {
    if step.HandleNext? && y.page != [] {
      assert y.page[0] == y.history[y.from];
    }
  }

  lemma NothingLostNext(maxLength: nat, steps: seq<Step>)
    requires |steps| > 0
    ensures var front, last := steps[..|steps| - 1], steps[|steps| - 1];
            NothingLost(maxLength, steps) <==>
              last.Load? || (NothingLost(maxLength, front) && !HandlesGap(Run(Initial(maxLength), front), last))
  {
    var t := |steps| - 1;
    var front := steps[..t];
    forall n | 0 <= n < t
      ensures LosesEvents(maxLength, steps, n) <==> LosesEvents(maxLength, front, n) && !steps[t].Load?
    {
      assert front[..n] == steps[..n];
      if LosesEvents(maxLength, front, n) && !steps[t].Load? {
        forall k | n < k < |steps| ensures !steps[k].Load? {
          assert k < t ==> front[k] == steps[k];
        }
      }
      if LosesEvents(maxLength, steps, n) {
        forall k | n < k < t ensures !front[k].Load? {
          assert front[k] == steps[k];
        }
      }
    }
    assert LosesEvents(maxLength, steps, t) <==> HandlesGap(Run(Initial(maxLength), front), steps[t]);
  }

  lemma {:induction false} SkippedIffLost(maxLength: nat, steps: seq<Step>)
    ensures Run(Initial(maxLength), steps).follower.skipped == 0 <==> NothingLost(maxLength, steps)
  {
    if |steps| > 0 {
      var front := steps[..|steps| - 1];
      SkippedIffLost(maxLength, front);
      RunKeepsInvariant(maxLength, front);
      StepSkipsAtGap(Run(Initial(maxLength), front), steps[|front|]);
      NothingLostNext(maxLength, steps);
    }
  }

  // Exactly the master's events between the last load and the cursor have been handled, each
  // once, if and only if since that load no event was handled behind a gap.
  lemma ExactIffNothingLost(maxLength: nat, steps: seq<Step>)
    ensures var y := Run(Initial(maxLength), steps);
            Exact(y.follower, y.history) <==> NothingLost(maxLength, steps)
  {
    RunKeepsInvariant(maxLength, steps);
    SkippedIffLost(maxLength, steps);
    var y := Run(Initial(maxLength), steps);
    ExactIffNothingSkipped(y.follower, y.history);
  }

  // A page starts with a gap if and only if it is fetched after the master has dropped an event
  // the cursor has not reached; handling its first event jumps over exactly the dropped ones.
  lemma LateFetchSkips(y: System)
    requires Invariant(y) && y.page == [] && Exec(y, FetchPage).page != []
    ensures HandlesGap(Exec(y, FetchPage), HandleNext) <==> !Retained(y.history, y.items, y.follower.cursor)
    ensures !Retained(y.history, y.items, y.follower.cursor) ==>
              Exec(Exec(y, FetchPage), HandleNext).follower.skipped
              == y.follower.skipped + |y.history| - |y.items| - y.follower.cursor
  {
    PageIsRun(y.history, y.items, y.follower.cursor, PAGE_LENGTH);
    var z := Exec(y, FetchPage);
    assert z.page[0] == y.history[z.from];
  }

  // Every page is fetched before the master drops an event the cursor has not reached.
  ghost predicate FetchesInTime(maxLength: nat, steps: seq<Step>) {
    forall n :: 0 <= n < |steps| && steps[n].FetchPage? ==>
      var y := Run(Initial(maxLength), steps[..n]);
      Retained(y.history, y.items, y.follower.cursor)
  }

  ghost predicate NoHole(y: System) {
    y.follower.skipped == 0 && (y.page != [] ==> y.from == y.follower.cursor)
  }

  lemma StepLeavesNoHole(y: System, step: Step)
    requires Invariant(y) && NoHole(y)
    requires step.FetchPage? ==> Retained(y.history, y.items, y.follower.cursor)
    ensures NoHole(Exec(y, step))
  {
  }

  lemma {:induction false} TimelyRunLeavesNoHole(maxLength: nat, steps: seq<Step>)
    requires FetchesInTime(maxLength, steps)
    ensures NoHole(Run(Initial(maxLength), steps))
  {
    if |steps| > 0 {
      var front := steps[..|steps| - 1];
      FrontFetchesInTime(maxLength, steps);
      TimelyRunLeavesNoHole(maxLength, front);
      RunKeepsInvariant(maxLength, front);
      StepLeavesNoHole(Run(Initial(maxLength), front), steps[|front|]);
    }
  }

  lemma FrontFetchesInTime(maxLength: nat, steps: seq<Step>)
    requires FetchesInTime(maxLength, steps) && |steps| > 0
    ensures FetchesInTime(maxLength, steps[..|steps| - 1])
  {
    var front := steps[..|steps| - 1];
    forall n | 0 <= n < |front| && front[n].FetchPage?
      ensures var y := Run(Initial(maxLength), front[..n]); Retained(y.history, y.items, y.follower.cursor)
    {
      assert front[..n] == steps[..n] && steps[n].FetchPage?;
    }
  }

  // A cache that always fetches in time handles every event after its load exactly once.
  lemma TimelyRunIsExact(maxLength: nat, steps: seq<Step>)
    requires FetchesInTime(maxLength, steps)
    ensures var y := Run(Initial(maxLength), steps); Exact(y.follower, y.history)
  {
    TimelyRunLeavesNoHole(maxLength, steps);
    RunKeepsInvariant(maxLength, steps);
    var y := Run(Initial(maxLength), steps);
    ExactIffNothingSkipped(y.follower, y.history);
  }

  // ---- The loop of the cache ----

  // What happens at the master before it answers each of the next calls, and whether it
  // answers. After the last turn nothing else happens there, and it answers.
  datatype Script = Quiet | Turn(payloads: seq<nat>, reachable: bool, next: Script)
  {
    function Rest(): Script {
      if Turn? then next else Quiet
    }

    function Turns(): nat {
      if Turn? then 1 + next.Turns() else 0
    }

    function Total(): nat {
      if Turn? then |payloads| + next.Total() else 0
    }

    predicate Reachable() {
      Turn? ==> reachable && next.Reachable()
    }
  }

  // What asking for the last event of the master leads to.
  datatype Answer = NoAnswer | Reloaded | CaughtUp | Behind

  class EventCache {
    const mEventInfoList: EventInfoList
    var mLastProcessedEventId: nat
    var mContentStorageStartTime: nat
    var mContentUpdateRequired: bool
    var mReloadActivated: bool
    var mShutdownRequested: bool
    ghost var follower: Follower

    ghost predicate Valid(storage: ContentStorage)
      reads this, mEventInfoList, storage, storage.mEventInfoList
    {
      && storage.Valid() && storage.mEventInfoList != mEventInfoList
      && FollowerOk(follower, storage.history)
      && Recorded()
    }

    ghost predicate Recorded()
      reads this, mEventInfoList
    {
      follower.cursor == mLastProcessedEventId && IsEndOf(mEventInfoList.mItems, follower.handled)
    }

    // The master's list has room for what comes, and still has all the cache has not seen.
    ghost predicate Roomy(storage: ContentStorage, script: Script)
      reads this, storage, storage.mEventInfoList
    {
      && |storage.mEventInfoList.mItems| + script.Total() <= storage.mEventInfoList.mMaxLength + 1
      && Retained(storage.history, storage.mEventInfoList.mItems, mLastProcessedEventId)
    }

    // The master has been started again since the cache last heard its start time.
    ghost predicate RestartPending(storage: ContentStorage)
      reads this
    {
      0 < mContentStorageStartTime < storage.mStartTime
    }

    constructor (storage: ContentStorage, maxLength: nat)
      requires storage.Valid()
      ensures Valid(storage) && follower == Loaded(storage.history) && fresh(mEventInfoList)
      ensures mLastProcessedEventId == |storage.history|
    {
      mEventInfoList := new EventInfoList(maxLength);
      var last := storage.GetLastEventInfo();
      mLastProcessedEventId := if last.Some? then last.value.id else 0;
      mContentStorageStartTime := storage.mStartTime;
      mContentUpdateRequired, mReloadActivated, mShutdownRequested := false, false, false;
      follower := Loaded(storage.history);
    }

    // A call to the master, before which others may have added events there.
    method Ask(storage: ContentStorage, script: Script) returns (rest: Script, reachable: bool)
      requires storage.Valid() && storage.mEventInfoList != mEventInfoList
      modifies storage, storage.mEventInfoList`mItems
      ensures storage.Valid() && old(storage.history) <= storage.history
      ensures old(Valid(storage)) ==> Valid(storage)
      ensures script.Quiet? ==> reachable && storage.history == old(storage.history)
      ensures rest == script.Rest() && (script.Turn? ==> reachable == script.reachable)
      ensures old(Valid(storage) && Roomy(storage, script)) ==> Roomy(storage, rest)
    {
      if script.Quiet? {
        return Quiet, true;
      }
      ghost var before := storage.history;
      storage.Receive(script.payloads);
      LongerHistory(follower, before, storage.history);
      return script.next, script.reachable;
    }

    // The event has been handled, or its handler has failed.
    method Record(it: Event)
      requires Recorded()
      modifies this`mLastProcessedEventId, this`follower, mEventInfoList`mItems
      ensures Recorded() && follower == Handle(old(follower), it)
    {
      EndGrows(mEventInfoList.mItems, follower.handled, mEventInfoList.mMaxLength, it);
      mEventInfoList.AddEventInfo(it);
      mLastProcessedEventId := it.id;
      follower := Handle(follower, it);
    }

    // Handles the events of a page in order. `throws` tells whose handler fails, and
    // `shutdownAt` by which event a shutdown has been requested.
    method ProcessEventInfoList(ghost history: seq<Event>, ghost from: nat, page: seq<Event>,
                                throws: nat -> bool, shutdownAt: nat -> bool)
      returns (ok: bool, ghost n: nat)
      requires Recorded() && RunOf(history, from, page)
      modifies this`mLastProcessedEventId, this`follower, this`mShutdownRequested, mEventInfoList`mItems
      ensures Recorded() && n <= |page| && follower == HandleAll(old(follower), history, from, n)
      ensures if ok then n == |page| else mShutdownRequested
      ensures page != [] ==> n > 0
    {
      n := 0;
      var t, ecnt := 0, 0;
      while t < |page|
        invariant n == t <= |page| && Recorded()
        invariant follower == HandleAll(old(follower), history, from, t)
      {
        var it := page[t];
        if !throws(it.id) {
          ecnt := ecnt + 1;
        }
        Record(it);
        t, n := t + 1, n + 1;
        mShutdownRequested := mShutdownRequested || shutdownAt(it.id);
        if mShutdownRequested {
          return false, n;
        }
      }
      return true, n;
    }

    // The next page of the master's list, and its events. A master without events has none.
    method ProcessPage(storage: ContentStorage, throws: nat -> bool, shutdownAt: nat -> bool)
      returns (ok: bool, len: nat)
      requires Valid(storage)
      modifies this`mLastProcessedEventId, this`follower, this`mShutdownRequested, mEventInfoList`mItems
      ensures Valid(storage) && (!ok ==> mShutdownRequested || !storage.mEventsEnabled)
      ensures follower.base == old(follower.base) && old(follower.handled) <= follower.handled
      ensures old(mLastProcessedEventId) <= mLastProcessedEventId
      ensures ok && old(mLastProcessedEventId) < |storage.history| ==>
                len > 0 && old(mLastProcessedEventId) < mLastProcessedEventId
      ensures old(Retained(storage.history, storage.mEventInfoList.mItems, mLastProcessedEventId)) ==>
                follower.skipped == old(follower.skipped)
    {
      if !storage.mEventsEnabled {
        return false, 0;
      }
      ghost var history, items, cursor := storage.history, storage.mEventInfoList.mItems, mLastProcessedEventId;
      ghost var from := PageStart(history, items, cursor);
      PageIsRun(history, items, cursor, PAGE_LENGTH);
      EndIsNumbered(history, items);
      var list := storage.mEventInfoList.GetEventInfoList(mLastProcessedEventId + 1, PAGE_LENGTH);
      len := |list|;
      ghost var n;
      ok, n := ProcessEventInfoList(history, from, list, throws, shutdownAt);
      HandleAllKeepsFollower(old(follower), history, from, n);
    }

    method ProcessNextEvents(storage: ContentStorage, script: Script, throws: nat -> bool, shutdownAt: nat -> bool)
      returns (ok: bool, len: nat, rest: Script)
      requires Valid(storage)
      modifies this`mLastProcessedEventId, this`follower, this`mShutdownRequested, mEventInfoList`mItems
      modifies storage, storage.mEventInfoList`mItems
      ensures Valid(storage) && old(storage.history) <= storage.history
      ensures rest == script.Rest()
      ensures follower.base == old(follower.base) && old(follower.handled) <= follower.handled
      ensures script.Quiet? ==> storage.history == old(storage.history)
      ensures script.Reachable() ==> rest.Reachable() && (ok || mShutdownRequested || !storage.mEventsEnabled)
      ensures ok && old(mLastProcessedEventId) < |old(storage.history)| ==>
                len > 0 && old(mLastProcessedEventId) < mLastProcessedEventId
      ensures old(Roomy(storage, script)) ==> Roomy(storage, rest) && follower.skipped == old(follower.skipped)
    {
      var reachable;
      rest, reachable := Ask(storage, script);
      if !reachable {
        return false, 0, rest;
      }
      ok, len := ProcessPage(storage, throws, shutdownAt);
    }

    method ReloadAfterRestart(storage: ContentStorage) returns (reloaded: bool)
      requires storage.Valid() && storage.mEventInfoList != mEventInfoList
      modifies this, mEventInfoList`mItems
      ensures reloaded <==> old(RestartPending(storage))
      ensures reloaded ==>
                && Valid(storage) && follower == Loaded(storage.history) && mEventInfoList.mItems == []
                && mContentUpdateRequired && !RestartPending(storage) && mLastProcessedEventId == |storage.history|
      ensures !reloaded ==> unchanged(this) && unchanged(mEventInfoList)
      ensures mShutdownRequested == old(mShutdownRequested)
    {
      if mContentStorageStartTime > 0 && mContentStorageStartTime < storage.mStartTime {
        mEventInfoList.mItems := [];
        var last := storage.GetLastEventInfo();
        mLastProcessedEventId := if last.Some? then last.value.id else 0;
        follower := Loaded(storage.history);
        mReloadActivated := false;
        mContentUpdateRequired := true;
        mContentStorageStartTime := storage.mStartTime;
        return true;
      }
      return false;
    }

    // What the master's last event leads to: a reload, or whether events are left to fetch.
    method Compare(storage: ContentStorage, eventThread: bool) returns (answer: Answer)
      requires storage.Valid() && storage.mEventInfoList != mEventInfoList
      requires (eventThread && RestartPending(storage)) || Valid(storage)
      modifies this, mEventInfoList`mItems
      ensures !answer.NoAnswer? && Valid(storage) && !(eventThread && RestartPending(storage))
      ensures answer.Reloaded? <==> eventThread && old(RestartPending(storage))
      ensures answer.Reloaded? ==> follower == Loaded(storage.history) && mEventInfoList.mItems == []
      ensures !answer.Reloaded? ==> follower == old(follower) && mLastProcessedEventId == old(mLastProcessedEventId)
      ensures answer.CaughtUp? ==> mLastProcessedEventId == |storage.history|
      ensures answer.Behind? ==> mLastProcessedEventId < |storage.history|
      ensures mShutdownRequested == old(mShutdownRequested)
    {
      var last := storage.GetLastEventInfo();
      if eventThread {
        var reloaded := ReloadAfterRestart(storage);
        if reloaded {
          return Reloaded;
        }
      }
      if last.None? {
        return CaughtUp;
      }
      if eventThread && mContentStorageStartTime == 0 {
        mContentStorageStartTime := storage.mStartTime;
      }
      answer := if last.value.id <= mLastProcessedEventId then CaughtUp else Behind;
    }

    // Asks for the master's last event, if the master answers.
    method Poll(storage: ContentStorage, eventThread: bool, script: Script)
      returns (answer: Answer, rest: Script)
      requires storage.Valid() && storage.mEventInfoList != mEventInfoList
      requires (eventThread && RestartPending(storage)) || Valid(storage)
      modifies this, mEventInfoList`mItems, storage, storage.mEventInfoList`mItems
      ensures storage.Valid() && old(storage.history) <= storage.history
      ensures rest == script.Rest()
      ensures script.Reachable() ==> rest.Reachable() && !answer.NoAnswer?
      ensures script.Quiet? ==> storage.history == old(storage.history)
      ensures answer.Reloaded? <==> eventThread && old(RestartPending(storage)) && !answer.NoAnswer?
      ensures answer.Reloaded? ==> follower == Loaded(storage.history) && mEventInfoList.mItems == []
      ensures !answer.Reloaded? ==> follower == old(follower) && mLastProcessedEventId == old(mLastProcessedEventId)
      ensures old(Valid(storage)) ==> Valid(storage)
      ensures !answer.NoAnswer? ==> !(eventThread && RestartPending(storage)) && Valid(storage)
      ensures answer.CaughtUp? ==> mLastProcessedEventId == |storage.history|
      ensures answer.Behind? ==> mLastProcessedEventId < |storage.history|
      ensures mShutdownRequested == old(mShutdownRequested)
      ensures !answer.Reloaded? && old(Valid(storage) && Roomy(storage, script)) ==> Roomy(storage, rest)
    {
      var reachable;
      rest, reachable := Ask(storage, script);
      answer := NoAnswer;
      if reachable {
        answer := Compare(storage, eventThread);
      }
    }

    // One turn of the loop: whether it ended in a reload, whether to go on, and how many events
    // were fetched.
    method ProcessMore(storage: ContentStorage, eventThread: bool, script: Script,
                       throws: nat -> bool, shutdownAt: nat -> bool)
      returns (reloaded: bool, ok: bool, len: nat, rest: Script)
      requires storage.Valid() && storage.mEventInfoList != mEventInfoList
      requires (eventThread && RestartPending(storage)) || Valid(storage)
      modifies this, mEventInfoList`mItems, storage, storage.mEventInfoList`mItems
      ensures storage.Valid() && old(storage.history) <= storage.history
      ensures reloaded ==> !ok && eventThread && old(RestartPending(storage)) && follower == Loaded(storage.history)
      ensures reloaded ==> mEventInfoList.mItems == []
      ensures reloaded || ok || old(Valid(storage)) ==> Valid(storage)
      ensures ok ==> !(eventThread && old(RestartPending(storage))) && !(eventThread && RestartPending(storage))
      ensures rest.Turns() <= script.Turns() && (script.Reachable() ==> rest.Reachable())
      ensures !reloaded ==> follower.base == old(follower.base) && old(follower.handled) <= follower.handled
      ensures !reloaded && old(Valid(storage) && Roomy(storage, script)) ==>
                Roomy(storage, rest) && follower.skipped == old(follower.skipped)
      ensures script.Reachable() && !ok ==> reloaded || mShutdownRequested
      ensures ok && len == 0 ==> mLastProcessedEventId == |storage.history|
      ensures ok && len > 0 && rest.Turns() == script.Turns() ==>
                storage.history == old(storage.history) && old(mLastProcessedEventId) < mLastProcessedEventId
    {
      reloaded, ok, len, rest := false, false, 0, script;
      if mShutdownRequested {
        return;
      }
      var answer;
      answer, rest := Poll(storage, eventThread, script);
      match answer
      case NoAnswer =>
      case Reloaded => reloaded := true;
      case CaughtUp => ok := true;
      case Behind => ok, len, rest := ProcessNextEvents(storage, rest, throws, shutdownAt);
    }

    // Fetches and handles events until the master has no more. Once nothing else happens at the
    // master and it answers, this ends with the cursor at the master's last event.
    method ProcessEvents(storage: ContentStorage, eventThread: bool, script: Script,
                         throws: nat -> bool, shutdownAt: nat -> bool)
      returns (ghost reloaded: bool)
      requires storage.Valid() && storage.mEventInfoList != mEventInfoList
      requires (eventThread && RestartPending(storage)) || Valid(storage)
      modifies this, mEventInfoList`mItems, storage, storage.mEventInfoList`mItems
      ensures storage.Valid() && old(storage.history) <= storage.history
      ensures reloaded ==> eventThread && old(RestartPending(storage))
      ensures reloaded ==> Valid(storage) && follower == Loaded(storage.history) && mEventInfoList.mItems == []
      ensures old(Valid(storage)) ==> Valid(storage)
      ensures !reloaded ==> follower.base == old(follower.base) && old(follower.handled) <= follower.handled
      ensures !reloaded && old(Valid(storage) && Roomy(storage, script)) ==> follower.skipped == old(follower.skipped)
      ensures script.Reachable() && !mShutdownRequested && (eventThread || !old(mReloadActivated)) ==>
                && mLastProcessedEventId == |storage.history|
                && (reloaded <==> eventThread && old(RestartPending(storage)))
    {
      reloaded := false;
      if !eventThread && mReloadActivated {
        return;
      }
      var rest := script;
      var len: nat := 1000;
      ghost var history, f, pending := storage.history, follower, eventThread && RestartPending(storage);
      ghost var valid := Valid(storage);
      ghost var roomy := valid && Roomy(storage, script);
      while len > 0
        invariant storage.Valid() && storage.mEventInfoList != mEventInfoList && history <= storage.history
        invariant pending == (eventThread && RestartPending(storage))
        invariant valid || !pending ==> Valid(storage)
        invariant follower.base == f.base && f.handled <= follower.handled
        invariant script.Reachable() ==> rest.Reachable()
        invariant roomy ==> Roomy(storage, rest) && follower.skipped == f.skipped
        invariant len == 0 ==> mLastProcessedEventId == |storage.history| && !pending
        decreases rest.Turns(), |storage.history| - mLastProcessedEventId, len
      {
        var reload, ok;
        reload, ok, len, rest := ProcessMore(storage, eventThread, rest, throws, shutdownAt);
        if !ok {
          reloaded := reload;
          return;
        }
      }
    }
  }

  // A fetched page holds up to 10000 of the events the list still has behind the cursor.
  lemma FetchedPageLength(y: System)
    requires y.page == [] && |y.items| <= |y.history|
    ensures var all, page := From(y.items, y.follower.cursor + 1), Exec(y, FetchPage).page;
            page <= all && |page| == if |all| < 10000 then |all| else 10000
    ensures Exec(y, FetchPage).follower == y.follower
  {
  }
}
