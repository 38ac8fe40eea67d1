// Publishing a new search structure, which waits a bounded time for files that are still on
// their way to the local cache.
module SwapDelays {
  import opened Wrappers

  // Seconds between two attempts while the swap waits.
  const WAIT_TIME: nat := 20

  // The hashes of the five lists.
  datatype Hashes = Hashes(producers: nat, generations: nat, geometries: nat, files: nat, contents: nat)

  // When a shutdown is requested: by the time of the call, or by the time it is noticed while
  // the new structure is built. A request that comes later counts for the next call.
  datatype Request = NoRequest | BeforeCall | WhileBuilding

  // One call of updateContent for which the update interval has passed: the lists with their
  // hashes, the hashes of the structure built from them, whether a file they need is missing
  // from the local cache, and whether a shutdown is requested.
  datatype Attempt = Attempt(lists: nat, hashes: Hashes, built: Hashes, fileMissing: bool, shutdown: Request)

  datatype Outcome = Refused | Unchanged | Delayed | Interrupted | Published

  datatype Limits = Limits(maxFirstWaitTime: nat, maxWaitTime: nat)

  datatype State = State(totalWaitTime: nat, swapCounter: nat, ssHashes: Hashes, slots: seq<Option<nat>>,
                         active: nat, shutdownRequested: bool)
  {
    predicate Valid() {
      |slots| == 2 && active < 2
    }

    function Active(): Option<nat>
      requires Valid()
    {
      slots[active]
    }
  }

  const NO_HASHES: Hashes := Hashes(0, 0, 0, 0, 0)

  const INITIAL: State := State(0, 0, NO_HASHES, [None, None], 0, false)

  // The first swap has a limit of its own.
  function Limit(limits: Limits, s: State): nat {
    if s.swapCounter == 0 then limits.maxFirstWaitTime else limits.maxWaitTime
  }

  // A requested shutdown is never taken back, and no call gets past it.
  function Update(limits: Limits, s: State, a: Attempt): (r: (State, Outcome))
    requires s.Valid()
    ensures r.0.Valid()
  {
    if s.shutdownRequested || a.shutdown.BeforeCall? then
      (s.(shutdownRequested := true), Refused)
    else
      Swap(limits, s.(shutdownRequested := a.shutdown.WhileBuilding?), a)
  }

  function Swap(limits: Limits, s: State, a: Attempt): (r: (State, Outcome))
    requires s.Valid()
    ensures r.0.Valid()
  {
    if s.Active().Some? && s.totalWaitTime == 0 && s.ssHashes == a.hashes then
      (s, Unchanged)
    else if s.totalWaitTime < Limit(limits, s) && a.fileMissing then
      (s.(totalWaitTime := s.totalWaitTime + WAIT_TIME), Delayed)
    else if s.shutdownRequested then
      (s.(totalWaitTime := 0), Interrupted)
    else
      var inactive := if s.active == 0 then 1 else 0;
      (State(0, s.swapCounter + 1, a.built, s.slots[inactive := Some(a.lists)], inactive, false), Published)
  }

  class SearchStructures {
    const mCachedFiles_maxFirstWaitTime: nat
    const mCachedFiles_maxWaitTime: nat
    var mCachedFiles_totalWaitTime: nat
    var mContentSwapCounter: nat
    var mSsProducerHash: nat
    var mSsGenerationHash: nat
    var mSsGeometryHash: nat
    var mSsFileHash: nat
    var mSsContentHash: nat
    const mSearchStructurePtr: array<Option<nat>>
    var mActiveSearchStructure: nat
    var mShutdownRequested: bool

    ghost predicate Valid()
      reads this
    {
      mSearchStructurePtr.Length == 2 && mActiveSearchStructure < 2
    }

    ghost function Abstract(): State
      reads this, mSearchStructurePtr
    {
      State(mCachedFiles_totalWaitTime, mContentSwapCounter,
            Hashes(mSsProducerHash, mSsGenerationHash, mSsGeometryHash, mSsFileHash, mSsContentHash),
            mSearchStructurePtr[..], mActiveSearchStructure, mShutdownRequested)
    }

    ghost function GetLimits(): Limits {
      Limits(mCachedFiles_maxFirstWaitTime, mCachedFiles_maxWaitTime)
    }

    constructor (limits: Limits)
      ensures Valid() && Abstract() == INITIAL && GetLimits() == limits && fresh(mSearchStructurePtr)
    {
      mCachedFiles_maxFirstWaitTime, mCachedFiles_maxWaitTime := limits.maxFirstWaitTime, limits.maxWaitTime;
      mCachedFiles_totalWaitTime, mContentSwapCounter := 0, 0;
      mSsProducerHash, mSsGenerationHash, mSsGeometryHash, mSsFileHash, mSsContentHash := 0, 0, 0, 0, 0;
      mSearchStructurePtr := new Option<nat>[2](_ => None);
      mActiveSearchStructure := 0;
      mShutdownRequested := false;
      new;
      assert mSearchStructurePtr[..] == [None, None];
    }

    method IsCachedFileWaitAllowed() returns (allowed: bool)
      requires Valid()
      ensures allowed <==> mCachedFiles_totalWaitTime < Limit(GetLimits(), Abstract())
    {
      allowed :=
        || (mContentSwapCounter == 0 && mCachedFiles_maxFirstWaitTime > 0
            && mCachedFiles_totalWaitTime < mCachedFiles_maxFirstWaitTime)
        || (mContentSwapCounter > 0 && mCachedFiles_maxWaitTime > 0
            && mCachedFiles_totalWaitTime < mCachedFiles_maxWaitTime);
    }

    method IsSearchStructureCurrent(hashes: Hashes) returns (current: bool)
      ensures current <==> Abstract().totalWaitTime == 0 && Abstract().ssHashes == hashes
    {
      current :=
        && mCachedFiles_totalWaitTime == 0
        && mSsProducerHash == hashes.producers
        && mSsGenerationHash == hashes.generations
        && mSsGeometryHash == hashes.geometries
        && mSsFileHash == hashes.files
        && mSsContentHash == hashes.contents;
    }

    method UpdateContent(a: Attempt) returns (outcome: Outcome)
      requires Valid()
      modifies this, mSearchStructurePtr
      ensures Valid() && (Abstract(), outcome) == Update(GetLimits(), old(Abstract()), a)
    {
      if a.shutdown.BeforeCall? {
        mShutdownRequested := true;
      }
      if mShutdownRequested {
        return Refused;
      }
      mShutdownRequested := a.shutdown.WhileBuilding?;
      outcome := SwapSearchStructure(a);
    }

    // The two loops that build the new structure stop at a requested shutdown.
    method SwapSearchStructure(a: Attempt) returns (outcome: Outcome)
      requires Valid()
      modifies this, mSearchStructurePtr
      ensures Valid() && (Abstract(), outcome) == Swap(GetLimits(), old(Abstract()), a)
    {
      var ssp := mSearchStructurePtr[mActiveSearchStructure];
      var current := IsSearchStructureCurrent(a.hashes);
      if ssp.Some? && current {
        return Unchanged;
      }
      var allowed := IsCachedFileWaitAllowed();
      if allowed && a.fileMissing {
        mCachedFiles_totalWaitTime := mCachedFiles_totalWaitTime + WAIT_TIME;
        return Delayed;
      }
      mCachedFiles_totalWaitTime := 0;
      if mShutdownRequested {
        return Interrupted;
      }
      mSsProducerHash := a.built.producers;
      mSsGenerationHash := a.built.generations;
      mSsGeometryHash := a.built.geometries;
      mSsFileHash := a.built.files;
      mSsContentHash := a.built.contents;
      var inactive := if mActiveSearchStructure == 0 then 1 else 0;
      mSearchStructurePtr[inactive] := Some(a.lists);
      mActiveSearchStructure := inactive;
      mContentSwapCounter := mContentSwapCounter + 1;
      return Published;
    }
  }

  // ---- Runs of attempts ----

  function Run(limits: Limits, attempts: seq<Attempt>, n: nat): (s: State)
    requires n <= |attempts|
    ensures s.Valid()
  {
    if n == 0 then INITIAL else Update(limits, Run(limits, attempts, n - 1), attempts[n - 1]).0
  }

  function OutcomeOf(limits: Limits, attempts: seq<Attempt>, n: nat): Outcome
    requires n < |attempts|
  {
    Update(limits, Run(limits, attempts, n), attempts[n]).1
  }

  // No publication among the attempts from i up to j.
  predicate NothingPublished(limits: Limits, attempts: seq<Attempt>, i: nat, j: nat)
    requires i <= j <= |attempts|
  {
    forall n :: i <= n < j ==> OutcomeOf(limits, attempts, n) != Published
  }

  function Delays(limits: Limits, attempts: seq<Attempt>, i: nat, j: nat): nat
    requires i <= j <= |attempts|
  {
    if i == j then 0
    else Delays(limits, attempts, i, j - 1) + if OutcomeOf(limits, attempts, j - 1) == Delayed then 1 else 0
  }

  // The number of waits that fit into a limit, rounded up.
  function Waits(limit: nat): nat {
    (limit + WAIT_TIME - 1) / WAIT_TIME
  }

  lemma OneMoreWaitFits(limit: nat, waits: nat)
    ensures WAIT_TIME * waits < limit <==> waits < Waits(limit)
  {
  }

  lemma StepWaits(limits: Limits, s: State, a: Attempt)
    requires s.Valid()
    ensures var (s', outcome) := Update(limits, s, a);
            outcome != Published ==>
            && s'.swapCounter == s.swapCounter
            && (s'.shutdownRequested
                || s'.totalWaitTime == s.totalWaitTime + if outcome == Delayed then WAIT_TIME else 0)
            && (s.shutdownRequested ==> s'.shutdownRequested && outcome != Delayed)
  {
  }

  // Until a shutdown is requested, each delay adds one wait; the waits before it stay within
  // the limit in any case.
  lemma {:induction false} WaitTimeCountsDelays(limits: Limits, attempts: seq<Attempt>, i: nat, j: nat)
    requires i <= j <= |attempts| && NothingPublished(limits, attempts, i, j)
    ensures var a, b := Run(limits, attempts, i), Run(limits, attempts, j);
            var waited := a.totalWaitTime + WAIT_TIME * Delays(limits, attempts, i, j);
            && b.swapCounter == a.swapCounter
            && waited <= WAIT_TIME * Waits(Limit(limits, a))
            && (b.totalWaitTime == waited || b.shutdownRequested)
  {
    if i < j {
      WaitTimeCountsDelays(limits, attempts, i, j - 1);
      assert OutcomeOf(limits, attempts, j - 1) != Published;
      StepWaits(limits, Run(limits, attempts, j - 1), attempts[j - 1]);
    }
    WaitTimeFits(limits, attempts, j);
  }

  lemma WaitTimeFits(limits: Limits, attempts: seq<Attempt>, n: nat)
    requires n <= |attempts|
    ensures var s := Run(limits, attempts, n); s.totalWaitTime <= WAIT_TIME * Waits(Limit(limits, s))
  {
    WaitTimeIsBounded(limits, attempts, n);
  }

  lemma {:induction false} WaitTimeIsBounded(limits: Limits, attempts: seq<Attempt>, n: nat)
    requires n <= |attempts|
    ensures var s := Run(limits, attempts, n);
            exists waits: nat :: s.totalWaitTime == WAIT_TIME * waits && waits <= Waits(Limit(limits, s))
  {
    if n == 0 {
      assert Run(limits, attempts, 0).totalWaitTime == WAIT_TIME * 0;
    } else {
      WaitTimeIsBounded(limits, attempts, n - 1);
      var s, s' := Run(limits, attempts, n - 1), Run(limits, attempts, n);
      var waits: nat :| s.totalWaitTime == WAIT_TIME * waits && waits <= Waits(Limit(limits, s));
      if OutcomeOf(limits, attempts, n - 1) == Delayed {
        OneMoreWaitFits(Limit(limits, s), waits);
        assert s'.totalWaitTime == WAIT_TIME * (waits + 1);
      } else if s'.totalWaitTime == 0 {
        assert s'.totalWaitTime == WAIT_TIME * 0;
      }
    }
  }

  // In every run, at most as many attempts are delayed before a publication as waits fit into
  // the limit, the first limit before the first publication.
  lemma DelaysAreBounded(limits: Limits, attempts: seq<Attempt>, i: nat, j: nat)
    requires i <= j <= |attempts| && NothingPublished(limits, attempts, i, j)
    ensures Delays(limits, attempts, i, j) <= Waits(Limit(limits, Run(limits, attempts, i)))
  {
    WaitTimeCountsDelays(limits, attempts, i, j);
  }

  // In every run, once an attempt has been delayed, none is dismissed as unchanged before the
  // next publication.
  lemma DelayedIsNotForgotten(limits: Limits, attempts: seq<Attempt>, i: nat, j: nat)
    requires i < j < |attempts| && OutcomeOf(limits, attempts, i) == Delayed
    requires NothingPublished(limits, attempts, i, j)
    ensures OutcomeOf(limits, attempts, j) != Unchanged
  {
    WaitTimeCountsDelays(limits, attempts, i, j);
    DelaysInFront(limits, attempts, i, j);
  }

  lemma {:induction false} DelaysInFront(limits: Limits, attempts: seq<Attempt>, i: nat, j: nat)
    requires i < j <= |attempts| && OutcomeOf(limits, attempts, i) == Delayed
    ensures Delays(limits, attempts, i, j) > 0
  {
    if i + 1 < j {
      DelaysInFront(limits, attempts, i, j - 1);
    } else {
      assert Delays(limits, attempts, i, i) == 0;
    }
  }

  lemma {:induction false} AllDelayed(limits: Limits, attempts: seq<Attempt>, i: nat, j: nat)
    requires i <= j <= |attempts|
    requires forall n :: i <= n < j ==> OutcomeOf(limits, attempts, n) == Delayed
    ensures Delays(limits, attempts, i, j) == j - i
  {
    if i < j {
      AllDelayed(limits, attempts, i, j - 1);
    }
  }

  // The shutdown flag is up exactly after a request, and from then on every call is refused and
  // nothing changes any more.
  lemma {:induction false} ShutdownIsFinal(limits: Limits, attempts: seq<Attempt>, i: nat, j: nat)
    requires i <= j <= |attempts|
    ensures Run(limits, attempts, i).shutdownRequested
       <==> exists n :: 0 <= n < i && !attempts[n].shutdown.NoRequest?
    ensures Run(limits, attempts, i).shutdownRequested ==> Run(limits, attempts, j) == Run(limits, attempts, i)
    ensures Run(limits, attempts, i).shutdownRequested ==>
              forall n :: i <= n < j ==> OutcomeOf(limits, attempts, n) == Refused
    decreases j, i
  {
    if i < j {
      ShutdownIsFinal(limits, attempts, i, j - 1);
    } else if i > 0 {
      ShutdownIsFinal(limits, attempts, i - 1, i - 1);
    }
  }

  // Without a shutdown, one more attempt than waits fit into the limit brings a publication,
  // unless some attempt finds nothing to publish.
  lemma PublicationComes(limits: Limits, attempts: seq<Attempt>, i: nat, j: nat)
    requires i <= j <= |attempts| && j - i > Waits(Limit(limits, Run(limits, attempts, i)))
    requires forall n :: 0 <= n < j ==> attempts[n].shutdown.NoRequest?
    requires forall n :: i <= n < j ==> OutcomeOf(limits, attempts, n) != Unchanged
    ensures exists n :: i <= n < j && OutcomeOf(limits, attempts, n) == Published
  {
    if NothingPublished(limits, attempts, i, j) {
      forall n | i <= n < j ensures OutcomeOf(limits, attempts, n) == Delayed {
        ShutdownIsFinal(limits, attempts, n, n);
        assert attempts[n].shutdown.NoRequest?;
      }
      AllDelayed(limits, attempts, i, j);
      DelaysAreBounded(limits, attempts, i, j);
    }
  }

  // The bound is reached when a file never arrives: exactly that many attempts are delayed, and
  // the next one publishes without the file.
  lemma {:induction false} MissingFileDelaysExactly(limits: Limits, attempts: seq<Attempt>, k: nat)
    requires k <= Waits(limits.maxFirstWaitTime) < |attempts|
    requires forall n :: 0 <= n < |attempts| ==> attempts[n].fileMissing && attempts[n].shutdown.NoRequest?
    ensures Run(limits, attempts, k) == INITIAL.(totalWaitTime := WAIT_TIME * k)
    ensures OutcomeOf(limits, attempts, k) == if k < Waits(limits.maxFirstWaitTime) then Delayed else Published
  {
    if k > 0 {
      MissingFileDelaysExactly(limits, attempts, k - 1);
    }
    OneMoreWaitFits(limits.maxFirstWaitTime, k);
  }

  // ---- What readers see ----

  function LastPublished(limits: Limits, attempts: seq<Attempt>, n: nat): Option<nat>
    requires n <= |attempts|
  {
    if n == 0 then None
    else if OutcomeOf(limits, attempts, n - 1) == Published then Some(attempts[n - 1].lists)
    else LastPublished(limits, attempts, n - 1)
  }

  // The active structure is always the last published one, and publishing the next one leaves
  // it in place in the other slot.
  lemma {:induction false} ActiveIsLastPublished(limits: Limits, attempts: seq<Attempt>, n: nat)
    requires n <= |attempts|
    ensures Run(limits, attempts, n).Active() == LastPublished(limits, attempts, n)
    ensures n > 0 && OutcomeOf(limits, attempts, n - 1) == Published ==>
              var s := Run(limits, attempts, n); s.slots[1 - s.active] == LastPublished(limits, attempts, n - 1)
  {
    if n > 0 {
      ActiveIsLastPublished(limits, attempts, n - 1);
    }
  }

  // ---- Every outcome follows from the outcomes before ----

  // The last publication among the first n attempts.
  function LastPublication(limits: Limits, attempts: seq<Attempt>, n: nat): (last: Option<nat>)
    requires n <= |attempts|
    ensures last.Some? ==> last.value < n
  {
    if n == 0 then None
    else if OutcomeOf(limits, attempts, n - 1) == Published then Some(n - 1)
    else LastPublication(limits, attempts, n - 1)
  }

  lemma {:induction false} LastPublicationIsLast(limits: Limits, attempts: seq<Attempt>, n: nat, m: nat)
    requires m < n <= |attempts|
    ensures var last := LastPublication(limits, attempts, n);
            && (last == Some(m) ==> OutcomeOf(limits, attempts, m) == Published)
            && (last.None? || last.value < m ==> OutcomeOf(limits, attempts, m) != Published)
  {
    if m < n - 1 {
      LastPublicationIsLast(limits, attempts, n - 1, m);
    }
  }

  // The number of attempts delayed since then.
  function Pending(limits: Limits, attempts: seq<Attempt>, n: nat): nat
    requires n <= |attempts|
  {
    var last := LastPublication(limits, attempts, n);
    Delays(limits, attempts, if last.Some? then last.value + 1 else 0, n)
  }

  // What the state remembers of the attempts: the last one published, and how many have waited
  // since then.
  ghost predicate Remembers(s: State, published: Option<Attempt>, pending: nat) {
    && s.Valid() && !s.shutdownRequested && s.totalWaitTime == 20 * pending
    && (s.swapCounter > 0 <==> published.Some?) && (s.Active().Some? <==> published.Some?)
    && (published.Some? ==> s.ssHashes == published.value.built)
  }

  function OutcomeAfter(limits: Limits, published: Option<Attempt>, pending: nat, a: Attempt): Outcome {
    if a.shutdown.BeforeCall? then Refused
    else if published.Some? && pending == 0 && a.hashes == published.value.built then Unchanged
    else if a.fileMissing && 20 * pending < (if published.Some? then limits.maxWaitTime else limits.maxFirstWaitTime)
    then Delayed
    else if a.shutdown.WhileBuilding? then Interrupted
    else Published
  }

  lemma OutcomeRemembered(limits: Limits, s: State, a: Attempt, published: Option<Attempt>, pending: nat)
    requires Remembers(s, published, pending)
    ensures Update(limits, s, a).1 == OutcomeAfter(limits, published, pending, a)
  {
  }

  lemma StepRemembers(limits: Limits, s: State, a: Attempt, published: Option<Attempt>, pending: nat)
    requires Remembers(s, published, pending) && a.shutdown.NoRequest?
    ensures var (s', outcome) := Update(limits, s, a);
            Remembers(s', if outcome == Published then Some(a) else published,
                      if outcome == Published then 0 else pending + if outcome == Delayed then 1 else 0)
  {
  }

  function PublishedAttempt(limits: Limits, attempts: seq<Attempt>, n: nat): Option<Attempt>
    requires n <= |attempts|
  {
    var last := LastPublication(limits, attempts, n);
    if last.Some? then Some(attempts[last.value]) else None
  }

  lemma PendingNext(limits: Limits, attempts: seq<Attempt>, n: nat)
    requires n < |attempts|
    ensures var outcome := OutcomeOf(limits, attempts, n);
            && Pending(limits, attempts, n + 1)
               == (if outcome == Published then 0
                   else Pending(limits, attempts, n) + if outcome == Delayed then 1 else 0)
            && PublishedAttempt(limits, attempts, n + 1)
               == if outcome == Published then Some(attempts[n]) else PublishedAttempt(limits, attempts, n)
  {
  }

  lemma NextRemembers(limits: Limits, attempts: seq<Attempt>, n: nat, published: Option<Attempt>, pending: nat)
    requires n < |attempts| && attempts[n].shutdown.NoRequest?
    requires Remembers(Run(limits, attempts, n), published, pending)
    ensures var outcome := OutcomeOf(limits, attempts, n);
            Remembers(Run(limits, attempts, n + 1), if outcome == Published then Some(attempts[n]) else published,
                      if outcome == Published then 0 else pending + if outcome == Delayed then 1 else 0)
  {
    StepRemembers(limits, Run(limits, attempts, n), attempts[n], published, pending);
  }

  lemma {:induction false} StateFromHistory(limits: Limits, attempts: seq<Attempt>, n: nat)
    requires n <= |attempts| && forall k :: 0 <= k < n ==> attempts[k].shutdown.NoRequest?
    ensures Remembers(Run(limits, attempts, n), PublishedAttempt(limits, attempts, n), Pending(limits, attempts, n))
  {
    if n > 0 {
      StateFromHistory(limits, attempts, n - 1);
      PendingNext(limits, attempts, n - 1);
      NextRemembers(limits, attempts, n - 1, PublishedAttempt(limits, attempts, n - 1),
                    Pending(limits, attempts, n - 1));
    }
  }

  // Without a shutdown before it, what an attempt comes to is told by the attempts and outcomes
  // before it: it is dismissed if nothing is pending and its lists are those published last; it
  // waits for a missing file while the waits since then stay below the limit; and else it
  // publishes, unless a shutdown is requested meanwhile.
  lemma OutcomeFromHistory(limits: Limits, attempts: seq<Attempt>, n: nat)
    requires n < |attempts| && forall k :: 0 <= k < n ==> attempts[k].shutdown.NoRequest?
    ensures var a, last, pending := attempts[n], PublishedAttempt(limits, attempts, n), Pending(limits, attempts, n);
            && (OutcomeOf(limits, attempts, n) == Refused <==> a.shutdown.BeforeCall?)
            && (OutcomeOf(limits, attempts, n) == Unchanged <==>
                !a.shutdown.BeforeCall? && last.Some? && pending == 0 && a.hashes == last.value.built)
            && (OutcomeOf(limits, attempts, n) == Delayed <==>
                && !a.shutdown.BeforeCall? && a.fileMissing
                && !(last.Some? && pending == 0 && a.hashes == last.value.built)
                && 20 * pending < if last.Some? then limits.maxWaitTime else limits.maxFirstWaitTime)
            && (OutcomeOf(limits, attempts, n) == Interrupted ==> a.shutdown.WhileBuilding?)
            && (OutcomeOf(limits, attempts, n) == Published ==> a.shutdown.NoRequest?)
  {
    StateFromHistory(limits, attempts, n);
    OutcomeRemembered(limits, Run(limits, attempts, n), attempts[n], PublishedAttempt(limits, attempts, n),
                      Pending(limits, attempts, n));
  }

  // The number of waits that fit into a limit, in seconds.
  lemma WaitsOfTwentySeconds(limit: nat)
    ensures 20 * Waits(limit) >= limit && (limit > 0 ==> 20 * (Waits(limit) - 1) < limit)
  {
  }

  function Publications(limits: Limits, attempts: seq<Attempt>, n: nat): nat
    requires n <= |attempts|
  {
    if n == 0 then 0
    else Publications(limits, attempts, n - 1) + if OutcomeOf(limits, attempts, n - 1) == Published then 1 else 0
  }

  // The counter of swaps is the number of publications.
  lemma {:induction false} SwapsAreCounted(limits: Limits, attempts: seq<Attempt>, n: nat)
    requires n <= |attempts|
    ensures Run(limits, attempts, n).swapCounter == Publications(limits, attempts, n)
  {
    if n > 0 {
      SwapsAreCounted(limits, attempts, n - 1);
    }
  }
}
