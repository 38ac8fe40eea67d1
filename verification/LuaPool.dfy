// The pool of Lua states: threads check states out and in, and a changed script file makes one
// of them replace all states.
module LuaPools {
  import opened Wrappers

  const NUM_OF_LUA_HANDLES: nat := 20

  // Where a thread is. Its slot is not stored by the code, which finds it again by the key.
  datatype Thread =
    | Idle
    | Scanning(t: nat)                                            // getLuaState looks at slot t
    | Taking(t: nat)                                              // and has seen that it is free
    | Holding(key: nat, state: Option<nat>, slot: nat)
    | Releasing(key: nat, state: Option<nat>, slot: nat, t: nat) // releaseLuaState looks at slot t
    | Clearing(key: nat, state: Option<nat>, slot: nat, t: nat)  // and has seen its key there
    | Counting(t: nat, count: nat)                                // checkUpdates waits for free slots
    | Closing(t: nat)
    | Loading(t: nat)
  {
    predicate HasSlot() {
      Holding? || Releasing? || Clearing?
    }

    predicate HasLock() {
      Scanning? || Taking? || Counting? || Closing? || Loading?
    }
  }

  // Lua states are numbered as they are created, and a state that has left its slot is closed.
  // `failedAt` tells at which slot the last load broke off, if it did.
  datatype Pool = Pool(keys: seq<nat>, counter: nat, states: seq<Option<nat>>, stateLock: Option<nat>,
                       threads: seq<Thread>, nextState: nat, failedAt: Option<nat>)

  datatype Action = Go | GetState | ReleaseState | Reload | FailLoad

  // One step of thread i, or nothing when the action is not possible there. The state lock is
  // taken before scanning and before counting; releasing takes no lock.
  ghost function Exec(p: Pool, i: nat, action: Action): Pool
    requires Shaped(p) && i < |p.threads|
  {
    match p.threads[i]
    case Idle =>
      if p.stateLock.Some? then p
      else if action.GetState? then Move(p, i, Scanning(0)).(stateLock := Some(i))
      else if action.Reload? then Move(p, i, Counting(0, 0)).(stateLock := Some(i))
      else p
    case Scanning(t) =>
      if t >= NUM_OF_LUA_HANDLES then Move(p, i, Scanning(0))
      else Move(p, i, if p.keys[t] == 0 then Taking(t) else Scanning(t + 1))
    case Taking(t) =>
      if t >= NUM_OF_LUA_HANDLES then p
      else
        var key := p.counter + 1;
        Move(p, i, Holding(key, p.states[t], t)).(counter := key, keys := p.keys[t := key], stateLock := None)
    case Holding(key, state, slot) =>
      if action.ReleaseState? then Move(p, i, Releasing(key, state, slot, 0)) else p
    case Releasing(key, state, slot, t) =>
      if t >= NUM_OF_LUA_HANDLES then Move(p, i, Idle)
      else Move(p, i, if p.keys[t] == key then Clearing(key, state, slot, t) else Releasing(key, state, slot, t + 1))
    case Clearing(key, state, slot, t) =>
      if t >= NUM_OF_LUA_HANDLES then p else Move(p, i, Idle).(keys := p.keys[t := 0])
    case Counting(t, count) =>
      if t >= NUM_OF_LUA_HANDLES then Move(p, i, if count == NUM_OF_LUA_HANDLES then Closing(0) else Counting(0, 0))
      else Move(p, i, Counting(t + 1, count + if p.keys[t] == 0 then 1 else 0))
    case Closing(t) =>
      if t >= NUM_OF_LUA_HANDLES then Move(p, i, Loading(0))
      else Move(p, i, Closing(t + 1)).(states := p.states[t := None])
    case Loading(t) =>
      if t >= NUM_OF_LUA_HANDLES then Move(p, i, Idle).(stateLock := None, failedAt := None)
      else if action.FailLoad? then NewState(Move(p, i, Idle), t).(stateLock := None, failedAt := Some(t))
      else NewState(Move(p, i, Loading(t + 1)), t)
  }

  ghost function Move(p: Pool, i: nat, thread: Thread): Pool
    requires i < |p.threads|
  {
    p.(threads := p.threads[i := thread])
  }

  ghost function NewState(p: Pool, t: nat): Pool
    requires t < |p.states|
  {
    p.(states := p.states[t := Some(p.nextState)], nextState := p.nextState + 1)
  }

  predicate Shaped(p: Pool) {
    |p.keys| == |p.states| == NUM_OF_LUA_HANDLES
  }

  // ---- What holds at every moment ----

  ghost predicate KeysOk(p: Pool) {
    && (forall j :: 0 <= j < |p.keys| ==> p.keys[j] <= p.counter)
    && (forall j, k :: 0 <= j < k < |p.keys| && p.keys[j] == p.keys[k] ==> p.keys[j] == 0)
  }

  // A thread with a slot finds its own key there, and scanning for it has not gone past.
  ghost predicate SlotOk(p: Pool, thread: Thread)
    requires Shaped(p)
  {
    thread.HasSlot() ==>
      && thread.slot < NUM_OF_LUA_HANDLES && p.keys[thread.slot] == thread.key > 0
      && p.states[thread.slot] == thread.state
      && (thread.Releasing? ==> thread.t <= thread.slot)
      && (thread.Clearing? ==> thread.t == thread.slot)
  }

  predicate AllFree(p: Pool, n: nat)
    requires n <= |p.keys|
  {
    forall k :: 0 <= k < n ==> p.keys[k] == 0
  }

  ghost predicate LockOk(p: Pool, thread: Thread)
    requires Shaped(p)
  {
    match thread
    case Scanning(t) => t <= NUM_OF_LUA_HANDLES
    case Taking(t) => t < NUM_OF_LUA_HANDLES && p.keys[t] == 0
    case Counting(t, count) => count <= t <= NUM_OF_LUA_HANDLES && (count == t ==> AllFree(p, t))
    case Closing(t) => t <= NUM_OF_LUA_HANDLES && AllFree(p, NUM_OF_LUA_HANDLES)
    case Loading(t) => t <= NUM_OF_LUA_HANDLES && AllFree(p, NUM_OF_LUA_HANDLES)
    case _ => true
  }

  ghost predicate SlotsOk(p: Pool)
    requires Shaped(p)
  {
    && (forall i :: 0 <= i < |p.threads| ==> SlotOk(p, p.threads[i]))
    && (forall i, j :: 0 <= i < j < |p.threads| && p.threads[i].HasSlot() && p.threads[j].HasSlot() ==>
          p.threads[i].slot != p.threads[j].slot)
  }

  ghost predicate LocksOk(p: Pool)
    requires Shaped(p)
  {
    && (forall i :: 0 <= i < |p.threads| ==> LockOk(p, p.threads[i]))
    && (forall i :: 0 <= i < |p.threads| ==> (p.threads[i].HasLock() <==> p.stateLock == Some(i)))
    && (p.stateLock.Some? ==> p.stateLock.value < |p.threads|)
  }

  // No state is in two slots.
  ghost predicate StatesDiffer(states: seq<Option<nat>>, nextState: nat) {
    && (forall k :: 0 <= k < |states| && states[k].Some? ==> states[k].value < nextState)
    && (forall j, k :: 0 <= j < k < |states| && states[j].Some? ==> states[j] != states[k])
  }

  predicate Reloading(p: Pool) {
    && p.stateLock.Some? && p.stateLock.value < |p.threads|
    && (p.threads[p.stateLock.value].Closing? || p.threads[p.stateLock.value].Loading?)
  }

  // A reload empties the slots one by one and fills them again; if it breaks off, the slots
  // behind the one it failed at stay empty.
  ghost predicate FilledOk(p: Pool)
    requires Shaped(p)
  {
    && (forall i :: 0 <= i < |p.threads| ==> ReloadOk(p.states, p.threads[i]))
    && (!Reloading(p) ==> LoadedOk(p.states, p.failedAt))
  }

  ghost predicate ReloadOk(states: seq<Option<nat>>, thread: Thread)
    requires |states| == NUM_OF_LUA_HANDLES
  {
    && (thread.Closing? ==> forall k :: 0 <= k < thread.t && k < NUM_OF_LUA_HANDLES ==> states[k].None?)
    && (thread.Loading? ==> forall k :: 0 <= k < NUM_OF_LUA_HANDLES ==> (states[k].Some? <==> k < thread.t))
  }

  ghost predicate LoadedOk(states: seq<Option<nat>>, failedAt: Option<nat>)
    requires |states| == NUM_OF_LUA_HANDLES
  {
    forall k :: 0 <= k < NUM_OF_LUA_HANDLES ==> (states[k].Some? <==> failedAt.None? || k <= failedAt.value)
  }

  ghost predicate Invariant(p: Pool) {
    Shaped(p) && KeysOk(p) && SlotsOk(p) && LocksOk(p) && StatesDiffer(p.states, p.nextState) && FilledOk(p)
  }

  lemma StepKeepsKeys(p: Pool, i: nat, action: Action)
    requires Shaped(p) && i < |p.threads| && KeysOk(p)
    ensures Shaped(Exec(p, i, action)) && KeysOk(Exec(p, i, action))
  {
    var p' := Exec(p, i, action);
    if p.threads[i].Taking? && p.threads[i].t < NUM_OF_LUA_HANDLES {
      KeyTaken(p.keys, p.counter, p.threads[i].t);
    } else if p.threads[i].Clearing? && p.threads[i].t < NUM_OF_LUA_HANDLES {
      assert p'.keys == p.keys[p.threads[i].t := 0];
    } else {
      assert p'.keys == p.keys && p'.counter == p.counter;
    }
  }

  lemma KeyTaken(keys: seq<nat>, counter: nat, t: nat)
    requires t < |keys| && forall j :: 0 <= j < |keys| ==> keys[j] <= counter
    requires forall j, k :: 0 <= j < k < |keys| && keys[j] == keys[k] ==> keys[j] == 0
    ensures var keys' := keys[t := counter + 1];
            && (forall j :: 0 <= j < |keys'| ==> keys'[j] <= counter + 1)
            && (forall j, k :: 0 <= j < k < |keys'| && keys'[j] == keys'[k] ==> keys'[j] == 0)
  {
  }

  // While a slot is in use its state stays: states are replaced only when all slots are free.
  lemma OtherThreadIsKept(p: Pool, i: nat, action: Action, j: nat)
    requires Invariant(p) && i < |p.threads| && j < |p.threads| && i != j
    ensures var p' := Exec(p, i, action);
            p'.threads[j] == p.threads[j] && SlotOk(p', p.threads[j]) && LockOk(p', p.threads[j])
  {
    assert SlotOk(p, p.threads[j]) && LockOk(p, p.threads[j]) && SlotOk(p, p.threads[i]) && LockOk(p, p.threads[i]);
    assert p.threads[i].HasLock() ==> !p.threads[j].HasLock();
  }

  lemma OwnSlotIsKept(p: Pool, i: nat, action: Action)
    requires Shaped(p) && KeysOk(p) && i < |p.threads| && SlotOk(p, p.threads[i]) && LockOk(p, p.threads[i])
    ensures var p' := Exec(p, i, action); SlotOk(p', p'.threads[i])
  {
  }

  lemma OwnLockIsKept(p: Pool, i: nat, action: Action)
    requires Shaped(p) && i < |p.threads| && LockOk(p, p.threads[i])
    ensures var p' := Exec(p, i, action); LockOk(p', p'.threads[i])
  {
  }

  // A slot that is taken was free, so no other thread has it.
  lemma SlotsStayApart(p: Pool, i: nat, action: Action, j: nat)
    requires Invariant(p) && i < |p.threads| && j < |p.threads| && i != j
    requires var p' := Exec(p, i, action); p'.threads[i].HasSlot() && p'.threads[j].HasSlot()
    ensures var p' := Exec(p, i, action); p'.threads[i].slot != p'.threads[j].slot
  {
    assert SlotOk(p, p.threads[j]) && LockOk(p, p.threads[i]);
    if p.threads[i].HasSlot() {
      if i < j {
        assert p.threads[i].slot != p.threads[j].slot;
      } else {
        assert p.threads[j].slot != p.threads[i].slot;
      }
    }
  }

  lemma StepKeepsSlots(p: Pool, i: nat, action: Action)
    requires Invariant(p) && i < |p.threads|
    ensures SlotsOk(Exec(p, i, action)) && forall j :: 0 <= j < |p.threads| ==>
        LockOk(Exec(p, i, action), Exec(p, i, action).threads[j])
  {
    var p' := Exec(p, i, action);
    forall j | 0 <= j < |p.threads| ensures SlotOk(p', p'.threads[j]) && LockOk(p', p'.threads[j]) {
      if j == i {
        OwnSlotIsKept(p, i, action);
        OwnLockIsKept(p, i, action);
      } else {
        OtherThreadIsKept(p, i, action, j);
      }
    }
    forall j, k | 0 <= j < k < |p.threads| && p'.threads[j].HasSlot() && p'.threads[k].HasSlot()
      ensures p'.threads[j].slot != p'.threads[k].slot
    {
      if j == i {
        SlotsStayApart(p, i, action, k);
      } else if k == i {
        SlotsStayApart(p, i, action, j);
      } else {
        OtherThreadIsKept(p, i, action, j);
        OtherThreadIsKept(p, i, action, k);
      }
    }
  }

  lemma StepKeepsLock(p: Pool, i: nat, action: Action, j: nat)
    requires Shaped(p) && LocksOk(p) && i < |p.threads| && j < |p.threads|
    ensures var p' := Exec(p, i, action); p'.threads[j].HasLock() <==> p'.stateLock == Some(j)
  {
    assert p.threads[i].HasLock() <==> p.stateLock == Some(i);
    assert p.threads[j].HasLock() <==> p.stateLock == Some(j);
  }

  lemma StateReplaced(states: seq<Option<nat>>, nextState: nat, t: nat)
    requires t < |states| && StatesDiffer(states, nextState)
    ensures StatesDiffer(states[t := None], nextState)
    ensures StatesDiffer(states[t := Some(nextState)], nextState + 1)
  {
  }

  lemma StepKeepsStates(p: Pool, i: nat, action: Action)
    requires Shaped(p) && StatesDiffer(p.states, p.nextState) && i < |p.threads|
    ensures StatesDiffer(Exec(p, i, action).states, Exec(p, i, action).nextState)
  {
    var thread := p.threads[i];
    if (thread.Closing? || thread.Loading?) && thread.t < NUM_OF_LUA_HANDLES {
      StateReplaced(p.states, p.nextState, thread.t);
    }
  }

  // Only the reload replaces states, and the other threads have no part in it.
  lemma OthersDoNotReload(p: Pool, i: nat, action: Action, j: nat)
    requires Invariant(p) && i < |p.threads| && j < |p.threads| && i != j
    ensures var p' := Exec(p, i, action);
            && p'.threads[j] == p.threads[j]
            && (p'.states != p.states ==> !p'.threads[j].Closing? && !p'.threads[j].Loading?)
  {
    assert p.threads[i].HasLock() ==> !p.threads[j].HasLock();
  }

  lemma OwnReloadIsKept(p: Pool, i: nat, action: Action)
    requires Shaped(p) && i < |p.threads| && LockOk(p, p.threads[i]) && ReloadOk(p.states, p.threads[i])
    ensures var p' := Exec(p, i, action); ReloadOk(p'.states, p'.threads[i])
  {
  }

  lemma LoadedStates(p: Pool, i: nat, action: Action)
    requires Shaped(p) && i < |p.threads| && LockOk(p, p.threads[i]) && ReloadOk(p.states, p.threads[i])
    requires p.threads[i].Loading? && !Exec(p, i, action).threads[i].Loading?
    ensures var p' := Exec(p, i, action); LoadedOk(p'.states, p'.failedAt)
  {
  }

  lemma StepKeepsLoaded(p: Pool, i: nat, action: Action)
    requires Invariant(p) && i < |p.threads| && !Reloading(Exec(p, i, action))
    ensures var p' := Exec(p, i, action); LoadedOk(p'.states, p'.failedAt)
  {
    assert LockOk(p, p.threads[i]) && ReloadOk(p.states, p.threads[i]);
    assert p.threads[i].HasLock() <==> p.stateLock == Some(i);
    if p.threads[i].Loading? {
      LoadedStates(p, i, action);
    }
  }

  lemma StepKeepsFilled(p: Pool, i: nat, action: Action)
    requires Invariant(p) && i < |p.threads|
    ensures FilledOk(Exec(p, i, action))
  {
    var p' := Exec(p, i, action);
    assert LockOk(p, p.threads[i]) && ReloadOk(p.states, p.threads[i]);
    forall j | 0 <= j < |p.threads| ensures ReloadOk(p'.states, p'.threads[j]) {
      if j == i {
        OwnReloadIsKept(p, i, action);
      } else {
        OthersDoNotReload(p, i, action, j);
        assert ReloadOk(p.states, p.threads[j]);
      }
    }
    if !Reloading(p') {
      StepKeepsLoaded(p, i, action);
    }
  }

  lemma StepKeepsInvariant(p: Pool, i: nat, action: Action)
    requires Invariant(p) && i < |p.threads|
    ensures Invariant(Exec(p, i, action)) && |Exec(p, i, action).threads| == |p.threads|
  {
    var p' := Exec(p, i, action);
    StepKeepsKeys(p, i, action);
    StepKeepsSlots(p, i, action);
    forall j | 0 <= j < |p.threads| ensures p'.threads[j].HasLock() <==> p'.stateLock == Some(j) {
      StepKeepsLock(p, i, action, j);
    }
    StepKeepsStates(p, i, action);
    StepKeepsFilled(p, i, action);
  }

  // ---- Every interleaving ----

  ghost function Initial(threads: nat): Pool {
    Pool(seq(NUM_OF_LUA_HANDLES, _ => 0), 0, seq(NUM_OF_LUA_HANDLES, k => Some(k)), None,
         seq(threads, _ => Idle), NUM_OF_LUA_HANDLES, None)
  }

  datatype Step = Step(thread: nat, action: Action)

  ghost function Run(p: Pool, steps: seq<Step>): (r: Pool)
    requires Shaped(p)
    ensures Shaped(r) && |r.threads| == |p.threads|
  {
    if |steps| == 0 then p
    else
      var q, step := Run(p, steps[..|steps| - 1]), steps[|steps| - 1];
      if step.thread < |q.threads| then Exec(q, step.thread, step.action) else q
  }

  lemma InitialIsOk(threads: nat)
    ensures Invariant(Initial(threads))
  {
  }

  lemma {:induction false} RunKeepsInvariant(threads: nat, steps: seq<Step>)
    ensures Invariant(Run(Initial(threads), steps))
  {
    InitialIsOk(threads);
    if |steps| > 0 {
      RunKeepsInvariant(threads, steps[..|steps| - 1]);
      var q, step := Run(Initial(threads), steps[..|steps| - 1]), steps[|steps| - 1];
      if step.thread < |q.threads| {
        StepKeepsInvariant(q, step.thread, step.action);
      }
    }
  }

  // At every moment of every run: keys in use are distinct and at most the counter; no two
  // threads have the same slot or the same state; the state a thread has is still in its slot,
  // and it exists unless the last load failed at an earlier slot.
  lemma PoolIsSafe(threads: nat, steps: seq<Step>)
    ensures var p := Run(Initial(threads), steps);
            && |p.keys| == |p.states| == 20
            && (forall j :: 0 <= j < 20 ==> p.keys[j] <= p.counter)
            && (forall j, k :: 0 <= j < k < 20 && p.keys[j] > 0 ==> p.keys[j] != p.keys[k])
            && (forall i, j :: 0 <= i < j < threads && p.threads[i].HasSlot() && p.threads[j].HasSlot() ==>
                  && p.threads[i].slot != p.threads[j].slot && p.threads[i].key != p.threads[j].key
                  && (p.threads[i].state.Some? ==> p.threads[i].state != p.threads[j].state))
            && (forall i :: 0 <= i < threads && p.threads[i].HasSlot() ==>
                  && p.threads[i].slot < 20 && p.states[p.threads[i].slot] == p.threads[i].state
                  && (p.threads[i].state.Some? <==> p.failedAt.None? || p.threads[i].slot <= p.failedAt.value))
  {
    RunKeepsInvariant(threads, steps);
    var p := Run(Initial(threads), steps);
    forall i, j | 0 <= i < j < threads && p.threads[i].HasSlot() && p.threads[j].HasSlot()
      ensures p.threads[i].slot != p.threads[j].slot && p.threads[i].key != p.threads[j].key
      ensures p.threads[i].state.Some? ==> p.threads[i].state != p.threads[j].state
    {
      HoldersDiffer(p, i, j);
    }
    forall i | 0 <= i < threads && p.threads[i].HasSlot()
      ensures p.threads[i].slot < NUM_OF_LUA_HANDLES && p.states[p.threads[i].slot] == p.threads[i].state
      ensures p.threads[i].state.Some? <==> p.failedAt.None? || p.threads[i].slot <= p.failedAt.value
    {
      HeldStateExists(p, i);
    }
  }

  lemma HoldersDiffer(p: Pool, i: nat, j: nat)
    requires Invariant(p) && i < j < |p.threads| && p.threads[i].HasSlot() && p.threads[j].HasSlot()
    ensures p.threads[i].slot != p.threads[j].slot && p.threads[i].key != p.threads[j].key
    ensures p.threads[i].state.Some? ==> p.threads[i].state != p.threads[j].state
  {
    assert SlotOk(p, p.threads[i]) && SlotOk(p, p.threads[j]);
    var a, b := p.threads[i].slot, p.threads[j].slot;
    assert if a < b then p.keys[a] != p.keys[b] else p.keys[b] != p.keys[a];
    assert p.states[a].Some? ==> if a < b then p.states[a] != p.states[b]
                                 else p.states[b].Some? ==> p.states[b] != p.states[a];
  }

  lemma HeldStateExists(p: Pool, i: nat)
    requires Invariant(p) && i < |p.threads| && p.threads[i].HasSlot()
    ensures p.threads[i].slot < NUM_OF_LUA_HANDLES && p.states[p.threads[i].slot] == p.threads[i].state
    ensures p.threads[i].state.Some? <==> p.failedAt.None? || p.threads[i].slot <= p.failedAt.value
  {
    assert SlotOk(p, p.threads[i]);
    NotReloading(p, i);
  }

  lemma NotReloading(p: Pool, i: nat)
    requires Invariant(p) && i < |p.threads| && p.threads[i].HasSlot()
    ensures !Reloading(p)
  {
    assert SlotOk(p, p.threads[i]);
    if p.stateLock.Some? {
      assert LockOk(p, p.threads[p.stateLock.value]);
    }
  }

  // A reload closes or replaces a state only when no thread has a slot.
  lemma ReloadWaitsForAllSlots(p: Pool, i: nat, action: Action, j: nat)
    requires Invariant(p) && i < |p.threads| && j < |p.threads|
    requires Exec(p, i, action).states != p.states
    ensures !p.threads[j].HasSlot()
  {
    assert LockOk(p, p.threads[i]) && SlotOk(p, p.threads[j]);
  }

  // Releasing finds the slot of the thread and frees exactly that one.
  lemma ReleaseFreesOwnSlot(p: Pool, i: nat, action: Action)
    requires Invariant(p) && i < |p.threads|
    ensures var p' := Exec(p, i, action);
            match p.threads[i]
            case Releasing(key, state, slot, t) =>
              && p'.keys == p.keys
              && p'.threads[i] == (if t == slot then Clearing(key, state, slot, t)
                                   else Releasing(key, state, slot, t + 1))
            case Clearing(key, state, slot, t) =>
              slot < NUM_OF_LUA_HANDLES && p.keys[slot] == key && p'.keys == p.keys[slot := 0] && p'.threads[i] == Idle
            case Taking(t) => t < NUM_OF_LUA_HANDLES && p.keys[t] == 0 && p'.keys == p.keys[t := p'.counter]
            case _ => p'.keys == p.keys
  {
    assert SlotOk(p, p.threads[i]) && LockOk(p, p.threads[i]);
    if p.threads[i].Releasing? {
      var t, slot := p.threads[i].t, p.threads[i].slot;
      assert t != slot ==> p.keys[t] != p.keys[slot];
    }
  }

  // ---- A failed load leaves empty slots that are handed out all the same ----

  ghost function RunGo(p: Pool, i: nat, n: nat): (r: Pool)
    requires Shaped(p) && i < |p.threads|
    ensures Shaped(r) && |r.threads| == |p.threads|
    decreases n
  {
    if n == 0 then p else RunGo(Exec(p, i, Go), i, n - 1)
  }

  lemma RunThen(p: Pool, steps: seq<Step>, step: Step)
    requires Shaped(p) && step.thread < |p.threads|
    ensures Run(p, steps + [step]) == Exec(Run(p, steps), step.thread, step.action)
  {
    assert (steps + [step])[..|steps|] == steps;
  }

  lemma {:induction false} RunThenGo(p: Pool, steps: seq<Step>, i: nat, n: nat) returns (more: seq<Step>)
    requires Shaped(p) && i < |p.threads|
    ensures Run(p, more) == RunGo(Run(p, steps), i, n)
    decreases n
  {
    more := steps;
    if n > 0 {
      RunThen(p, steps, Step(i, Go));
      more := RunThenGo(p, steps + [Step(i, Go)], i, n - 1);
    }
  }

  lemma {:induction false} CountFreeSlots(p: Pool, i: nat, t: nat)
    requires Shaped(p) && i < |p.threads| && t <= NUM_OF_LUA_HANDLES && AllFree(p, NUM_OF_LUA_HANDLES)
    requires p.threads[i] == Counting(t, t)
    ensures RunGo(p, i, NUM_OF_LUA_HANDLES - t) == Move(p, i, Counting(NUM_OF_LUA_HANDLES, NUM_OF_LUA_HANDLES))
    decreases NUM_OF_LUA_HANDLES - t
  {
    if t < NUM_OF_LUA_HANDLES {
      CountFreeSlots(Exec(p, i, Go), i, t + 1);
    } else {
      assert p.threads[i := p.threads[i]] == p.threads;
    }
  }

  ghost function Emptied(p: Pool): Pool {
    p.(states := seq(NUM_OF_LUA_HANDLES, _ => None))
  }

  lemma {:induction false} CloseSlots(p: Pool, i: nat, t: nat)
    requires Shaped(p) && i < |p.threads| && t <= NUM_OF_LUA_HANDLES && p.threads[i] == Closing(t)
    requires forall k :: 0 <= k < t ==> p.states[k] == None
    ensures RunGo(p, i, NUM_OF_LUA_HANDLES - t) == Emptied(Move(p, i, Closing(NUM_OF_LUA_HANDLES)))
    decreases NUM_OF_LUA_HANDLES - t
  {
    if t < NUM_OF_LUA_HANDLES {
      CloseSlots(Exec(p, i, Go), i, t + 1);
      assert Emptied(Exec(p, i, Go)) == Emptied(Move(p, i, Closing(t + 1)));
    } else {
      assert p.threads[i := p.threads[i]] == p.threads;
      assert p.states == seq(NUM_OF_LUA_HANDLES, _ => None);
    }
  }

  lemma WaitedForSlots() returns (steps: seq<Step>)
    ensures Run(Initial(2), steps) == Move(Initial(2), 0, Closing(0)).(stateLock := Some(0))
  {
    var p := Initial(2);
    RunThen(p, [], Step(0, Reload));
    steps := RunThenGo(p, [] + [Step(0, Reload)], 0, NUM_OF_LUA_HANDLES);
    CountFreeSlots(Exec(p, 0, Reload), 0, 0);
    RunThen(p, steps, Step(0, Go));
    steps := steps + [Step(0, Go)];
    assert Run(p, steps).threads == [Closing(0), Idle];
  }

  lemma ClosedAllSlots() returns (steps: seq<Step>)
    ensures Run(Initial(2), steps) == Emptied(Move(Initial(2), 0, Closing(NUM_OF_LUA_HANDLES)).(stateLock := Some(0)))
  {
    steps := WaitedForSlots();
    var closing := Move(Initial(2), 0, Closing(0)).(stateLock := Some(0));
    steps := RunThenGo(Initial(2), steps, 0, NUM_OF_LUA_HANDLES);
    CloseSlots(closing, 0, 0);
    assert Move(closing, 0, Closing(NUM_OF_LUA_HANDLES))
        == Move(Initial(2), 0, Closing(NUM_OF_LUA_HANDLES)).(stateLock := Some(0));
  }

  lemma ReloadFails() returns (steps: seq<Step>)
    ensures var q := Run(Initial(2), steps);
            && q.threads == [Idle, Idle] && q.stateLock == None && q.counter == 0 && q.failedAt == Some(0)
            && q.keys[0] == 0 && q.keys[1] == 0 && q.states[1] == None
  {
    steps := ClosedAllSlots();
    RunThen(Initial(2), steps, Step(0, Go));
    steps := steps + [Step(0, Go)];
    RunThen(Initial(2), steps, Step(0, FailLoad));
    steps := steps + [Step(0, FailLoad)];
  }

  // Thread 0 reloads and fails at the first slot, then takes that slot; the next thread gets
  // slot 1 with no state in it.
  lemma EmptySlotIsHandedOut() returns (steps: seq<Step>)
    ensures Run(Initial(2), steps).threads[1] == Holding(2, None, 1)
    ensures Run(Initial(2), steps).failedAt == Some(0)
  {
    steps := ReloadFails();
    steps := TakeTwo(Initial(2), steps);
  }

  lemma TakeTwo(p: Pool, steps: seq<Step>) returns (more: seq<Step>)
    requires Shaped(p) && |p.threads| == 2
    requires var q := Run(p, steps);
             && q.threads == [Idle, Idle] && q.stateLock == None && q.counter == 0
             && q.keys[0] == 0 && q.keys[1] == 0 && q.states[1] == None
    ensures Run(p, more).threads[1] == Holding(2, None, 1)
    ensures Run(p, more).failedAt == Run(p, steps).failedAt
  {
    RunThen(p, steps, Step(0, GetState));
    var s1 := steps + [Step(0, GetState)];
    RunThen(p, s1, Step(0, Go));
    var s2 := s1 + [Step(0, Go)];
    assert Run(p, s2).threads == [Taking(0), Idle];
    RunThen(p, s2, Step(0, Go));
    var s3 := s2 + [Step(0, Go)];
    var q := Run(p, s3);
    assert q.threads[1] == Idle && q.stateLock == None && q.keys[0] == 1 && q.keys[1] == 0 && q.counter == 1;
    RunThen(p, s3, Step(1, GetState));
    var s4 := s3 + [Step(1, GetState)];
    RunThen(p, s4, Step(1, Go));
    var s5 := s4 + [Step(1, Go)];
    assert Run(p, s5).threads[1] == Scanning(1);
    RunThen(p, s5, Step(1, Go));
    var s6 := s5 + [Step(1, Go)];
    assert Run(p, s6).threads[1] == Taking(1);
    RunThen(p, s6, Step(1, Go));
    more := s6 + [Step(1, Go)];
  }

  // ---- The same operations on the arrays, as a thread alone runs them ----

  // The first slot with this key, or the number of slots.
  function SlotOf(keys: seq<nat>, key: nat): (t: nat)
    ensures t <= |keys| && (forall k :: 0 <= k < t ==> keys[k] != key) && (t < |keys| ==> keys[t] == key)
  {
    if |keys| == 0 || keys[0] == key then 0 else 1 + SlotOf(keys[1..], key)
  }

  lemma {:induction false} SlotIs(keys: seq<nat>, key: nat, t: nat)
    requires t <= |keys| && (forall k :: 0 <= k < t ==> keys[k] != key) && (t < |keys| ==> keys[t] == key)
    ensures SlotOf(keys, key) == t
  {
    if t > 0 {
      SlotIs(keys[1..], key, t - 1);
    }
  }

  class LuaFile {
    const mLuaState: array<Option<nat>>
    const mStateKey: array<nat>
    var mStateKeyCounter: nat

    ghost predicate Valid()
      reads this, mStateKey
    {
      && mLuaState.Length == mStateKey.Length == NUM_OF_LUA_HANDLES
      && (forall j :: 0 <= j < NUM_OF_LUA_HANDLES ==> mStateKey[j] <= mStateKeyCounter)
      && (forall j, k :: 0 <= j < k < NUM_OF_LUA_HANDLES && mStateKey[j] == mStateKey[k] ==> mStateKey[j] == 0)
    }

    // One pass of the search for a free slot.
    method TryGetLuaState() returns (key: nat, state: Option<nat>, found: bool)
      requires Valid()
      modifies `mStateKeyCounter, mStateKey
      ensures Valid()
      ensures var t := SlotOf(old(mStateKey[..]), 0);
              && (found <==> t < NUM_OF_LUA_HANDLES)
              && mStateKey[..] == (if found then old(mStateKey[..])[t := key] else old(mStateKey[..]))
              && (found ==> state == mLuaState[t] && key == mStateKeyCounter == old(mStateKeyCounter) + 1)
              && (found ==> forall k :: 0 <= k < NUM_OF_LUA_HANDLES ==> old(mStateKey[k]) != key)
    {
      key, state, found := 0, None, false;
      var t := 0;
      while t < NUM_OF_LUA_HANDLES
        invariant t <= NUM_OF_LUA_HANDLES && forall k :: 0 <= k < t ==> mStateKey[k] != 0
        invariant mStateKey[..] == old(mStateKey[..]) && mStateKeyCounter == old(mStateKeyCounter)
      {
        if mStateKey[t] == 0 {
          SlotIs(mStateKey[..], 0, t);
          mStateKeyCounter := mStateKeyCounter + 1;
          key := mStateKeyCounter;
          mStateKey[t] := key;
          return key, mLuaState[t], true;
        }
        t := t + 1;
      }
      SlotIs(mStateKey[..], 0, t);
    }

    method ReleaseLuaState(key: nat)
      requires Valid()
      modifies mStateKey
      ensures Valid()
      ensures var t := SlotOf(old(mStateKey[..]), key);
              mStateKey[..] == if t < NUM_OF_LUA_HANDLES then old(mStateKey[..])[t := 0] else old(mStateKey[..])
    {
      var t := 0;
      while t < NUM_OF_LUA_HANDLES
        invariant t <= NUM_OF_LUA_HANDLES && forall k :: 0 <= k < t ==> mStateKey[k] != key
        invariant mStateKey[..] == old(mStateKey[..])
      {
        if mStateKey[t] == key {
          SlotIs(mStateKey[..], key, t);
          mStateKey[t] := 0;
          return;
        }
        t := t + 1;
      }
      SlotIs(mStateKey[..], key, t);
    }
  }

  // Releasing the key of a slot that was just taken gives back exactly what was there.
  lemma ReleaseUndoesGet(keys: seq<nat>, key: nat)
    requires SlotOf(keys, 0) < |keys| && key > 0 && forall k :: 0 <= k < |keys| ==> keys[k] != key
    ensures var t := SlotOf(keys, 0); SlotOf(keys[t := key], key) == t && keys[t := key][t := 0] == keys
  {
    var t := SlotOf(keys, 0);
    SlotIs(keys[t := key], key, t);
  }

  // ---- What the steps of one thread come to, with nobody in between ----

  lemma MovedTwice(p: Pool, i: nat, a: Thread, b: Thread)
    requires i < |p.threads|
    ensures Move(Move(p, i, a), i, b) == Move(p, i, b)
  {
    assert p.threads[i := a][i := b] == p.threads[i := b];
  }

  // Checking out takes the first free slot with its state and the next key, and gives the lock back.
  lemma {:induction false} CheckOutTakesFirstFree(p: Pool, i: nat, t: nat)
    requires Shaped(p) && i < |p.threads| && p.threads[i] == Scanning(t)
    requires t <= SlotOf(p.keys, 0) < NUM_OF_LUA_HANDLES
    ensures var free, key := SlotOf(p.keys, 0), p.counter + 1;
            RunGo(p, i, free - t + 2)
            == Move(p, i, Holding(key, p.states[free], free)).(counter := key, keys := p.keys[free := key],
                                                               stateLock := None)
    decreases SlotOf(p.keys, 0) - t
  {
    var free := SlotOf(p.keys, 0);
    if t < free {
      MovedTwice(p, i, Scanning(t + 1), Holding(p.counter + 1, p.states[free], free));
      CheckOutTakesFirstFree(Move(p, i, Scanning(t + 1)), i, t + 1);
    } else {
      MovedTwice(p, i, Taking(t), Holding(p.counter + 1, p.states[free], free));
      TakeNow(Move(p, i, Taking(t)), i, t);
    }
  }

  lemma TakeNow(p: Pool, i: nat, t: nat)
    requires Shaped(p) && i < |p.threads| && p.threads[i] == Taking(t) && t < NUM_OF_LUA_HANDLES
    ensures var key := p.counter + 1;
            RunGo(p, i, 1)
            == Move(p, i, Holding(key, p.states[t], t)).(counter := key, keys := p.keys[t := key], stateLock := None)
  {
    assert RunGo(Exec(p, i, Go), i, 0) == Exec(p, i, Go);
  }

  // Checking in frees the first slot with the key.
  lemma {:induction false} CheckInFreesTheSlot(p: Pool, i: nat, key: nat, state: Option<nat>, slot: nat, t: nat)
    requires Shaped(p) && i < |p.threads| && p.threads[i] == Releasing(key, state, slot, t)
    requires t <= SlotOf(p.keys, key) < NUM_OF_LUA_HANDLES
    ensures var found := SlotOf(p.keys, key);
            RunGo(p, i, found - t + 2) == Move(p, i, Idle).(keys := p.keys[found := 0])
    decreases SlotOf(p.keys, key) - t
  {
    var found := SlotOf(p.keys, key);
    if t < found {
      MovedTwice(p, i, Releasing(key, state, slot, t + 1), Idle);
      CheckInFreesTheSlot(Move(p, i, Releasing(key, state, slot, t + 1)), i, key, state, slot, t + 1);
    } else {
      MovedTwice(p, i, Clearing(key, state, slot, t), Idle);
      var q := Move(p, i, Clearing(key, state, slot, t));
      assert RunGo(Exec(q, i, Go), i, 0) == Exec(q, i, Go);
      assert RunGo(q, i, 1) == Exec(q, i, Go);
    }
  }

  // Loading fills the slots from t on with new states, one after the other.
  lemma {:induction false} LoadFillsAllSlots(p: Pool, i: nat, t: nat)
    requires Shaped(p) && i < |p.threads| && p.threads[i] == Loading(t) && t <= NUM_OF_LUA_HANDLES
    ensures var q := RunGo(p, i, NUM_OF_LUA_HANDLES - t + 1);
            && q.threads == p.threads[i := Idle] && q.stateLock == None && q.failedAt == None && q.keys == p.keys
            && (forall k :: 0 <= k < t ==> q.states[k] == p.states[k])
            && (forall k :: t <= k < NUM_OF_LUA_HANDLES ==> q.states[k] == Some(p.nextState + k - t))
    decreases NUM_OF_LUA_HANDLES - t
  {
    var next := Exec(p, i, Go);
    if t < NUM_OF_LUA_HANDLES {
      LoadFillsAllSlots(next, i, t + 1);
      assert next.threads[i := Idle] == p.threads[i := Idle];
    } else {
      assert RunGo(next, i, 0) == next;
    }
  }

  // A load that fails at slot t leaves a state there, and gives the lock back all the same.
  lemma FailedLoadStops(p: Pool, i: nat, t: nat)
    requires Shaped(p) && i < |p.threads| && p.threads[i] == Loading(t) && t < NUM_OF_LUA_HANDLES
    ensures var q := Exec(p, i, FailLoad);
            && q.threads == p.threads[i := Idle] && q.stateLock == None && q.failedAt == Some(t)
            && q.states == p.states[t := Some(p.nextState)] && q.keys == p.keys
  {
  }
}
