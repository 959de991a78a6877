/**
 The Antigravity replay cache in Home mode: a shared key-value store with atomic get, set and
 compare-and-swap, and keys that may expire at any moment.  Each request is a small program
 whose store accesses interleave with those of every other request.  Stored values are the ones
 this code writes, so a value is its decoded form: encoding is injective, and random generation
 and branch tokens are fresh.
 */
module AntigravityHome {
  import opened ReplayRegister
  import opened Options

  const MAX_ATTEMPTS: nat := 4

  type RequestId = nat

  /** Where a request stands; `snap` is None when the read failed and no state was observed. */
  datatype Phase =
    | Reading(key: Key, attempt: nat)
    | Reserving(key: Key, attempt: nat)
    | Holding(key: Key, snap: Option<Version>)
    | Swapping(key: Key, snap: Option<Version>, items: seq<Item>, expected: Option<Version>, attempt: nat)
    | Rechecking(key: Key, snap: Option<Version>, items: seq<Item>, attempt: nat)
    | Removing(key: Key, snap: Option<Version>)
    | Finished(ok: bool)

  datatype Home = Home(store: map<Key, Version>, log: seq<Record>, requests: map<RequestId, Phase>)

  /**
   One store access or one local step; an access that is not acknowledged took effect but reported
   an error.  A failed read leaves the request with a snapshot of no value.
   */
  datatype Step =
    | Begin(id: RequestId, key: Key)
    | Load(id: RequestId)
    | Reserve(id: RequestId, v: Version, acked: bool)
    | StartReplace(id: RequestId, items: seq<Item>)
    | Swap(id: RequestId, v: Version, acked: bool)
    | Recheck(id: RequestId)
    | StartRemove(id: RequestId)
    | SwapTombstone(id: RequestId, v: Version, acked: bool)
    | FailRead(id: RequestId)
    | Fail(id: RequestId)
    | Overwrite(key: Key, v: Version)
    | Expire(keys: set<Key>)

  function RegisterOf(s: Home): Register {
    Register(s.store, s.log)
  }

  ghost predicate Minted(s: Home, v: Version) {
    v.id.Generation? && FreshId(RegisterOf(s), v.id)
  }

  ghost predicate FreshTombstone(s: Home, v: Version) {
    Minted(s, v) && FreshBranch(RegisterOf(s), v.branch) && v.deleted && v.items == []
  }

  /** The value a replace writes: its branch survives exactly when it extends what the request read. */
  ghost predicate PublishedValue(s: Home, snap: Option<Version>, items: seq<Item>, v: Version) {
    && Minted(s, v) && !v.deleted && v.items == items
    && if snap.Some? && snap.value.items <= items then v.branch == snap.value.branch else FreshBranch(RegisterOf(s), v.branch)
  }

  function Write(s: Home, key: Key, v: Version, id: RequestId, p: Phase): Home {
    Home(s.store[key := v], s.log + [Record(key, v)], s.requests[id := p])
  }

  function Move(s: Home, id: RequestId, p: Phase): Home {
    s.(requests := s.requests[id := p])
  }

  ghost predicate Next(s: Home, step: Step, s': Home) {
    match step
    case Begin(id, key) => id !in s.requests && s' == Move(s, id, Reading(key, 0))
    case Load(id) => id in s.requests && s.requests[id].Reading? && LoadNext(s, id, s.requests[id], s')
    case Reserve(id, v, acked) => id in s.requests && s.requests[id].Reserving? && ReserveNext(s, id, s.requests[id], v, acked, s')
    case StartReplace(id, items) =>
      && id in s.requests && s.requests[id].Holding? && items != []
      && s' == Move(s, id, Swapping(s.requests[id].key, s.requests[id].snap, items, s.requests[id].snap, 0))
    case Swap(id, v, acked) => id in s.requests && s.requests[id].Swapping? && SwapNext(s, id, s.requests[id], v, acked, s')
    case Recheck(id) => id in s.requests && s.requests[id].Rechecking? && RecheckNext(s, id, s.requests[id], s')
    case StartRemove(id) =>
      && id in s.requests && s.requests[id].Holding?
      && s' == Move(s, id, Removing(s.requests[id].key, s.requests[id].snap))
    case SwapTombstone(id, v, acked) => id in s.requests && s.requests[id].Removing? && RemoveNext(s, id, s.requests[id], v, acked, s')
    case FailRead(id) =>
      && id in s.requests && (s.requests[id].Reading? || s.requests[id].Reserving?)
      && s' == Move(s, id, Holding(s.requests[id].key, None))
    case Fail(id) => id in s.requests && s' == Move(s, id, Finished(false))
    case Overwrite(key, v) =>
      && Minted(s, v) && FreshBranch(RegisterOf(s), v.branch) && (v.deleted ==> v.items == [])
      && s' == Home(s.store[key := v], s.log + [Record(key, v)], s.requests)
    case Expire(keys) => s' == s.(store := s.store - keys)
  }

  ghost predicate LoadNext(s: Home, id: RequestId, p: Phase, s': Home)
    requires p.Reading?
  {
    s' == Move(s, id, if p.key in s.store then Holding(p.key, Some(s.store[p.key])) else Reserving(p.key, p.attempt))
  }

  /** A miss is fenced by swapping a tombstone in for the absent value. */
  ghost predicate ReserveNext(s: Home, id: RequestId, p: Phase, v: Version, acked: bool, s': Home)
    requires p.Reserving?
  {
    if p.key !in s.store then
      FreshTombstone(s, v) && s' == Write(s, p.key, v, id, Holding(p.key, if acked then Some(v) else None))
    else
      s' == Move(s, id, if p.attempt + 1 < MAX_ATTEMPTS then Reading(p.key, p.attempt + 1) else Holding(p.key, None))
  }

  ghost predicate SwapNext(s: Home, id: RequestId, p: Phase, v: Version, acked: bool, s': Home)
    requires p.Swapping?
  {
    if Find(s.store, p.key) == p.expected then
      PublishedValue(s, p.snap, p.items, v) && s' == Write(s, p.key, v, id, Finished(acked))
    else
      s' == Move(s, id, Rechecking(p.key, p.snap, p.items, p.attempt))
  }

  /** After a lost swap: retry on the value found only if it is live, of the same branch, and a prefix of the new items. */
  ghost predicate RecheckNext(s: Home, id: RequestId, p: Phase, s': Home)
    requires p.Rechecking?
  {
    if Retryable(s, p) && p.attempt + 1 < MAX_ATTEMPTS then
      s' == Move(s, id, Swapping(p.key, p.snap, p.items, Some(s.store[p.key]), p.attempt + 1))
    else
      s' == Move(s, id, Finished(false))
  }

  predicate Retryable(s: Home, p: Phase)
    requires p.Rechecking?
  {
    && p.key in s.store
    && p.snap.Some?
    && !s.store[p.key].deleted
    && s.store[p.key].branch == p.snap.value.branch
    && s.store[p.key].items <= p.items
  }

  ghost predicate RemoveNext(s: Home, id: RequestId, p: Phase, v: Version, acked: bool, s': Home)
    requires p.Removing?
  {
    if Find(s.store, p.key) == p.snap then
      FreshTombstone(s, v) && s' == Write(s, p.key, v, id, Finished(acked))
    else
      s' == Move(s, id, Finished(false))
  }

  /** Invariant */

  /** What a pending swap expects is the snapshot itself or a live version of its branch that the new items extend. */
  ghost predicate ExpectationOk(r: Register, p: Phase)
    requires p.Swapping?
  {
    || p.expected == p.snap
    || (&& p.snap.Some? && p.expected.Some?
        && IsSnapshot(r, p.key, p.expected.value)
        && !p.expected.value.deleted
        && p.expected.value.branch == p.snap.value.branch
        && p.expected.value.items <= p.items)
  }

  ghost predicate PhaseOk(r: Register, p: Phase) {
    match p
    case Holding(key, snap) => snap.Some? ==> IsSnapshot(r, key, snap.value)
    case Swapping(key, snap, _, _, _) => (snap.Some? ==> IsSnapshot(r, key, snap.value)) && ExpectationOk(r, p)
    case Rechecking(key, snap, _, _) => snap.Some? ==> IsSnapshot(r, key, snap.value)
    case Removing(key, snap) => snap.Some? ==> IsSnapshot(r, key, snap.value)
    case _ => true
  }

  ghost predicate PhasesOk(s: Home) {
    forall id | id in s.requests :: PhaseOk(RegisterOf(s), s.requests[id])
  }

  ghost predicate HomeInv(s: Home) {
    Inv(RegisterOf(s)) && PhasesOk(s)
  }

  /** Refinement */

  function ActionOf(s: Home, step: Step): Action {
    match step
    case Reserve(id, v, _) =>
      if id in s.requests && s.requests[id].Reserving? && s.requests[id].key !in s.store then Fresh(s.requests[id].key, v) else Idle
    case Swap(id, v, _) =>
      if Swaps(s, step) then
        var p := s.requests[id];
        if p.snap.Some? then Replace(p.key, p.snap.value, v) else Fresh(p.key, v)
      else Idle
    case SwapTombstone(id, v, _) =>
      if id in s.requests && s.requests[id].Removing? && Find(s.store, s.requests[id].key) == s.requests[id].snap then Fresh(s.requests[id].key, v) else Idle
    case Overwrite(key, v) => Fresh(key, v)
    case _ => Idle
  }

  /** The compare-and-swap of a replace finds what it expects. */
  predicate Swaps(s: Home, step: Step) {
    && step.Swap?
    && step.id in s.requests && s.requests[step.id].Swapping?
    && Find(s.store, s.requests[step.id].key) == s.requests[step.id].expected
  }

  function Dropped(step: Step): set<Key> {
    if step.Expire? then step.keys else {}
  }

  /** A swap that takes effect meets the register's condition for a replace. */
  lemma SwapIsReplace(s: Home, step: Step)
    requires HomeInv(s) && Swaps(s, step) && s.requests[step.id].snap.Some?
    ensures var p := s.requests[step.id];
            IsSnapshot(RegisterOf(s), p.key, p.snap.value) && Replaceable(RegisterOf(s), p.key, p.snap.value, p.items)
  {
    var p := s.requests[step.id];
    assert PhaseOk(RegisterOf(s), p);
  }

  lemma StepRefines(s: Home, step: Step, s': Home)
    requires HomeInv(s) && Next(s, step, s')
    ensures Transact(RegisterOf(s), Dropped(step), ActionOf(s, step), {}, RegisterOf(s'))
  {
    hide Inv, PhasesOk, FreshId, FreshBranch, IsSnapshot;
    var r := RegisterOf(s);
    assert step.Expire? || DropKeys(r, {}) == r;
    assert DropKeys(RegisterOf(s'), {}) == RegisterOf(s');
    if Swaps(s, step) && s.requests[step.id].snap.Some? {
      SwapIsReplace(s, step);
      var p := s.requests[step.id];
      assert ReplaceStep(r, p.key, p.snap.value, step.v, Push(r, p.key, step.v));
    }
  }

  lemma PhaseLasts(r: Register, r': Register, p: Phase)
    requires r.log <= r'.log && PhaseOk(r, p)
    ensures PhaseOk(r', p)
  {
    if (p.Holding? || p.Swapping? || p.Rechecking? || p.Removing?) && p.snap.Some? {
      SnapshotsLast(r, r', p.key, p.snap.value);
    }
    if p.Swapping? && p.expected != p.snap {
      SnapshotsLast(r, r', p.key, p.expected.value);
    }
  }

  lemma StepInv(s: Home, step: Step, s': Home)
    requires HomeInv(s) && Next(s, step, s')
    ensures HomeInv(s') && s.log <= s'.log
  {
    StepRefines(s, step, s');
    var r, r' := RegisterOf(s), RegisterOf(s');
    TransactInv(r, Dropped(step), ActionOf(s, step), {}, r');
    forall id | id in s'.requests
      ensures PhaseOk(r', s'.requests[id])
    {
      if id in s.requests && s'.requests[id] == s.requests[id] {
        PhaseLasts(r, r', s.requests[id]);
      } else {
        MovedPhase(s, step, s', id);
      }
    }
  }

  /** The request that moved is in a sound phase again. */
  lemma MovedPhase(s: Home, step: Step, s': Home, id: RequestId)
    requires PhasesOk(s) && CurrentIsLogged(RegisterOf(s)) && Next(s, step, s') && s.log <= s'.log
    requires id in s'.requests && (id !in s.requests || s'.requests[id] != s.requests[id])
    ensures PhaseOk(RegisterOf(s'), s'.requests[id])
  {
    var r, r' := RegisterOf(s), RegisterOf(s');
    if id in s.requests {
      var p := s.requests[id];
      assert PhaseOk(r, p);
      PhaseLasts(r, r', p);
      if (p.Reading? || p.Rechecking?) && p.key in s.store {
        assert Record(p.key, s.store[p.key]) in s.log;
        SnapshotsLast(r, r', p.key, s.store[p.key]);
      }
      if step.Reserve? && p.Reserving? && p.key !in s.store {
        assert s'.log[|s.log|] == Record(p.key, step.v);
      }
    }
  }

  /** Runs */

  ghost predicate IsRun(states: seq<Home>, steps: seq<Step>) {
    && |states| == |steps| + 1
    && states[0] == Home(map[], [], map[])
    && forall i | 0 <= i < |steps| :: Next(states[i], steps[i], states[i + 1])
  }

  lemma InitialInv()
    ensures HomeInv(Home(map[], [], map[]))
  {
  }

  lemma {:induction false} RunInv(states: seq<Home>, steps: seq<Step>, n: nat)
    requires IsRun(states, steps) && n <= |steps|
    ensures HomeInv(states[n])
  {
    hide Next, HomeInv;
    InitialInv();
    if n > 0 {
      RunInv(states, steps, n - 1);
      StepInv(states[n - 1], steps[n - 1], states[n]);
    }
  }

  lemma {:induction false} RunGrows(states: seq<Home>, steps: seq<Step>, m: nat, n: nat)
    requires IsRun(states, steps) && m <= n <= |steps|
    ensures states[m].log <= states[n].log
  {
    hide Next, HomeInv;
    if m < n {
      RunGrows(states, steps, m, n - 1);
      RunInv(states, steps, n - 1);
      StepInv(states[n - 1], steps[n - 1], states[n]);
    }
  }

  /**
   Under every interleaving, a replace that takes effect overwrote exactly the state its request
   observed, or a live value of the same branch whose items are a prefix of the new ones; what
   the request read is a prefix of what it overwrote, and the branch survives exactly when the
   new items extend what was read.
   */
  lemma SwapOverwritesKnownState(states: seq<Home>, steps: seq<Step>, n: nat)
    requires IsRun(states, steps) && n < |steps| && Swaps(states[n], steps[n])
    ensures var p := states[n].requests[steps[n].id];
            var found := Find(states[n].store, p.key);
            && (found == p.snap
                || (&& found.Some? && p.snap.Some? && !found.value.deleted
                    && found.value.branch == p.snap.value.branch && found.value.items <= p.items))
            && (p.snap.Some? ==>
                  && found.Some? && p.snap.value.items <= found.value.items
                  && (found.value.branch == steps[n].v.branch <==> p.snap.value.items <= p.items))
            && states[n + 1].store[p.key].items == p.items
  {
    RunInv(states, steps, n);
    var s, p := states[n], states[n].requests[steps[n].id];
    assert PhaseOk(RegisterOf(s), p);
    assert Next(s, steps[n], states[n + 1]);
    if p.snap.Some? {
      SwapIsReplace(s, steps[n]);
      ReplaceableSharesBranch(RegisterOf(s), p.key, p.snap.value, p.items);
      OverwrittenIsLogged(s, p.key);
    }
  }

  lemma OverwrittenIsLogged(s: Home, key: Key)
    requires CurrentIsLogged(RegisterOf(s)) && key in s.store
    ensures exists i :: 0 <= i < |s.log| && s.log[i].version.branch == s.store[key].branch
  {
    assert Record(key, s.store[key]) in s.log;
    var i :| 0 <= i < |s.log| && s.log[i] == Record(key, s.store[key]);
    assert s.log[i].version.branch == s.store[key].branch;
  }

  /** A step that expires, overwrites or tombstones `key` whatever anyone read. */
  predicate Invalidates(s: Home, step: Step, key: Key) {
    || (step.Expire? && key in step.keys)
    || (ActionOf(s, step).Fresh? && ActionOf(s, step).key == key)
  }

  lemma StepKeepsDead(s: Home, step: Step, s': Home, key: Key, snap: Version)
    requires HomeInv(s) && Next(s, step, s')
    requires IsSnapshot(RegisterOf(s), key, snap) && Dead(RegisterOf(s), key, snap)
    ensures IsSnapshot(RegisterOf(s'), key, snap) && Dead(RegisterOf(s'), key, snap)
  {
    StepRefines(s, step, s');
    TransactKeepsDead(RegisterOf(s), Dropped(step), ActionOf(s, step), {}, RegisterOf(s'), key, snap);
  }

  lemma InvalidationKills(s: Home, step: Step, s': Home, key: Key, snap: Version)
    requires HomeInv(s) && Next(s, step, s') && IsSnapshot(RegisterOf(s), key, snap)
    requires Invalidates(s, step, key)
    ensures IsSnapshot(RegisterOf(s'), key, snap) && Dead(RegisterOf(s'), key, snap)
  {
    StepRefines(s, step, s');
    TransactKills(RegisterOf(s), Dropped(step), ActionOf(s, step), {}, RegisterOf(s'), key, snap);
  }

  lemma {:induction false} DeadForever(states: seq<Home>, steps: seq<Step>, j: nat, n: nat, key: Key, snap: Version)
    requires IsRun(states, steps) && j <= n <= |steps|
    requires IsSnapshot(RegisterOf(states[j]), key, snap) && Dead(RegisterOf(states[j]), key, snap)
    ensures IsSnapshot(RegisterOf(states[n]), key, snap) && Dead(RegisterOf(states[n]), key, snap)
  {
    hide Next, HomeInv, Dead, IsSnapshot;
    if j < n {
      DeadForever(states, steps, j, n - 1, key, snap);
      RunInv(states, steps, n - 1);
      StepKeepsDead(states[n - 1], steps[n - 1], states[n], key, snap);
    }
  }

  /**
   The Home back end rejects stale snapshots as the local one does: after the key a request read
   expired, was overwritten or was tombstoned, neither its replace nor its delete takes effect.
   */
  lemma StaleRequestNeverSwaps(states: seq<Home>, steps: seq<Step>, i: nat, j: nat, n: nat, id: RequestId, key: Key, snap: Version)
    requires IsRun(states, steps) && i <= j < n < |steps|
    requires id in states[i].requests && states[i].requests[id] == Holding(key, Some(snap))
    requires Invalidates(states[j], steps[j], key)
    requires id in states[n].requests
    requires (states[n].requests[id].Swapping? || states[n].requests[id].Removing?)
    requires states[n].requests[id].key == key && states[n].requests[id].snap == Some(snap)
    ensures steps[n].Swap? && steps[n].id == id ==> !Swaps(states[n], steps[n])
    ensures Find(states[n].store, key) != Some(snap)
    ensures states[n + 1].requests[id] != Finished(true)
  {
    RunInv(states, steps, i);
    RunGrows(states, steps, i, j);
    RunInv(states, steps, j);
    assert PhaseOk(RegisterOf(states[i]), states[i].requests[id]);
    SnapshotsLast(RegisterOf(states[i]), RegisterOf(states[j]), key, snap);
    InvalidationKills(states[j], steps[j], states[j + 1], key, snap);
    DeadForever(states, steps, j + 1, n, key, snap);
    RunInv(states, steps, n);
    assert Next(states[n], steps[n], states[n + 1]);
    if steps[n].Swap? && steps[n].id == id {
      DeadNeverSwaps(states[n], steps[n]);
    }
  }

  lemma DeadNeverSwaps(s: Home, step: Step)
    requires HomeInv(s) && step.Swap? && step.id in s.requests
    requires var p := s.requests[step.id]; p.Swapping? ==> p.snap.Some? && Dead(RegisterOf(s), p.key, p.snap.value)
    ensures !Swaps(s, step)
  {
    if Swaps(s, step) {
      SwapIsReplace(s, step);
    }
  }

  /** The chain law of the local cache holds of the shared store too. */
  lemma BranchesAreChains(states: seq<Home>, steps: seq<Step>, m: nat, n: nat, key: Key)
    requires IsRun(states, steps) && m <= n <= |steps|
    requires key in states[m].store && key in states[n].store
    requires states[m].store[key].branch == states[n].store[key].branch
    ensures states[m].store[key].items <= states[n].store[key].items
  {
    RunInv(states, steps, m);
    RunInv(states, steps, n);
    RunGrows(states, steps, m, n);
    var v := states[m].store[key];
    assert Record(key, RegisterOf(states[m]).current[key]) in states[m].log;
    SnapshotsLast(RegisterOf(states[m]), RegisterOf(states[n]), key, v);
    var i :| 0 <= i < |states[n].log| && states[n].log[i] == Record(key, v);
    assert CurrentIsTip(RegisterOf(states[n]));
  }

  /** What a request gets */

  predicate StepOf(step: Step, id: RequestId) {
    !step.Overwrite? && !step.Expire? && step.id == id
  }

  /** Nobody but the request itself moves it. */
  lemma {:induction false} OthersLeaveRequest(states: seq<Home>, steps: seq<Step>, i: nat, n: nat, id: RequestId)
    requires IsRun(states, steps) && i <= n <= |steps| && id in states[i].requests
    requires forall j | i <= j < n :: !StepOf(steps[j], id)
    ensures id in states[n].requests && states[n].requests[id] == states[i].requests[id]
  {
    if i < n {
      OthersLeaveRequest(states, steps, i, n - 1, id);
      assert Next(states[n - 1], steps[n - 1], states[n]);
    }
  }

  /** A read hands out what the store holds; a miss is fenced with a tombstone if the key is still absent then. */
  lemma ReadHandsOut(states: seq<Home>, steps: seq<Step>, n: nat)
    requires IsRun(states, steps) && n < |steps|
    ensures steps[n].Load? || steps[n].Reserve? ==>
      && steps[n].id in states[n].requests && steps[n].id in states[n + 1].requests
      && (states[n].requests[steps[n].id].Reading? || states[n].requests[steps[n].id].Reserving?)
    ensures steps[n].Load? ==>
      var p, p' := states[n].requests[steps[n].id], states[n + 1].requests[steps[n].id];
      if p.key in states[n].store then p' == Holding(p.key, Some(states[n].store[p.key])) else p'.Reserving? && p'.key == p.key
    ensures steps[n].Reserve? ==>
      var p := states[n].requests[steps[n].id];
      if p.key in states[n].store then states[n + 1].store == states[n].store
      else
        && states[n + 1].store == states[n].store[p.key := steps[n].v] && steps[n].v.deleted && steps[n].v.items == []
        && (steps[n].acked ==> states[n + 1].requests[steps[n].id] == Holding(p.key, Some(steps[n].v)))
  {
    assert Next(states[n], steps[n], states[n + 1]);
  }

  /**
   A replace whose request starts at step `i` and swaps at step `n`, with nothing of its own in
   between: it goes through if and only if the key holds what the request read.
   */
  lemma FirstSwapTakesIff(states: seq<Home>, steps: seq<Step>, i: nat, n: nat)
    requires IsRun(states, steps) && i < n < |steps|
    requires steps[i].StartReplace? && steps[n].Swap? && steps[n].id == steps[i].id
    requires forall j | i < j < n :: !StepOf(steps[j], steps[i].id)
    ensures steps[i].id in states[i].requests && states[i].requests[steps[i].id].Holding? && steps[i].id in states[n + 1].requests
    ensures var id, items, held := steps[i].id, steps[i].items, states[i].requests[steps[i].id];
      if Find(states[n].store, held.key) == held.snap then
           && held.key in states[n + 1].store && states[n + 1].store[held.key].items == items && !states[n + 1].store[held.key].deleted
           && states[n + 1].requests[id] == Finished(steps[n].acked)
         else
           states[n + 1].store == states[n].store && states[n + 1].requests[id] == Rechecking(held.key, held.snap, items, 0)
  {
    assert Next(states[i], steps[i], states[i + 1]);
    OthersLeaveRequest(states, steps, i + 1, n, steps[i].id);
    assert Next(states[n], steps[n], states[n + 1]);
  }

  /**
   After a lost swap the request looks again, and tries once more, against exactly what it finds, if
   and only if that is live, on the branch it read, and a prefix of its items, and it has tried fewer
   than four times.
   */
  lemma RetriesIff(states: seq<Home>, steps: seq<Step>, n: nat)
    requires IsRun(states, steps) && n < |steps| && steps[n].Recheck?
    ensures steps[n].id in states[n].requests && states[n].requests[steps[n].id].Rechecking? && steps[n].id in states[n + 1].requests
    ensures var id := steps[n].id;
      var p, p', found := states[n].requests[id], states[n + 1].requests[id], Find(states[n].store, states[n].requests[id].key);
      p' == if && found.Some? && p.snap.Some? && !found.value.deleted
                  && found.value.branch == p.snap.value.branch && found.value.items <= p.items && p.attempt < 3
               then Swapping(p.key, p.snap, p.items, found, p.attempt + 1) else Finished(false)
  {
    assert Next(states[n], steps[n], states[n + 1]);
  }

  /** Every later swap goes through if and only if the key still holds what the request found last. */
  lemma LaterSwapTakesIff(states: seq<Home>, steps: seq<Step>, i: nat, n: nat)
    requires IsRun(states, steps) && i < n < |steps|
    requires steps[i].Recheck? && steps[n].Swap? && steps[n].id == steps[i].id
    requires forall j | i < j < n :: !StepOf(steps[j], steps[i].id)
    ensures steps[i].id in states[i].requests && states[i].requests[steps[i].id].Rechecking? && steps[i].id in states[n + 1].requests
    ensures var id, p := steps[i].id, states[i].requests[steps[i].id];
      if Find(states[n].store, p.key) == Find(states[i].store, p.key) then
        && p.key in states[n + 1].store && states[n + 1].store[p.key].items == p.items && !states[n + 1].store[p.key].deleted
        && states[n + 1].requests[id] == Finished(steps[n].acked)
      else
        states[n + 1].store == states[n].store && states[n + 1].requests[id] == Rechecking(p.key, p.snap, p.items, p.attempt + 1)
  {
    RetriesIff(states, steps, i);
    OthersLeaveRequest(states, steps, i + 1, n, steps[i].id);
    assert Next(states[i], steps[i], states[i + 1]);
    assert Next(states[n], steps[n], states[n + 1]);
  }

  /** A delete goes through if and only if the key holds what the request read. */
  lemma DeleteTakesIff(states: seq<Home>, steps: seq<Step>, i: nat, n: nat)
    requires IsRun(states, steps) && i < n < |steps|
    requires steps[i].StartRemove? && steps[n].SwapTombstone? && steps[n].id == steps[i].id
    requires forall j | i < j < n :: !StepOf(steps[j], steps[i].id)
    ensures steps[i].id in states[i].requests && states[i].requests[steps[i].id].Holding? && steps[i].id in states[n + 1].requests
    ensures var id, held := steps[i].id, states[i].requests[steps[i].id];
      if Find(states[n].store, held.key) == held.snap then
           && held.key in states[n + 1].store && states[n + 1].store[held.key].deleted && states[n + 1].store[held.key].items == []
           && states[n + 1].requests[id] == Finished(steps[n].acked)
         else
           states[n + 1].store == states[n].store && states[n + 1].requests[id] == Finished(false)
  {
    assert Next(states[i], steps[i], states[i + 1]);
    OthersLeaveRequest(states, steps, i + 1, n, steps[i].id);
    assert Next(states[n], steps[n], states[n + 1]);
  }
}
