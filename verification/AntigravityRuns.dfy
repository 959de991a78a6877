/**
 Whole runs of the local Antigravity cache: any number of requests interleave any operations,
 each conditional operation carrying a snapshot that a get of the same key handed out.  Branch
 tokens are fresh, as 128-bit random tokens are taken to be.
 */
module AntigravityRuns {
  import opened ReplayRegister
  import opened AntigravityLocal

  /** The cache, every version it ever stored, and every snapshot it handed out. */
  datatype System = System(cache: Cache, log: seq<Record>, issued: set<(Key, Snapshot)>)

  datatype Event = Event(op: Op, out: Outcome)

  function VersionOf(e: Entry): Version {
    Version(Revision(e.revision), e.branch, e.deleted, e.items)
  }

  function Abs(c: Cache): map<Key, Version> {
    map k | k in c.entries :: VersionOf(c.entries[k])
  }

  function RegisterOf(s: System): Register {
    Register(Abs(s.cache), s.log)
  }

  function NewVersion(c: Cache, items: seq<Item>, branch: Token, deleted: bool): Version {
    Version(Revision(c.nextRevision + 1), branch, deleted, items)
  }

  /** The version behind a snapshot. */
  function VersionRead(log: seq<Record>, snap: Snapshot): Version
    requires 1 <= snap.revision <= |log|
  {
    log[snap.revision - 1].version
  }

  ghost predicate Backed(log: seq<Record>, key: Key, snap: Snapshot) {
    && snap.loaded && snap.found
    && 1 <= snap.revision <= |log|
    && log[snap.revision - 1].key == key
    && VersionRead(log, snap).branch == snap.branch
    && VersionRead(log, snap).items == snap.items
  }

  predicate Conditional(op: Op) {
    (op.Publish? || op.Discard?) && op.snap.loaded
  }

  /** The register action that an operation performs. */
  function ActionOf(s: System, ev: Event): Action {
    match ev.op
    case Store(key, items, _, branch) =>
      if ev.out.Accepted? then Fresh(key, NewVersion(s.cache, items, branch, false)) else Idle
    case Remove(key, _, branch) => Fresh(key, NewVersion(s.cache, [], branch, true))
    case Get(key, now, branch) =>
      if key in s.cache.entries && !Expired(s.cache.entries[key], now) then Idle
      else Fresh(key, NewVersion(s.cache, [], branch, true))
    case Publish(key, snap, items, _, branch) =>
      if !ev.out.Accepted? then Idle
      else if !snap.loaded then Fresh(key, NewVersion(s.cache, items, branch, false))
      else if 1 <= snap.revision <= |s.log| then
        Replace(key, VersionRead(s.log, snap), NewVersion(s.cache, items, PublishedBranch(s.cache, key, snap, items, branch), false))
      else Idle
    case Discard(key, _, _, branch) =>
      if ev.out.Accepted? then Fresh(key, NewVersion(s.cache, [], branch, true)) else Idle
    case Purge(_, _) => Idle
    case Clear(_) => Idle
  }

  ghost predicate SystemNext(s: System, ev: Event, s': System) {
    && Next(s.cache, ev.op, s'.cache, ev.out)
    && ev.op.branch != "" && FreshBranch(RegisterOf(s), ev.op.branch)
    && (Conditional(ev.op) ==> (ev.op.key, ev.op.snap) in s.issued)
    && s'.log == Apply(RegisterOf(s), ActionOf(s, ev)).log
    && s'.issued == if ev.op.Get? && ev.out.Loaded? then s.issued + {(ev.op.key, ev.out.snap)} else s.issued
  }

  /** Every stored version took the next revision, in order. */
  ghost predicate Numbered(c: Cache, log: seq<Record>) {
    && |log| == c.nextRevision
    && forall i | 0 <= i < |log| ::
         && log[i].version.id == Revision(i + 1)
         && log[i].version.branch != ""
         && (log[i].version.deleted ==> log[i].version.items == [])
  }

  ghost predicate IssuedBacked(s: System) {
    forall p | p in s.issued :: Backed(s.log, p.0, p.1)
  }

  ghost predicate SystemInv(s: System) {
    && Inv(RegisterOf(s))
    && Numbered(s.cache, s.log)
    && IssuedBacked(s)
  }

  /** A run from the empty cache. */
  ghost predicate IsRun(states: seq<System>, events: seq<Event>) {
    && |states| == |events| + 1
    && states[0] == System(Cache(map[], 0, 0), [], {})
    && forall i | 0 <= i < |events| :: SystemNext(states[i], events[i], states[i + 1])
  }

  /** Refinement: every operation is one transaction of the register. */

  lemma AbsPut(c: Cache, key: Key, items: seq<Item>, now: int, branch: Token, deleted: bool)
    ensures Abs(Put(c, key, items, now, branch, deleted)) == Abs(c)[key := NewVersion(c, items, branch, deleted)]
  {
  }

  lemma AbsWithout(c: Cache, keys: set<Key>)
    requires keys <= c.entries.Keys
    ensures Abs(Without(c, keys)) == Abs(c) - keys
  {
  }

  /** An entry is the version that the log holds at its revision. */
  lemma EntryIsLogged(s: System, key: Key)
    requires CurrentIsLogged(RegisterOf(s)) && Numbered(s.cache, s.log) && key in s.cache.entries
    ensures var e := s.cache.entries[key];
            && 1 <= e.revision <= |s.log|
            && s.log[e.revision - 1] == Record(key, VersionOf(e))
    ensures Backed(s.log, key, SnapshotOf(s.cache, key))
  {
    var v := VersionOf(s.cache.entries[key]);
    assert RegisterOf(s).current[key] == v;
    assert Record(key, v) in s.log;
    var i :| 0 <= i < |s.log| && s.log[i] == Record(key, v);
  }

  lemma NextIdIsFresh(s: System, items: seq<Item>, branch: Token, deleted: bool)
    requires Numbered(s.cache, s.log)
    ensures FreshId(RegisterOf(s), NewVersion(s.cache, items, branch, deleted).id)
  {
  }

  /** Writing `key` and trimming the result is one transaction, whatever the action that allows the write. */
  lemma PutRefines(s: System, a: Action, items: seq<Item>, now: int, branch: Token, deleted: bool, victims: set<Key>, c': Cache)
    requires !a.Idle? && a.version == NewVersion(s.cache, items, branch, deleted)
    requires Enabled(RegisterOf(s), a)
    requires victims <= Put(s.cache, a.key, items, now, branch, deleted).entries.Keys
    requires c' == Without(Put(s.cache, a.key, items, now, branch, deleted), victims)
    ensures Transact(RegisterOf(s), {}, a, victims, Register(Abs(c'), s.log + [Record(a.key, a.version)]))
  {
    AbsPut(s.cache, a.key, items, now, branch, deleted);
    AbsWithout(Put(s.cache, a.key, items, now, branch, deleted), victims);
    assert DropKeys(RegisterOf(s), {}) == RegisterOf(s);
  }

  lemma FreshEnabled(s: System, gone: set<Key>, key: Key, items: seq<Item>, branch: Token, deleted: bool)
    requires Numbered(s.cache, s.log) && FreshBranch(RegisterOf(s), branch) && (deleted ==> items == [])
    ensures Enabled(DropKeys(RegisterOf(s), gone), Fresh(key, NewVersion(s.cache, items, branch, deleted)))
  {
    NextIdIsFresh(s, items, branch, deleted);
  }

  lemma FenceRefines(s: System, key: Key, v: Version, gone: set<Key>, now: int, branch: Token, victims: set<Key>, c': Cache)
    requires gone <= s.cache.entries.Keys && victims <= (s.cache.entries - gone).Keys
    requires v == NewVersion(s.cache, [], branch, true)
    requires Enabled(DropKeys(RegisterOf(s), gone + victims), Fresh(key, v))
    requires c' == Put(Without(Without(s.cache, gone), victims), key, [], now, branch, true)
    ensures Transact(RegisterOf(s), gone + victims, Fresh(key, v), {}, Register(Abs(c'), s.log + [Record(key, v)]))
  {
    var r := DropKeys(RegisterOf(s), gone + victims);
    var mid := Without(s.cache, gone);
    AbsWithout(s.cache, gone);
    AbsWithout(mid, victims);
    AbsPut(Without(mid, victims), key, [], now, branch, true);
    assert r.current == Abs(Without(mid, victims));
    assert DropKeys(Push(r, key, v), {}) == Push(r, key, v);
  }

  /** What the code checks is what the register allows. */
  lemma AllowedIsReplaceable(s: System, key: Key, snap: Snapshot, items: seq<Item>)
    requires SystemInv(s) && (key, snap) in s.issued
    ensures Backed(s.log, key, snap) && IsSnapshot(RegisterOf(s), key, VersionRead(s.log, snap))
    ensures MatchesSnapshot(s.cache, key, snap) <==> Matches(RegisterOf(s), key, VersionRead(s.log, snap))
    ensures IsDescendant(s.cache, key, snap, items) <==> Descends(RegisterOf(s), key, VersionRead(s.log, snap), items)
  {
    assert Backed(s.log, (key, snap).0, (key, snap).1);
    assert s.log[snap.revision - 1] == Record(key, VersionRead(s.log, snap));
  }

  /** The branch that the code chooses is the one that the register prescribes. */
  lemma ChosenBranch(s: System, key: Key, snap: Snapshot, items: seq<Item>, branch: Token)
    requires SystemInv(s) && branch != "" && FreshBranch(RegisterOf(s), branch) && (key, snap) in s.issued
    requires MatchesSnapshot(s.cache, key, snap) || IsDescendant(s.cache, key, snap, items)
    ensures Backed(s.log, key, snap)
    ensures var chosen := PublishedBranch(s.cache, key, snap, items, branch);
            if snap.items <= items then chosen == snap.branch else FreshBranch(RegisterOf(s), chosen)
  {
    AllowedIsReplaceable(s, key, snap, items);
    ReplaceableSharesBranch(RegisterOf(s), key, VersionRead(s.log, snap), items);
  }

  lemma PublishEnabled(s: System, key: Key, snap: Snapshot, items: seq<Item>, branch: Token)
    requires SystemInv(s) && branch != "" && FreshBranch(RegisterOf(s), branch) && (key, snap) in s.issued
    requires MatchesSnapshot(s.cache, key, snap) || IsDescendant(s.cache, key, snap, items)
    ensures Backed(s.log, key, snap)
    ensures var v := NewVersion(s.cache, items, PublishedBranch(s.cache, key, snap, items, branch), false);
            Enabled(RegisterOf(s), Replace(key, VersionRead(s.log, snap), v))
  {
    AllowedIsReplaceable(s, key, snap, items);
    ChosenBranch(s, key, snap, items, branch);
    NextIdIsFresh(s, items, branch, false);
  }

  /** The keys that leave the cache are among the dropped ones. */
  ghost predicate Covers(c: Cache, c': Cache, before: set<Key>, after: set<Key>) {
    forall k | k in c.entries && k !in c'.entries :: k in before || k in after
  }

  ghost predicate StepRefined(s: System, ev: Event, s': System, before: set<Key>, after: set<Key>) {
    Transact(RegisterOf(s), before, ActionOf(s, ev), after, RegisterOf(s')) && Covers(s.cache, s'.cache, before, after)
  }

  lemma StoreStepRefines(s: System, ev: Event, s': System, key: Key, items: seq<Item>, now: int, branch: Token, deleted: bool) returns (after: set<Key>)
    requires Numbered(s.cache, s.log) && FreshBranch(RegisterOf(s), branch) && (deleted ==> items == [])
    requires ActionOf(s, ev) == Fresh(key, NewVersion(s.cache, items, branch, deleted))
    requires s'.log == Apply(RegisterOf(s), ActionOf(s, ev)).log
    requires exists victims :: Trimmed(Put(s.cache, key, items, now, branch, deleted), MAX_ENTRIES, victims, s'.cache)
    ensures StepRefined(s, ev, s', {}, after)
  {
    after :| Trimmed(Put(s.cache, key, items, now, branch, deleted), MAX_ENTRIES, after, s'.cache);
    FreshEnabled(s, {}, key, items, branch, deleted);
    assert DropKeys(RegisterOf(s), {}) == RegisterOf(s);
    PutRefines(s, ActionOf(s, ev), items, now, branch, deleted, after, s'.cache);
  }

  lemma GetStepRefines(s: System, ev: Event, s': System) returns (before: set<Key>)
    requires Numbered(s.cache, s.log) && SystemNext(s, ev, s') && ev.op.Get?
    ensures StepRefined(s, ev, s', before, {})
    ensures ev.op.key in s.cache.entries && Expired(s.cache.entries[ev.op.key], ev.op.now) ==> ev.op.key in before
  {
    var Get(key, now, branch) := ev.op;
    before := {};
    assert DropKeys(RegisterOf(s), {}) == RegisterOf(s);
    if key in s.cache.entries && !Expired(s.cache.entries[key], now) {
      assert Abs(s'.cache) == Abs(s.cache);
    } else {
      var gone := {key} * s.cache.entries.Keys;
      var victims :| Fenced(Without(s.cache, gone), key, now, branch, victims, s'.cache);
      before := gone + victims;
      FreshEnabled(s, before, key, [], branch, true);
      FenceRefines(s, key, NewVersion(s.cache, [], branch, true), gone, now, branch, victims, s'.cache);
    }
  }

  lemma PublishStepRefines(s: System, ev: Event, s': System) returns (after: set<Key>)
    requires SystemInv(s) && SystemNext(s, ev, s')
    requires ev.op.Publish? && ev.op.snap.loaded && ev.out == Accepted
    ensures StepRefined(s, ev, s', {}, after)
  {
    var Publish(key, snap, items, now, branch) := ev.op;
    after :| Trimmed(Put(s.cache, key, items, now, PublishedBranch(s.cache, key, snap, items, branch), false), MAX_ENTRIES, after, s'.cache);
    PublishEnabled(s, key, snap, items, branch);
    PutRefines(s, ActionOf(s, ev), items, now, PublishedBranch(s.cache, key, snap, items, branch), false, after, s'.cache);
  }

  lemma DropStepRefines(s: System, ev: Event, s': System) returns (after: set<Key>)
    requires SystemNext(s, ev, s') && (ev.op.Purge? || ev.op.Clear?)
    ensures StepRefined(s, ev, s', {}, after)
  {
    after := if ev.op.Purge? then ExpiredKeys(s.cache, ev.op.now) else s.cache.entries.Keys;
    assert DropKeys(RegisterOf(s), {}) == RegisterOf(s);
    if ev.op.Purge? {
      AbsWithout(s.cache, after);
    } else {
      assert Abs(s'.cache) == Abs(s.cache) - after;
    }
  }

  /** Every operation is one transaction of the register. */
  lemma StepRefines(s: System, ev: Event, s': System) returns (before: set<Key>, after: set<Key>)
    requires SystemInv(s) && SystemNext(s, ev, s')
    ensures StepRefined(s, ev, s', before, after)
    ensures ev.op.Get? && ev.op.key in s.cache.entries && Expired(s.cache.entries[ev.op.key], ev.op.now) ==> ev.op.key in before
  {
    before, after := {}, {};
    if ev.op.Get? {
      before := GetStepRefines(s, ev, s');
    } else if ev.op.Purge? || ev.op.Clear? {
      after := DropStepRefines(s, ev, s');
    } else if ev.out == Rejected {
      assert DropKeys(RegisterOf(s), {}) == RegisterOf(s);
      assert s'.cache == s.cache;
    } else if ev.op.Publish? && ev.op.snap.loaded {
      after := PublishStepRefines(s, ev, s');
    } else if ev.op.Publish? || ev.op.Store? {
      after := StoreStepRefines(s, ev, s', ev.op.key, ev.op.items, ev.op.now, ev.op.branch, false);
    } else {
      after := StoreStepRefines(s, ev, s', ev.op.key, [], ev.op.now, ev.op.branch, true);
    }
  }

  /** An operation takes a revision exactly when it stores a version. */
  lemma RevisionsTaken(s: System, ev: Event, c': Cache)
    requires Next(s.cache, ev.op, c', ev.out)
    requires Conditional(ev.op) ==> 1 <= ev.op.snap.revision <= |s.log|
    ensures c'.nextRevision == s.cache.nextRevision + (if ActionOf(s, ev).Idle? then 0 else 1)
  {
    hide TrimSet, ExpiredKeys, MatchesSnapshot, IsDescendant;
  }

  lemma VersionTaken(s: System, ev: Event)
    requires !ActionOf(s, ev).Idle?
    ensures var v := ActionOf(s, ev).version;
            && v.id == Revision(s.cache.nextRevision + 1)
            && (v.deleted ==> v.items == [])
            && (v.branch == ev.op.branch || (Conditional(ev.op) && ev.op.Publish? && v.branch == ev.op.snap.branch != ""))
  {
  }

  lemma StepNumbers(s: System, ev: Event, s': System)
    requires Numbered(s.cache, s.log) && IssuedBacked(s) && SystemNext(s, ev, s')
    ensures Numbered(s'.cache, s'.log)
  {
    hide Next;
    if Conditional(ev.op) {
      assert Backed(s.log, (ev.op.key, ev.op.snap).0, (ev.op.key, ev.op.snap).1);
    }
    RevisionsTaken(s, ev, s'.cache);
    if !ActionOf(s, ev).Idle? {
      VersionTaken(s, ev);
    }
  }

  /** A get answers with the snapshot of the entry it leaves behind. */
  lemma GetAnswers(c: Cache, op: Op, c': Cache, out: Outcome)
    requires op.Get? && Next(c, op, c', out)
    ensures op.key in c'.entries && out.Loaded? && out.snap == SnapshotOf(c', op.key)
  {
  }

  lemma StepBacks(s: System, ev: Event, s': System)
    requires IssuedBacked(s) && s.log <= s'.log && SystemNext(s, ev, s')
    requires ev.op.Get? ==> CurrentIsLogged(RegisterOf(s')) && Numbered(s'.cache, s'.log)
    ensures IssuedBacked(s') && s.issued <= s'.issued
  {
    hide Next, Numbered, CurrentIsLogged;
    if ev.op.Get? {
      GetAnswers(s.cache, ev.op, s'.cache, ev.out);
      EntryIsLogged(s', ev.op.key);
    }
  }

  lemma StepInv(s: System, ev: Event, s': System)
    requires SystemInv(s) && SystemNext(s, ev, s')
    ensures SystemInv(s') && s.log <= s'.log && s.issued <= s'.issued
  {
    hide SystemNext, Inv, Numbered, IssuedBacked, Transact, ActionOf, Covers;
    var before, after := StepRefines(s, ev, s');
    TransactInv(RegisterOf(s), before, ActionOf(s, ev), after, RegisterOf(s'));
    StepNumbers(s, ev, s');
    StepBacks(s, ev, s');
  }

  lemma InitialInv()
    ensures SystemInv(System(Cache(map[], 0, 0), [], {}))
  {
  }

  /** Every state of every run satisfies the invariant, and logs and snapshots only grow. */
  lemma {:induction false} RunInv(states: seq<System>, events: seq<Event>, n: nat)
    requires IsRun(states, events) && n <= |events|
    ensures SystemInv(states[n])
  {
    hide SystemNext, SystemInv;
    InitialInv();
    if n > 0 {
      RunInv(states, events, n - 1);
      StepInv(states[n - 1], events[n - 1], states[n]);
    }
  }

  lemma {:induction false} RunGrows(states: seq<System>, events: seq<Event>, m: nat, n: nat)
    requires IsRun(states, events) && m <= n <= |events|
    ensures states[m].log <= states[n].log && states[m].issued <= states[n].issued
  {
    hide SystemNext, SystemInv;
    if m < n {
      RunGrows(states, events, m, n - 1);
      RunInv(states, events, n - 1);
      StepInv(states[n - 1], events[n - 1], states[n]);
    }
  }

  /** Stale snapshots */

  /** `ev` deletes, evicts, expires, clears or unconditionally overwrites `key`. */
  predicate Invalidates(c: Cache, ev: Event, c': Cache, key: Key) {
    || (key in c.entries && key !in c'.entries)
    || (ev.op.Get? && ev.op.key == key && key in c.entries && Expired(c.entries[key], ev.op.now))
    || ((ev.op.Store? || ev.op.Remove? || ev.op.Discard?) && ev.op.key == key && ev.out == Accepted)
    || (ev.op.Publish? && !ev.op.snap.loaded && ev.op.key == key && ev.out == Accepted)
  }

  /** An invalidation loses the key or writes it without a snapshot. */
  lemma InvalidationLoses(s: System, ev: Event, s': System, key: Key, before: set<Key>, after: set<Key>)
    requires SystemNext(s, ev, s') && Invalidates(s.cache, ev, s'.cache, key)
    requires Covers(s.cache, s'.cache, before, after)
    requires ev.op.Get? && ev.op.key in s.cache.entries && Expired(s.cache.entries[ev.op.key], ev.op.now) ==> ev.op.key in before
    ensures var a := ActionOf(s, ev); key in before || key in after || (a.Fresh? && a.key == key)
  {
  }

  lemma InvalidationKills(s: System, ev: Event, s': System, key: Key, snap: Snapshot)
    requires SystemInv(s) && SystemNext(s, ev, s') && (key, snap) in s.issued
    requires Invalidates(s.cache, ev, s'.cache, key)
    ensures Backed(s'.log, key, snap) && Dead(RegisterOf(s'), key, VersionRead(s'.log, snap))
  {
    hide SystemNext, Invalidates, Inv, Numbered, Transact, Covers, ActionOf, Dead;
    assert Backed(s.log, (key, snap).0, (key, snap).1);
    var read := VersionRead(s.log, snap);
    assert s.log[snap.revision - 1] == Record(key, read);
    var before, after := StepRefines(s, ev, s');
    InvalidationLoses(s, ev, s', key, before, after);
    TransactKills(RegisterOf(s), before, ActionOf(s, ev), after, RegisterOf(s'), key, read);
    StepInv(s, ev, s');
  }

  lemma StepKeepsDead(s: System, ev: Event, s': System, key: Key, snap: Snapshot)
    requires SystemInv(s) && SystemNext(s, ev, s')
    requires Backed(s.log, key, snap) && Dead(RegisterOf(s), key, VersionRead(s.log, snap))
    ensures Backed(s'.log, key, snap) && Dead(RegisterOf(s'), key, VersionRead(s'.log, snap))
  {
    hide SystemNext, Inv, Numbered, Transact, Covers, ActionOf, Dead;
    var read := VersionRead(s.log, snap);
    assert s.log[snap.revision - 1] == Record(key, read);
    var before, after := StepRefines(s, ev, s');
    TransactKeepsDead(RegisterOf(s), before, ActionOf(s, ev), after, RegisterOf(s'), key, read);
    StepInv(s, ev, s');
  }

  lemma {:induction false} DeadForever(states: seq<System>, events: seq<Event>, j: nat, n: nat, key: Key, snap: Snapshot)
    requires IsRun(states, events) && j <= n <= |events|
    requires Backed(states[j].log, key, snap) && Dead(RegisterOf(states[j]), key, VersionRead(states[j].log, snap))
    ensures Backed(states[n].log, key, snap) && Dead(RegisterOf(states[n]), key, VersionRead(states[n].log, snap))
  {
    hide SystemNext, SystemInv, Dead, Backed;
    if j < n {
      DeadForever(states, events, j, n - 1, key, snap);
      RunInv(states, events, n - 1);
      StepKeepsDead(states[n - 1], events[n - 1], states[n], key, snap);
    }
  }

  /**
   Whatever happens between, once the key was deleted, evicted, expired, cleared or
   unconditionally overwritten after the snapshot was read, no replace or delete carrying that
   snapshot is accepted any more, even after the key is reserved and published again.
   */
  lemma StaleSnapshotRejected(states: seq<System>, events: seq<Event>, i: nat, j: nat, n: nat, key: Key, snap: Snapshot)
    requires IsRun(states, events) && i < j < n < |events|
    requires events[i].op.Get? && events[i].op.key == key && events[i].out.Loaded? && events[i].out.snap == snap
    requires Invalidates(states[j].cache, events[j], states[j + 1].cache, key)
    requires Conditional(events[n].op) && events[n].op.key == key && events[n].op.snap == snap
    ensures events[n].out == Rejected
    ensures states[n + 1].cache == states[n].cache
  {
    hide Next, SystemInv, Invalidates, Dead, Backed;
    assert SystemNext(states[i], events[i], states[i + 1]);
    assert (key, snap) in states[i + 1].issued;
    RunGrows(states, events, i + 1, j);
    RunInv(states, events, j);
    InvalidationKills(states[j], events[j], states[j + 1], key, snap);
    DeadForever(states, events, j + 1, n, key, snap);
    RunInv(states, events, n);
    DeadIsRejected(states[n], events[n], states[n + 1]);
  }

  lemma DeadIsRejected(s: System, ev: Event, s': System)
    requires SystemInv(s) && SystemNext(s, ev, s') && Conditional(ev.op)
    requires Backed(s.log, ev.op.key, ev.op.snap)
    requires Dead(RegisterOf(s), ev.op.key, VersionRead(s.log, ev.op.snap))
    ensures ev.out == Rejected && s'.cache == s.cache
  {
    var key, snap := ev.op.key, ev.op.snap;
    if key in s.cache.entries {
      assert RegisterOf(s).current[key] == VersionOf(s.cache.entries[key]);
    }
  }

  /** Chains */

  /**
   Every two states of a run agree on a branch only along one chain: if a key holds the same
   branch at two moments, the later items extend the earlier ones.
   */
  lemma BranchesAreChains(states: seq<System>, events: seq<Event>, m: nat, n: nat, key: Key)
    requires IsRun(states, events) && m <= n <= |events|
    requires key in states[m].cache.entries && key in states[n].cache.entries
    requires states[m].cache.entries[key].branch == states[n].cache.entries[key].branch
    ensures states[m].cache.entries[key].items <= states[n].cache.entries[key].items
  {
    RunInv(states, events, m);
    RunInv(states, events, n);
    RunGrows(states, events, m, n);
    EntryIsLogged(states[m], key);
    var e := states[m].cache.entries[key];
    assert states[n].log[e.revision - 1] == Record(key, VersionOf(e));
    assert CurrentIsTip(RegisterOf(states[n]));
    assert RegisterOf(states[n]).current[key] == VersionOf(states[n].cache.entries[key]);
  }

  /** Revision order is chain order: of two versions ever stored under one key and branch, the newer extends the older. */
  lemma RevisionsFormChains(states: seq<System>, events: seq<Event>, n: nat, a: nat, b: nat)
    requires IsRun(states, events) && n <= |events|
    requires 0 <= a < b < |states[n].log|
    requires states[n].log[a].key == states[n].log[b].key && states[n].log[a].version.branch == states[n].log[b].version.branch
    ensures states[n].log[a].version.id.Revision? && states[n].log[b].version.id.Revision?
    ensures states[n].log[a].version.id.n < states[n].log[b].version.id.n
    ensures states[n].log[a].version.items <= states[n].log[b].version.items
  {
    RunInv(states, events, n);
  }

  /** A replace accepted on an entry that moved on keeps every item that is there and every item its request read. */
  lemma AcceptedReplaceDropsNothing(states: seq<System>, events: seq<Event>, n: nat)
    requires IsRun(states, events) && n < |events|
    requires events[n].op.Publish? && events[n].op.snap.loaded && events[n].out == Accepted
    ensures var key, snap, items, c := events[n].op.key, events[n].op.snap, events[n].op.items, states[n].cache;
            && key in c.entries
            && snap.items <= c.entries[key].items
            && c.entries[key].branch == snap.branch
            && (c.entries[key].revision != snap.revision ==> c.entries[key].items <= items && snap.items <= items)
            && (c.entries[key].revision == snap.revision ==> c.entries[key].items == snap.items)
  {
    RunInv(states, events, n);
    ReplaceDropsNothing(states[n], events[n], states[n + 1]);
  }

  lemma ReplaceDropsNothing(s: System, ev: Event, s': System)
    requires SystemInv(s) && SystemNext(s, ev, s')
    requires ev.op.Publish? && ev.op.snap.loaded && ev.out == Accepted
    ensures ev.op.key in s.cache.entries
    ensures var e, snap := s.cache.entries[ev.op.key], ev.op.snap;
            && snap.items <= e.items
            && e.branch == snap.branch
            && (e.revision != snap.revision ==> e.items <= ev.op.items && snap.items <= ev.op.items)
            && (e.revision == snap.revision ==> e.items == snap.items)
  {
    var r, key, snap := RegisterOf(s), ev.op.key, ev.op.snap;
    AllowedIsReplaceable(s, key, snap, ev.op.items);
    var read := VersionRead(s.log, snap);
    ReplaceableSharesBranch(r, key, read, ev.op.items);
    assert r.current[key] == VersionOf(s.cache.entries[key]);
    if Matches(r, key, read) {
      MatchIsSnapshot(r, key, read);
    }
  }
}
