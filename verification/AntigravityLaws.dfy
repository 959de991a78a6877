/**
 What a caller of the local Antigravity cache can count on: when a conditional operation goes
 through, what a get answers and for how long, what is lost and why, and how large the cache
 grows.  Everything is said about runs, in terms of entries, snapshots and event times.
 */
module AntigravityLaws {
  import opened ReplayRegister
  import opened Eviction
  import opened AntigravityLocal
  import opened AntigravityRuns

  const HOUR: int := 3_600_000_000_000
  const LIMIT: nat := 10_240

  /** What a trimmed write leaves */

  /** `key` was written with `e`; if the cache was full, a batch of the oldest entries went. */
  ghost predicate Written(m: map<Key, Entry>, key: Key, e: Entry, m': map<Key, Entry>) {
    && (key in m' ==> m'[key] == e)
    && (forall k | k in m' && k != key :: k in m && m'[k] == m[k])
    && (forall k | (k in m || k == key) && k !in m' :: EvictedFrom(m[key := e], k, m'))
    && (|m[key := e]| <= LIMIT ==> m' == m[key := e])
    && |m'| <= LIMIT
  }

  /** `k` went from a map over the limit, and nothing that stays is older. */
  ghost predicate EvictedFrom(m: map<Key, Entry>, k: Key, m': map<Key, Entry>) {
    k in m && |m| > LIMIT && forall x | x in m' && x in m :: m[k].timestamp <= m[x].timestamp
  }

  lemma TrimmedMeans(c: Cache, limit: nat, victims: set<Key>, c': Cache)
    requires Trimmed(c, limit, victims, c')
    ensures c'.entries == c.entries - victims && victims <= c.entries.Keys
    ensures |c.entries| <= limit ==> victims == {}
    ensures |c.entries| > limit ==> |c'.entries| == |c.entries| - Min(EVICT_BATCH, |c.entries|)
    ensures forall v, k | v in victims && k in c'.entries :: c.entries[v].timestamp <= c.entries[k].timestamp
  {
    var stamps := Timestamps(c.entries);
    assert stamps.Keys == c.entries.Keys;
    assert |stamps.Keys| == |stamps| && |c.entries.Keys| == |c.entries|;
    assert c'.entries.Keys == c.entries.Keys - victims && |c'.entries.Keys| == |c'.entries|;
    forall v, k | v in victims && k in c'.entries ensures c.entries[v].timestamp <= c.entries[k].timestamp {
      assert stamps[v] <= stamps[k];
    }
  }

  lemma PutCount(m: map<Key, Entry>, key: Key, e: Entry)
    ensures |m[key := e]| == |m| + if key in m then 0 else 1
  {
    assert m[key := e].Keys == m.Keys + {key};
    assert |m[key := e].Keys| == |m[key := e]| && |m.Keys| == |m|;
  }

  lemma WriteMeans(m: map<Key, Entry>, key: Key, e: Entry, victims: set<Key>, m': map<Key, Entry>)
    requires |m| <= LIMIT && m' == m[key := e] - victims
    requires |m[key := e]| <= LIMIT ==> victims == {}
    requires |m[key := e]| > LIMIT ==> |m'| <= LIMIT
    requires forall v, k | v in victims && k in m' :: v in m[key := e] && m[key := e][v].timestamp <= m[key := e][k].timestamp
    ensures Written(m, key, e, m')
  {
    var put := m[key := e];
    forall k | (k in m || k == key) && k !in m' ensures EvictedFrom(put, k, m') {
      assert k in victims;
    }
    assert victims == {} ==> m' == put;
  }

  lemma PutIsWritten(c: Cache, key: Key, items: seq<Item>, now: int, branch: Token, deleted: bool, victims: set<Key>, c': Cache)
    requires |c.entries| <= LIMIT
    requires Trimmed(Put(c, key, items, now, branch, deleted), LIMIT, victims, c')
    ensures Written(c.entries, key, Entry(items, now, c.nextRevision + 1, branch, deleted), c'.entries)
  {
    hide Trimmed, Written;
    var put, e := Put(c, key, items, now, branch, deleted), Entry(items, now, c.nextRevision + 1, branch, deleted);
    TrimmedMeans(put, LIMIT, victims, c');
    PutCount(c.entries, key, e);
    WriteMeans(c.entries, key, e, victims, c'.entries);
  }

  /** A get that misses leaves a tombstone; if the cache was full without the key, a batch of the oldest entries went first. */
  ghost predicate Missed(m: map<Key, Entry>, key: Key, now: int, m': map<Key, Entry>) {
    && key in m' && m'[key].deleted && m'[key].items == [] && m'[key].timestamp == now
    && (forall k | k in m' && k != key :: k in m && m'[k] == m[k])
    && (forall k | k in m && k !in m' ::
          && |m - {key}| >= LIMIT
          && forall x | x in m' && x != key :: m[k].timestamp <= m[x].timestamp)
    && |m'| <= LIMIT
  }

  lemma FencedIsMissed(c: Cache, key: Key, now: int, branch: Token, victims: set<Key>, c': Cache)
    requires |c.entries| <= LIMIT
    requires Fenced(Without(c, {key} * c.entries.Keys), key, now, branch, victims, c')
    ensures Missed(c.entries, key, now, c'.entries)
  {
    hide AreOldest, Missed;
    var base := Without(c, {key} * c.entries.Keys);
    assert base.entries == c.entries - {key};
    var kept := Without(base, victims);
    assert Trimmed(base, LIMIT - 1, victims, kept);
    TrimmedMeans(base, LIMIT - 1, victims, kept);
    PutCount(kept.entries, key, c'.entries[key]);
    assert |c.entries - {key}| <= |c.entries| by {
      assert (c.entries - {key}).Keys == c.entries.Keys - {key};
      assert |(c.entries - {key}).Keys| == |c.entries - {key}| && |c.entries.Keys| == |c.entries|;
    }
    MissMeans(c.entries, key, now, c'.entries[key], victims, c'.entries);
  }

  lemma MissMeans(m: map<Key, Entry>, key: Key, now: int, e: Entry, victims: set<Key>, m': map<Key, Entry>)
    requires e.deleted && e.items == [] && e.timestamp == now && |m'| <= LIMIT
    requires m' == (m - {key} - victims)[key := e] && victims <= (m - {key}).Keys
    requires |m - {key}| <= LIMIT - 1 ==> victims == {}
    requires forall v, k | v in victims && k in m - {key} - victims :: m[v].timestamp <= m[k].timestamp
    ensures Missed(m, key, now, m')
  {
    var base := m - {key};
    assert forall k | k in m && k !in m' :: k in victims;
    assert forall x | x in m' && x != key :: x in base - victims && m'[x] == m[x];
  }

  /** The laws of one step, for a conditional operation whose snapshot a get handed out */

  /** The entry still has the snapshot's revision, or is live, on its branch, and a prefix of the new items. */
  predicate MayReplace(m: map<Key, Entry>, key: Key, revision: nat, branch: Token, items: seq<Item>) {
    && key in m
    && (|| m[key].revision == revision
        || (!m[key].deleted && m[key].branch == branch && m[key].items <= items))
  }

  /** The token an operation draws is none that a snapshot carries. */
  lemma BranchIsFresh(s: System, ev: Event, s': System)
    requires SystemInv(s) && SystemNext(s, ev, s') && Conditional(ev.op)
    ensures ev.op.branch != ev.op.snap.branch
  {
    assert Backed(s.log, (ev.op.key, ev.op.snap).0, (ev.op.key, ev.op.snap).1);
    assert RegisterOf(s).log[ev.op.snap.revision - 1].version.branch == ev.op.snap.branch;
  }

  lemma PublishLaw(s: System, ev: Event, s': System)
    requires SystemInv(s) && SystemNext(s, ev, s') && |s.cache.entries| <= LIMIT
    requires ev.op.Publish? && ev.op.snap.loaded && ev.op.items != []
    ensures ev.out == Accepted <==> MayReplace(s.cache.entries, ev.op.key, ev.op.snap.revision, ev.op.snap.branch, ev.op.items)
    ensures ev.out == Accepted ==> exists e: Entry ::
      && e.items == ev.op.items && !e.deleted && e.timestamp == ev.op.now && e.revision == s.cache.nextRevision + 1
      && (e.branch == ev.op.snap.branch <==> ev.op.snap.items <= ev.op.items)
      && Written(s.cache.entries, ev.op.key, e, s'.cache.entries)
    ensures ev.out != Accepted ==> ev.out == Rejected && s'.cache == s.cache
  {
    hide Trimmed, Written, Inv, FreshBranch;
    var op, c := ev.op, s.cache;
    assert Backed(s.log, (op.key, op.snap).0, (op.key, op.snap).1);
    assert s.log[op.snap.revision - 1].version.branch != "";
    if ev.out == Accepted {
      ReplaceDropsNothing(s, ev, s');
      var branch := PublishedBranch(c, op.key, op.snap, op.items, op.branch);
      assert branch == op.snap.branch <==> op.snap.items <= op.items by {
        BranchIsFresh(s, ev, s');
      }
      var victims :| Trimmed(Put(c, op.key, op.items, op.now, branch, false), LIMIT, victims, s'.cache);
      PutIsWritten(c, op.key, op.items, op.now, branch, false, victims, s'.cache);
    }
  }

  lemma DiscardLaw(s: System, ev: Event, s': System)
    requires SystemInv(s) && SystemNext(s, ev, s') && |s.cache.entries| <= LIMIT
    requires ev.op.Discard? && ev.op.snap.loaded
    ensures ev.out == Accepted <==> ev.op.key in s.cache.entries && s.cache.entries[ev.op.key].revision == ev.op.snap.revision
    ensures ev.out == Accepted ==> exists e: Entry ::
      && e.items == [] && e.deleted && e.timestamp == ev.op.now
      && Written(s.cache.entries, ev.op.key, e, s'.cache.entries)
    ensures ev.out != Accepted ==> ev.out == Rejected && s'.cache == s.cache
  {
    hide Trimmed, Written, Inv, FreshBranch;
    var op, c := ev.op, s.cache;
    assert Backed(s.log, (op.key, op.snap).0, (op.key, op.snap).1);
    if ev.out == Accepted {
      var victims :| Trimmed(Put(c, op.key, [], op.now, op.branch, true), LIMIT, victims, s'.cache);
      PutIsWritten(c, op.key, [], op.now, op.branch, true, victims, s'.cache);
    }
  }

  /** An operation that carries no snapshot: it writes unless there is nothing to write. */
  lemma PlainLaw(c: Cache, op: Op, c': Cache, out: Outcome)
    requires Next(c, op, c', out) && |c.entries| <= LIMIT
    requires op.Store? || op.Remove? || ((op.Publish? || op.Discard?) && !op.snap.loaded)
    ensures (op.Store? || op.Publish?) && op.items == [] ==> out == Rejected && c' == c
    ensures (op.Store? || op.Publish?) && op.items != [] ==> out == Accepted && exists e: Entry ::
      e.items == op.items && !e.deleted && e.timestamp == op.now && Written(c.entries, op.key, e, c'.entries)
    ensures op.Remove? || op.Discard? ==> out == Accepted && exists e: Entry ::
      e.items == [] && e.deleted && e.timestamp == op.now && Written(c.entries, op.key, e, c'.entries)
  {
    hide Trimmed, Written;
    if op.Remove? || op.Discard? {
      var victims :| Trimmed(Put(c, op.key, [], op.now, op.branch, true), LIMIT, victims, c');
      PutIsWritten(c, op.key, [], op.now, op.branch, true, victims, c');
    } else if op.items != [] {
      var victims :| Trimmed(Put(c, op.key, op.items, op.now, op.branch, false), LIMIT, victims, c');
      PutIsWritten(c, op.key, op.items, op.now, op.branch, false, victims, c');
    }
  }

  lemma GetLaw(c: Cache, op: Op, c': Cache, out: Outcome)
    requires Next(c, op, c', out) && op.Get? && |c.entries| <= LIMIT
    ensures out.Loaded? && op.key in c'.entries && out.snap.revision == c'.entries[op.key].revision && out.snap.branch == c'.entries[op.key].branch
    ensures var m, key := c.entries, op.key;
      if key in m && op.now - m[key].timestamp <= HOUR then
        && c'.entries == m[key := m[key].(timestamp := op.now)]
        && out.live == (!m[key].deleted && m[key].items != [])
        && (out.live ==> out.snap.items == m[key].items)
      else
        !out.live && out.snap.items == [] && Missed(m, key, op.now, c'.entries)
  {
    hide Fenced, Missed;
    var m, key := c.entries, op.key;
    if !(key in m && op.now - m[key].timestamp <= HOUR) {
      var victims :| Fenced(Without(c, {key} * c.entries.Keys), key, op.now, op.branch, victims, c');
      FencedIsMissed(c, key, op.now, op.branch, victims, c');
      MissedMeans(m, key, op.now, c'.entries);
    }
  }

  lemma MissedMeans(m: map<Key, Entry>, key: Key, now: int, m': map<Key, Entry>)
    requires Missed(m, key, now, m')
    ensures key in m' && m'[key].items == [] && m'[key].deleted
  {}

  lemma PurgeLaw(c: Cache, op: Op, c': Cache, out: Outcome)
    requires Next(c, op, c', out) && op.Purge?
    ensures out == Accepted
    ensures forall k :: k in c'.entries <==> k in c.entries && op.now - c.entries[k].timestamp <= HOUR
    ensures forall k | k in c'.entries :: c'.entries[k] == c.entries[k]
  {}

  lemma ClearLaw(c: Cache, op: Op, c': Cache, out: Outcome)
    requires Next(c, op, c', out) && op.Clear?
    ensures out == Accepted && c'.entries == map[] && c'.nextRevision == c.nextRevision
  {}

  /** No operation takes the cache over its limit. */
  lemma StepBounded(c: Cache, op: Op, c': Cache, out: Outcome)
    requires Next(c, op, c', out) && |c.entries| <= LIMIT
    ensures |c'.entries| <= LIMIT
  {
    hide Trimmed, Fenced, Written, Missed;
    match op
    case Get(key, now, branch) =>
      GetLaw(c, op, c', out);
      if key in c.entries && now - c.entries[key].timestamp <= HOUR {
        PutCount(c.entries, key, c.entries[key].(timestamp := now));
      } else {
        MissedBounded(c.entries, key, now, c'.entries);
      }
    case Purge(now, _) => Smaller(c.entries, ExpiredKeys(c, now));
    case Clear(_) =>
    case Publish(key, snap, items, now, branch) =>
      if out == Accepted && snap.loaded {
        var chosen := PublishedBranch(c, key, snap, items, branch);
        var victims :| Trimmed(Put(c, key, items, now, chosen, false), LIMIT, victims, c');
        PutIsWritten(c, key, items, now, chosen, false, victims, c');
        WrittenBounded(c.entries, key, Entry(items, now, c.nextRevision + 1, chosen, false), c'.entries);
      } else if !snap.loaded {
        PlainBounded(c, op, c', out);
      }
    case Discard(key, snap, now, branch) =>
      if out == Accepted {
        var victims :| Trimmed(Put(c, key, [], now, branch, true), LIMIT, victims, c');
        PutIsWritten(c, key, [], now, branch, true, victims, c');
        WrittenBounded(c.entries, key, Entry([], now, c.nextRevision + 1, branch, true), c'.entries);
      }
    case Store(_, _, _, _) => PlainBounded(c, op, c', out);
    case Remove(_, _, _) => PlainBounded(c, op, c', out);
  }

  lemma PlainBounded(c: Cache, op: Op, c': Cache, out: Outcome)
    requires Next(c, op, c', out) && |c.entries| <= LIMIT
    requires op.Store? || op.Remove? || (op.Publish? && !op.snap.loaded)
    ensures |c'.entries| <= LIMIT
  {
    hide Next;
    PlainLaw(c, op, c', out);
  }

  lemma WrittenBounded(m: map<Key, Entry>, key: Key, e: Entry, m': map<Key, Entry>)
    requires Written(m, key, e, m')
    ensures |m'| <= LIMIT
  {}

  lemma MissedBounded(m: map<Key, Entry>, key: Key, now: int, m': map<Key, Entry>)
    requires Missed(m, key, now, m')
    ensures |m'| <= LIMIT
  {}

  lemma Smaller(m: map<Key, Entry>, keys: set<Key>)
    ensures |m - keys| <= |m|
  {
    assert (m - keys).Keys == m.Keys - keys;
    assert |(m - keys).Keys| == |m - keys| && |m.Keys| == |m|;
    assert m.Keys == (m.Keys - keys) + (m.Keys * keys);
  }

  lemma {:induction false} RunBounded(states: seq<System>, events: seq<Event>, n: nat)
    requires IsRun(states, events) && n <= |events|
    ensures |states[n].cache.entries| <= LIMIT
  {
    hide Next;
    if n > 0 {
      RunBounded(states, events, n - 1);
      assert SystemNext(states[n - 1], events[n - 1], states[n]);
      StepBounded(states[n - 1].cache, events[n - 1].op, states[n].cache, events[n - 1].out);
    }
  }

  lemma WrittenKey(m: map<Key, Entry>, key: Key, e: Entry, m': map<Key, Entry>)
    requires Written(m, key, e, m')
    ensures key in m' ==> m'[key] == e
    ensures key !in m' ==> |m[key := e]| > LIMIT && forall x | x in m' :: e.timestamp <= m'[x].timestamp
    ensures |m| < LIMIT ==> m' == m[key := e]
  {
    PutCount(m, key, e);
  }

  /** Over runs */

  /**
   A conditional replace is accepted if and only if the entry still has the revision that was
   read, or is live, on the branch that was read, and a prefix of the new items.  Afterwards
   the key holds exactly the new items, under a new revision and on the branch that was read exactly
   if they extend what was read, unless a full cache evicted it with nothing older staying.
   */
  lemma ReplaceAcceptedIff(states: seq<System>, events: seq<Event>, n: nat)
    requires IsRun(states, events) && n < |events|
    requires events[n].op.Publish? && events[n].op.snap.loaded && events[n].op.items != []
    ensures var op, m, m' := events[n].op, states[n].cache.entries, states[n + 1].cache.entries;
      && (events[n].out == Accepted <==>
        op.key in m && (m[op.key].revision == op.snap.revision
          || (!m[op.key].deleted && m[op.key].branch == op.snap.branch && m[op.key].items <= op.items)))
      && (events[n].out != Accepted ==> events[n].out == Rejected && m' == m)
      && (events[n].out == Accepted && op.key in m' ==>
        && m'[op.key].items == op.items && !m'[op.key].deleted && m'[op.key].timestamp == op.now
        && m'[op.key].revision == states[n].cache.nextRevision + 1
        && (m'[op.key].branch == op.snap.branch <==> op.snap.items <= op.items))
      && (events[n].out == Accepted && op.key !in m' ==> |m| >= LIMIT && forall x | x in m' :: op.now <= m'[x].timestamp)
      && (events[n].out == Accepted && |m| < LIMIT ==> op.key in m')
  {
    hide SystemNext, SystemInv;
    RunInv(states, events, n);
    RunBounded(states, events, n);
    PublishLaw(states[n], events[n], states[n + 1]);
    var op, m, m' := events[n].op, states[n].cache.entries, states[n + 1].cache.entries;
    if events[n].out == Accepted {
      var e: Entry :|
        && e.items == op.items && !e.deleted && e.timestamp == op.now && e.revision == states[n].cache.nextRevision + 1
        && (e.branch == op.snap.branch <==> op.snap.items <= op.items)
        && Written(m, op.key, e, m');
      WrittenKey(m, op.key, e, m');
    }
  }

  /** A conditional delete is accepted if and only if the entry still has the revision that was read. */
  lemma DeleteAcceptedIff(states: seq<System>, events: seq<Event>, n: nat)
    requires IsRun(states, events) && n < |events|
    requires events[n].op.Discard? && events[n].op.snap.loaded
    ensures var op, m, m' := events[n].op, states[n].cache.entries, states[n + 1].cache.entries;
      && (events[n].out == Accepted <==> op.key in m && m[op.key].revision == op.snap.revision)
      && (events[n].out != Accepted ==> events[n].out == Rejected && m' == m)
      && (events[n].out == Accepted && op.key in m' ==> m'[op.key].items == [] && m'[op.key].deleted)
  {
    hide SystemNext, SystemInv;
    RunInv(states, events, n);
    RunBounded(states, events, n);
    DiscardLaw(states[n], events[n], states[n + 1]);
    var op, m, m' := events[n].op, states[n].cache.entries, states[n + 1].cache.entries;
    if events[n].out == Accepted {
      var e: Entry :| e.items == [] && e.deleted && e.timestamp == op.now && Written(m, op.key, e, m');
      WrittenKey(m, op.key, e, m');
    }
  }

  /** What a get answers, and for how long */

  predicate Writes(ev: Event, key: Key) {
    (ev.op.Store? || ev.op.Publish? || ev.op.Remove? || ev.op.Discard?) && ev.op.key == key && ev.out == Accepted
  }

  /** What an accepted write leaves under its key: items, or a tombstone. */
  function ItemsOf(op: Op): seq<Item> {
    if op.Store? || op.Publish? then op.items else []
  }

  /** When `key`, written at `start`, was last written or read before event `n`. */
  function LastUse(events: seq<Event>, from: nat, n: nat, key: Key, start: int): int
    requires n <= |events|
    decreases n
  {
    if n <= from then start
    else if events[n - 1].op.Get? && events[n - 1].op.key == key then events[n - 1].op.now
    else LastUse(events, from, n - 1, key, start)
  }

  /** The event does not write the key, leaves it in the cache, and comes in time if it is a get of it. */
  predicate Spares(ev: Event, s': System, key: Key, last: int) {
    !Writes(ev, key) && key in s'.cache.entries && (ev.op.Get? && ev.op.key == key ==> ev.op.now - last <= HOUR)
  }

  ghost predicate Undisturbed(states: seq<System>, events: seq<Event>, from: nat, n: nat, key: Key, start: int)
    requires |states| == |events| + 1 && n <= |events|
  {
    forall j | from <= j < n :: Spares(events[j], states[j + 1], key, LastUse(events, from, j, key, start))
  }

  /** `key` holds `items`, live or as a tombstone, last used at `last`. */
  predicate Holds(m: map<Key, Entry>, key: Key, items: seq<Item>, deleted: bool, last: int) {
    key in m && m[key].items == items && m[key].deleted == deleted && m[key].timestamp == last
  }

  lemma WriteHolds(s: System, ev: Event, s': System, key: Key)
    requires SystemInv(s) && SystemNext(s, ev, s') && Writes(ev, key) && |s.cache.entries| <= LIMIT
    ensures key in s'.cache.entries ==> Holds(s'.cache.entries, key, ItemsOf(ev.op), ev.op.Remove? || ev.op.Discard?, ev.op.now)
    ensures (ev.op.Store? || ev.op.Publish?) ==> ev.op.items != []
    ensures forall k | k in s'.cache.entries && k != key :: k in s.cache.entries && s'.cache.entries[k] == s.cache.entries[k]
  {
    hide Written, Trimmed, Inv;
    var op, m, m' := ev.op, s.cache.entries, s'.cache.entries;
    var items, deleted := ItemsOf(op), op.Remove? || op.Discard?;
    var e: Entry;
    if (op.Publish? || op.Discard?) && op.snap.loaded {
      if op.Publish? {
        PublishLaw(s, ev, s');
        e :| e.items == op.items && !e.deleted && e.timestamp == op.now && Written(m, key, e, m');
      } else {
        DiscardLaw(s, ev, s');
        e :| e.items == [] && e.deleted && e.timestamp == op.now && Written(m, key, e, m');
      }
    } else {
      PlainLaw(s.cache, op, s'.cache, ev.out);
      e :| e.items == items && e.deleted == deleted && e.timestamp == op.now && Written(m, key, e, m');
    }
    WrittenFrame(m, key, e, m');
  }

  lemma WrittenFrame(m: map<Key, Entry>, key: Key, e: Entry, m': map<Key, Entry>)
    requires Written(m, key, e, m')
    ensures key in m' ==> m'[key] == e
    ensures forall k | k in m' && k != key :: k in m && m'[k] == m[k]
  {}

  /** An event that spares the key leaves it as it is; a get refreshes it. */
  lemma SparedHolds(s: System, ev: Event, s': System, key: Key, items: seq<Item>, deleted: bool, last: int)
    requires SystemInv(s) && SystemNext(s, ev, s') && |s.cache.entries| <= LIMIT && Spares(ev, s', key, last)
    requires Holds(s.cache.entries, key, items, deleted, last)
    ensures Holds(s'.cache.entries, key, items, deleted, if ev.op.Get? && ev.op.key == key then ev.op.now else last)
  {
    hide Written, Missed, Trimmed, Inv, Fenced;
    var op, c, c' := ev.op, s.cache, s'.cache;
    if op.Get? {
      GetLaw(c, op, c', ev.out);
      if op.key != key && !(op.key in c.entries && op.now - c.entries[op.key].timestamp <= HOUR) {
        MissedFrame(c.entries, op.key, op.now, c'.entries);
      }
    } else if op.Purge? {
      PurgeLaw(c, op, c', ev.out);
    } else if Writes(ev, op.key) {
      WriteHolds(s, ev, s', op.key);
    } else {
      RefusedChangesNothing(s, ev, s');
    }
  }

  lemma MissedFrame(m: map<Key, Entry>, key: Key, now: int, m': map<Key, Entry>)
    requires Missed(m, key, now, m')
    ensures forall k | k in m' && k != key :: k in m && m'[k] == m[k]
  {}

  lemma RefusedChangesNothing(s: System, ev: Event, s': System)
    requires SystemInv(s) && SystemNext(s, ev, s') && |s.cache.entries| <= LIMIT
    requires (ev.op.Store? || ev.op.Publish? || ev.op.Remove? || ev.op.Discard?) && ev.out != Accepted
    ensures s'.cache == s.cache
  {
    hide Written, Trimmed, Inv;
    if (ev.op.Publish? || ev.op.Discard?) && ev.op.snap.loaded {
      if ev.op.Discard? {
        DiscardLaw(s, ev, s');
      } else if ev.op.items != [] {
        PublishLaw(s, ev, s');
      }
    } else {
      PlainLaw(s.cache, ev.op, s'.cache, ev.out);
    }
  }

  lemma LastUndisturbed(states: seq<System>, events: seq<Event>, from: nat, n: nat, key: Key, start: int)
    requires |states| == |events| + 1 && from < n <= |events| && Undisturbed(states, events, from, n, key, start)
    ensures Undisturbed(states, events, from, n - 1, key, start)
    ensures Spares(events[n - 1], states[n], key, LastUse(events, from, n - 1, key, start))
  {
    hide Spares, LastUse;
    assert Spares(events[n - 1], states[n - 1 + 1], key, LastUse(events, from, n - 1, key, start));
  }

  lemma {:induction false} StillHolds(states: seq<System>, events: seq<Event>, from: nat, n: nat, key: Key, items: seq<Item>, deleted: bool, start: int)
    requires IsRun(states, events) && from <= n <= |events|
    requires Holds(states[from].cache.entries, key, items, deleted, start)
    requires Undisturbed(states, events, from, n, key, start)
    ensures Holds(states[n].cache.entries, key, items, deleted, LastUse(events, from, n, key, start))
    decreases n
  {
    hide SystemNext, SystemInv, Holds, Spares, Undisturbed;
    if n > from {
      LastUndisturbed(states, events, from, n, key, start);
      StillHolds(states, events, from, n - 1, key, items, deleted, start);
      RunInv(states, events, n - 1);
      RunBounded(states, events, n - 1);
      SparedHolds(states[n - 1], events[n - 1], states[n], key, items, deleted, LastUse(events, from, n - 1, key, start));
    }
  }

  /**
   What was stored or published is what a get returns, at any time up to HOUR after the last write
   or read of the key, and no longer; what was deleted is not returned.  In between the key is
   neither written nor lost; `LostOnlyTo` says to what it can be lost.
   */
  lemma ReadAnswers(states: seq<System>, events: seq<Event>, i: nat, n: nat, key: Key)
    requires IsRun(states, events) && i < n < |events|
    requires Writes(events[i], key) && key in states[i + 1].cache.entries
    requires Undisturbed(states, events, i + 1, n, key, events[i].op.now)
    requires events[n].op.Get? && events[n].op.key == key
    ensures var inTime := events[n].op.now - LastUse(events, i + 1, n, key, events[i].op.now) <= HOUR;
      && events[n].out.Loaded?
      && (events[n].out.live <==> inTime && (events[i].op.Store? || events[i].op.Publish?))
      && events[n].out.snap.items == if events[n].out.live then events[i].op.items else []
  {
    hide SystemInv, Undisturbed;
    var op := events[i].op;
    RunInv(states, events, i);
    RunBounded(states, events, i);
    assert SystemNext(states[i], events[i], states[i + 1]);
    WriteHolds(states[i], events[i], states[i + 1], key);
    StillHolds(states, events, i + 1, n, key, ItemsOf(op), op.Remove? || op.Discard?, op.now);
    RunBounded(states, events, n);
    assert SystemNext(states[n], events[n], states[n + 1]);
    hide Next;
    GetLaw(states[n].cache, events[n].op, states[n + 1].cache, events[n].out);
  }

  /** An entry is lost only to a clear, to age, or to a full cache that kept nothing older. */
  lemma LostOnlyTo(states: seq<System>, events: seq<Event>, n: nat, k: Key)
    requires IsRun(states, events) && n < |events|
    requires k in states[n].cache.entries && k !in states[n + 1].cache.entries
    ensures var op, m, m' := events[n].op, states[n].cache.entries, states[n + 1].cache.entries;
      || op.Clear?
      || (op.Purge? && op.now - m[k].timestamp > HOUR)
      || (&& !op.Clear? && !op.Purge?
          && |m| >= LIMIT
          && forall x | x in m' && x in m && x != op.key :: (if k == op.key then op.now else m[k].timestamp) <= m[x].timestamp)
  {
    hide SystemInv, Written, Missed, Trimmed, Fenced;
    RunInv(states, events, n);
    RunBounded(states, events, n);
    var s, ev, s' := states[n], events[n], states[n + 1];
    assert SystemNext(s, ev, s');
    var op, m, m' := ev.op, s.cache.entries, s'.cache.entries;
    if op.Get? {
      GetLaw(s.cache, op, s'.cache, ev.out);
      if !(op.key in m && op.now - m[op.key].timestamp <= HOUR) {
        LostToMiss(m, op.key, op.now, m', k);
      }
    } else if op.Purge? {
      PurgeLaw(s.cache, op, s'.cache, ev.out);
    } else if !op.Clear? {
      if ev.out == Accepted {
        hide SystemNext;
        LostToWrite(s, ev, s', k);
      } else {
        RefusedChangesNothing(s, ev, s');
      }
    }
  }

  lemma LostToMiss(m: map<Key, Entry>, key: Key, now: int, m': map<Key, Entry>, k: Key)
    requires Missed(m, key, now, m') && k in m && k !in m'
    ensures |m| >= LIMIT && forall x | x in m' && x in m && x != key :: m[k].timestamp <= m[x].timestamp
  {
    Smaller(m, {key});
  }

  lemma LostToWrite(s: System, ev: Event, s': System, k: Key)
    requires SystemInv(s) && SystemNext(s, ev, s') && |s.cache.entries| <= LIMIT
    requires !ev.op.Get? && !ev.op.Purge? && !ev.op.Clear? && ev.out == Accepted
    requires k in s.cache.entries && k !in s'.cache.entries
    ensures |s.cache.entries| >= LIMIT
    ensures forall x | x in s'.cache.entries && x in s.cache.entries && x != ev.op.key ::
      (if k == ev.op.key then ev.op.now else s.cache.entries[k].timestamp) <= s.cache.entries[x].timestamp
  {
    hide Written, Trimmed, Inv;
    var op, m, m' := ev.op, s.cache.entries, s'.cache.entries;
    var e: Entry;
    if (op.Publish? || op.Discard?) && op.snap.loaded {
      if op.Publish? {
        PublishLaw(s, ev, s');
        e :| e.timestamp == op.now && Written(m, op.key, e, m');
      } else {
        DiscardLaw(s, ev, s');
        e :| e.timestamp == op.now && Written(m, op.key, e, m');
      }
    } else {
      PlainLaw(s.cache, op, s'.cache, ev.out);
      e :| e.timestamp == op.now && Written(m, op.key, e, m');
    }
    WrittenLoses(m, op.key, e, m', k);
  }

  lemma WrittenLoses(m: map<Key, Entry>, key: Key, e: Entry, m': map<Key, Entry>, k: Key)
    requires Written(m, key, e, m') && k in m && k !in m'
    ensures |m| >= LIMIT
    ensures forall x | x in m' && x in m && x != key :: (if k == key then e.timestamp else m[k].timestamp) <= m[x].timestamp
  {
    PutCount(m, key, e);
    assert EvictedFrom(m[key := e], k, m');
  }
}
