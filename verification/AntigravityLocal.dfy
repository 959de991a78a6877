/**
 The Antigravity reasoning replay cache in process memory: one mutex-guarded map, a revision
 counter and an eviction epoch.  Every operation runs under the mutex, so a run of the cache
 is a sequence of whole operations of any number of requests.  The clock and the random branch
 tokens are parameters.
 */
module AntigravityLocal {
  import opened ReplayRegister
  import opened Eviction

  const TTL: int := 3_600_000_000_000
  const MAX_ENTRIES: nat := 10240
  const EVICT_BATCH: nat := 128

  datatype Entry = Entry(items: seq<Item>, timestamp: int, revision: nat, branch: Token, deleted: bool)

  datatype Snapshot = Snapshot(items: seq<Item>, loaded: bool, found: bool, revision: nat, branch: Token, evictionEpoch: nat)

  datatype Cache = Cache(entries: map<Key, Entry>, nextRevision: nat, evictionEpoch: nat)

  /** What a caller may ask for; `branch` is the random token drawn while the operation runs. */
  datatype Op =
    | Store(key: Key, items: seq<Item>, now: int, branch: Token)
    | Get(key: Key, now: int, branch: Token)
    | Publish(key: Key, snap: Snapshot, items: seq<Item>, now: int, branch: Token)
    | Discard(key: Key, snap: Snapshot, now: int, branch: Token)
    | Remove(key: Key, now: int, branch: Token)
    | Purge(now: int, branch: Token)
    | Clear(branch: Token)

  datatype Outcome = Rejected | Accepted | Loaded(snap: Snapshot, live: bool)

  /** Building blocks of the operations */

  function Put(c: Cache, key: Key, items: seq<Item>, now: int, branch: Token, deleted: bool): Cache {
    Cache(c.entries[key := Entry(items, now, c.nextRevision + 1, branch, deleted)], c.nextRevision + 1, c.evictionEpoch)
  }

  function Timestamps(entries: map<Key, Entry>): map<Key, int> {
    map k | k in entries :: entries[k].timestamp
  }

  function Without(c: Cache, keys: set<Key>): Cache
    requires keys <= c.entries.Keys
  {
    Cache(c.entries - keys, c.nextRevision, c.evictionEpoch + |keys|)
  }

  /** The oldest batch is gone when `c` holds more than `limit` entries. */
  ghost predicate Trimmed(c: Cache, limit: nat, victims: set<Key>, c': Cache) {
    TrimSet(c, limit, victims) && c' == Without(c, victims)
  }

  ghost predicate TrimSet(c: Cache, limit: nat, victims: set<Key>) {
    && (if |c.entries| > limit then AreOldest(Timestamps(c.entries), EVICT_BATCH, victims) else victims == {})
    && victims <= c.entries.Keys
  }

  /** A miss: make room first, then leave a tombstone under `key`. */
  ghost predicate Fenced(c: Cache, key: Key, now: int, branch: Token, victims: set<Key>, c': Cache) {
    && TrimSet(c, MAX_ENTRIES - 1, victims)
    && c' == Put(Without(c, victims), key, [], now, branch, true)
  }

  predicate Expired(e: Entry, now: int) {
    now - e.timestamp > TTL
  }

  function ExpiredKeys(c: Cache, now: int): set<Key> {
    set k | k in c.entries && Expired(c.entries[k], now)
  }

  function SnapshotOf(c: Cache, key: Key): Snapshot
    requires key in c.entries
  {
    var e := c.entries[key];
    Snapshot(if e.deleted then [] else e.items, true, true, e.revision, e.branch, c.evictionEpoch)
  }

  predicate MatchesSnapshot(c: Cache, key: Key, snap: Snapshot) {
    if key in c.entries then snap.found && c.entries[key].revision == snap.revision
    else !snap.found && snap.evictionEpoch == c.evictionEpoch
  }

  predicate IsDescendant(c: Cache, key: Key, snap: Snapshot, items: seq<Item>) {
    && key in c.entries
    && !c.entries[key].deleted
    && snap.branch != ""
    && c.entries[key].branch == snap.branch
    && c.entries[key].items <= items
  }

  function PublishedBranch(c: Cache, key: Key, snap: Snapshot, items: seq<Item>, minted: Token): Token {
    if snap.branch == "" || (MatchesSnapshot(c, key, snap) && !(snap.items <= items)) then minted else snap.branch
  }

  /** `Next(c, op, c', out)`: under the mutex, `op` takes the cache from `c` to `c'` and answers `out`. */
  ghost predicate Next(c: Cache, op: Op, c': Cache, out: Outcome) {
    match op
    case Store(key, items, now, branch) => StoreNext(c, key, items, now, branch, c', out)
    case Remove(key, now, branch) => RemoveNext(c, key, now, branch, c', out)
    case Get(key, now, branch) => GetNext(c, key, now, branch, c', out)
    case Publish(key, snap, items, now, branch) =>
      if items == [] then c' == c && out == Rejected
      else if !snap.loaded then StoreNext(c, key, items, now, branch, c', out)
      else if !MatchesSnapshot(c, key, snap) && !IsDescendant(c, key, snap, items) then c' == c && out == Rejected
      else
        && out == Accepted
        && exists victims :: Trimmed(Put(c, key, items, now, PublishedBranch(c, key, snap, items, branch), false), MAX_ENTRIES, victims, c')
    case Discard(key, snap, now, branch) =>
      if snap.loaded && !MatchesSnapshot(c, key, snap) then c' == c && out == Rejected
      else RemoveNext(c, key, now, branch, c', out)
    case Purge(now, _) => c' == Without(c, ExpiredKeys(c, now)) && out == Accepted
    case Clear(_) => c' == Cache(map[], c.nextRevision, c.evictionEpoch + 1) && out == Accepted
  }

  ghost predicate StoreNext(c: Cache, key: Key, items: seq<Item>, now: int, branch: Token, c': Cache, out: Outcome) {
    if items == [] then c' == c && out == Rejected
    else out == Accepted && exists victims :: Trimmed(Put(c, key, items, now, branch, false), MAX_ENTRIES, victims, c')
  }

  ghost predicate RemoveNext(c: Cache, key: Key, now: int, branch: Token, c': Cache, out: Outcome) {
    out == Accepted && exists victims :: Trimmed(Put(c, key, [], now, branch, true), MAX_ENTRIES, victims, c')
  }

  /** A hit refreshes the timestamp; a miss is fenced with a tombstone of its own. */
  ghost predicate GetNext(c: Cache, key: Key, now: int, branch: Token, c': Cache, out: Outcome) {
    if key in c.entries && !Expired(c.entries[key], now) then
      && c' == c.(entries := c.entries[key := c.entries[key].(timestamp := now)])
      && out == Loaded(SnapshotOf(c', key), !c.entries[key].deleted && c.entries[key].items != [])
    else
      && (exists victims :: Fenced(Without(c, {key} * c.entries.Keys), key, now, branch, victims, c'))
      && key in c'.entries
      && out == Loaded(SnapshotOf(c', key), false)
  }

  /** The cache object.  Every method body runs with the mutex held. */
  class ReplayCache {
    var entries: map<Key, Entry>
    var nextRevision: nat
    var evictionEpoch: nat

    function View(): Cache
      reads this
    {
      Cache(entries, nextRevision, evictionEpoch)
    }

    constructor ()
      ensures View() == Cache(map[], 0, 0)
    {
      entries, nextRevision, evictionEpoch := map[], 0, 0;
    }

    method EvictOldest(ghost limit: nat) returns (ghost victims: set<Key>)
      requires |entries| > limit
      modifies this
      ensures Trimmed(old(View()), limit, victims, View())
    {
      var candidates := OldestKeys(Timestamps(entries), EVICT_BATCH);
      assert Timestamps(entries).Keys == entries.Keys;
      DeleteEach(candidates);
      victims := candidates;
    }

    method DeleteEach(keys: set<Key>)
      requires keys <= entries.Keys
      modifies this
      ensures View() == Without(old(View()), keys)
    {
      var rest := keys;
      while rest != {}
        invariant rest <= keys
        invariant entries == old(entries) - (keys - rest)
        invariant evictionEpoch == old(evictionEpoch) + |keys| - |rest|
        invariant nextRevision == old(nextRevision)
        decreases rest
      {
        var key :| key in rest;
        evictionEpoch := evictionEpoch + 1;
        entries := entries - {key};
        rest := rest - {key};
      }
    }

    method Insert(key: Key, items: seq<Item>, now: int, branch: Token, deleted: bool) returns (ghost victims: set<Key>)
      modifies this
      ensures Trimmed(Put(old(View()), key, items, now, branch, deleted), MAX_ENTRIES, victims, View())
    {
      nextRevision := nextRevision + 1;
      entries := entries[key := Entry(items, now, nextRevision, branch, deleted)];
      victims := {};
      assert View() == Put(old(View()), key, items, now, branch, deleted);
      assert Without(View(), {}) == View();
      if |entries| > MAX_ENTRIES {
        victims := EvictOldest(MAX_ENTRIES);
      }
    }

    method CacheItems(key: Key, items: seq<Item>, now: int, branch: Token) returns (stored: bool)
      modifies this
      ensures Next(old(View()), Store(key, items, now, branch), View(), if stored then Accepted else Rejected)
    {
      if items == [] {
        return false;
      }
      ghost var victims := Insert(key, items, now, branch, false);
      return true;
    }

    method GetWithSnapshot(key: Key, now: int, branch: Token) returns (items: seq<Item>, snap: Snapshot, live: bool)
      modifies this
      ensures Next(old(View()), Get(key, now, branch), View(), Loaded(snap, live))
      ensures live ==> items == snap.items
      ensures !live ==> items == []
    {
      if key in entries && !Expired(entries[key], now) {
        var entry := entries[key].(timestamp := now);
        entries := entries[key := entry];
        if entry.deleted || entry.items == [] {
          return [], Snapshot([], true, true, entry.revision, entry.branch, evictionEpoch), false;
        }
        return entry.items, Snapshot(entry.items, true, true, entry.revision, entry.branch, evictionEpoch), true;
      }
      ghost var gone := {key} * entries.Keys;
      if key in entries {
        assert gone == {key};
        evictionEpoch := evictionEpoch + 1;
        entries := entries - {key};
      } else {
        assert gone == {};
        assert entries - {} == entries;
      }
      assert View() == Without(old(View()), gone);
      snap := ReserveAbsent(key, now, branch);
      return [], snap, false;
    }

    method ReserveAbsent(key: Key, now: int, branch: Token) returns (snap: Snapshot)
      requires key !in entries
      modifies this
      ensures exists victims :: Fenced(old(View()), key, now, branch, victims, View())
      ensures key in entries && snap == SnapshotOf(View(), key)
    {
      ghost var victims := {};
      assert Without(View(), {}) == View();
      if |entries| >= MAX_ENTRIES {
        victims := EvictOldest(MAX_ENTRIES - 1);
      }
      nextRevision := nextRevision + 1;
      entries := entries[key := Entry([], now, nextRevision, branch, true)];
      assert Fenced(old(View()), key, now, branch, victims, View());
      return Snapshot([], true, true, nextRevision, branch, evictionEpoch);
    }

    method ReplaceIfUnchanged(key: Key, snap: Snapshot, items: seq<Item>, now: int, branch: Token) returns (ok: bool)
      modifies this
      ensures Next(old(View()), Publish(key, snap, items, now, branch), View(), if ok then Accepted else Rejected)
    {
      if items == [] {
        return false;
      }
      if !snap.loaded {
        ok := CacheItems(key, items, now, branch);
        return;
      }
      var found := key in entries;
      var matchesSnapshot := found == snap.found &&
        ((found && entries[key].revision == snap.revision) || (!found && snap.evictionEpoch == evictionEpoch));
      var isDescendant := found && !entries[key].deleted && snap.branch != "" && entries[key].branch == snap.branch
        && entries[key].items <= items;
      if !matchesSnapshot && !isDescendant {
        return false;
      }
      var chosen := snap.branch;
      if chosen == "" || (matchesSnapshot && !(snap.items <= items)) {
        chosen := branch;
      }
      assert chosen == PublishedBranch(View(), key, snap, items, branch);
      ghost var victims := Insert(key, items, now, chosen, false);
      return true;
    }

    method DeleteIfUnchanged(key: Key, snap: Snapshot, now: int, branch: Token) returns (ok: bool)
      modifies this
      ensures Next(old(View()), Discard(key, snap, now, branch), View(), if ok then Accepted else Rejected)
    {
      if snap.loaded {
        var found := key in entries;
        if found != snap.found || (found && entries[key].revision != snap.revision) || (!found && snap.evictionEpoch != evictionEpoch) {
          return false;
        }
      }
      DeleteRequired(key, now, branch);
      return true;
    }

    method DeleteRequired(key: Key, now: int, branch: Token)
      modifies this
      ensures Next(old(View()), Remove(key, now, branch), View(), Accepted)
    {
      ghost var victims := Insert(key, [], now, branch, true);
    }

    method PurgeExpired(now: int, ghost branch: Token)
      modifies this
      ensures Next(old(View()), Purge(now, branch), View(), Accepted)
    {
      var rest := entries.Keys;
      ghost var gone: set<Key> := {};
      while rest != {}
        invariant rest <= old(entries.Keys) && gone <= old(entries.Keys) && rest !! gone
        invariant forall k | k in gone :: Expired(old(entries)[k], now)
        invariant forall k | k in old(entries) && k !in rest && Expired(old(entries)[k], now) :: k in gone
        invariant entries == old(entries) - gone
        invariant evictionEpoch == old(evictionEpoch) + |gone|
        invariant nextRevision == old(nextRevision)
        decreases rest
      {
        var key :| key in rest;
        rest := rest - {key};
        if Expired(entries[key], now) {
          evictionEpoch := evictionEpoch + 1;
          entries := entries - {key};
          gone := gone + {key};
        }
      }
      assert gone == ExpiredKeys(old(View()), now);
    }

    method ClearAll(ghost branch: Token)
      modifies this
      ensures Next(old(View()), Clear(branch), View(), Accepted)
    {
      entries := map[];
      evictionEpoch := evictionEpoch + 1;
    }
  }
}
