/**
 The versioned register that the Antigravity replay cache implements, whatever its back end.  A
 key holds at most one current version.  A version carries an identity that is never reused (a
 local revision or a random generation), a branch token, and the replay items; a tombstone is a
 deleted version without items.  The log records every version that was ever stored, in the order
 in which it was stored, and a request's snapshot is a version of the log.
 */
module ReplayRegister {

  type Key = string
  type Item = string
  type Token = string

  datatype Id = Revision(n: nat) | Generation(token: Token)

  datatype Version = Version(id: Id, branch: Token, deleted: bool, items: seq<Item>)

  datatype Record = Record(key: Key, version: Version)

  datatype Register = Register(current: map<Key, Version>, log: seq<Record>)

  const EMPTY := Register(map[], [])

  ghost predicate FreshId(r: Register, id: Id) {
    forall i | 0 <= i < |r.log| :: r.log[i].version.id != id
  }

  ghost predicate FreshBranch(r: Register, branch: Token) {
    forall i | 0 <= i < |r.log| :: r.log[i].version.branch != branch
  }

  function Push(r: Register, key: Key, v: Version): Register {
    Register(r.current[key := v], r.log + [Record(key, v)])
  }

  /** The snapshot `snap` was read from `key` at some moment of the run. */
  ghost predicate IsSnapshot(r: Register, key: Key, snap: Version) {
    Record(key, snap) in r.log
  }

  /** The register still holds exactly the version that the snapshot read. */
  predicate Matches(r: Register, key: Key, snap: Version) {
    key in r.current && r.current[key].id == snap.id
  }

  /** The register moved on within the snapshot's branch, and `items` extend what is there. */
  predicate Descends(r: Register, key: Key, snap: Version, items: seq<Item>) {
    && key in r.current
    && !r.current[key].deleted
    && r.current[key].branch == snap.branch
    && r.current[key].items <= items
  }

  predicate Replaceable(r: Register, key: Key, snap: Version, items: seq<Item>) {
    Matches(r, key, snap) || Descends(r, key, snap, items)
  }

  /** Steps of the register. */

  /** A version that depends on no snapshot: a reservation, a tombstone or an unconditional write. */
  ghost predicate FreshStep(r: Register, key: Key, v: Version, r': Register) {
    && FreshId(r, v.id)
    && FreshBranch(r, v.branch)
    && (v.deleted ==> v.items == [])
    && r' == Push(r, key, v)
  }

  /** A conditional publication: the branch survives exactly when the chain is extended. */
  ghost predicate ReplaceStep(r: Register, key: Key, snap: Version, v: Version, r': Register) {
    && Replaceable(r, key, snap, v.items)
    && FreshId(r, v.id)
    && !v.deleted
    && (if snap.items <= v.items then v.branch == snap.branch else FreshBranch(r, v.branch))
    && r' == Push(r, key, v)
  }

  /** Expiry, eviction and clearing lose versions but never invent one. */
  ghost predicate DropStep(r: Register, keys: set<Key>, r': Register) {
    r' == Register(r.current - keys, r.log)
  }

  /** Invariants */

  ghost predicate UniqueIds(log: seq<Record>) {
    forall i, j | 0 <= i < |log| && 0 <= j < |log| && log[i].version.id == log[j].version.id :: i == j
  }

  /** All item lists ever stored under one key and branch form a chain, in log order. */
  ghost predicate Chained(log: seq<Record>) {
    forall i, j | 0 <= i < j < |log| && log[i].key == log[j].key && log[i].version.branch == log[j].version.branch ::
      log[i].version.items <= log[j].version.items
  }

  ghost predicate CurrentIsLogged(r: Register) {
    forall k | k in r.current :: Record(k, r.current[k]) in r.log
  }

  ghost predicate CurrentIsTip(r: Register) {
    forall k, i | k in r.current && 0 <= i < |r.log| && r.log[i].key == k && r.log[i].version.branch == r.current[k].branch ::
      r.log[i].version.items <= r.current[k].items
  }

  ghost predicate Inv(r: Register) {
    && UniqueIds(r.log)
    && Chained(r.log)
    && CurrentIsLogged(r)
    && CurrentIsTip(r)
  }

  lemma SnapshotsLast(r: Register, r': Register, key: Key, v: Version)
    requires r.log <= r'.log && IsSnapshot(r, key, v)
    ensures IsSnapshot(r', key, v)
  {
    var i :| 0 <= i < |r.log| && r.log[i] == Record(key, v);
    assert r'.log[i] == Record(key, v);
  }

  /** A current version with the snapshot's identity is the snapshot itself. */
  lemma MatchIsSnapshot(r: Register, key: Key, snap: Version)
    requires Inv(r) && IsSnapshot(r, key, snap) && Matches(r, key, snap)
    ensures r.current[key] == snap
  {
    var i :| 0 <= i < |r.log| && r.log[i] == Record(key, snap);
    assert Record(key, r.current[key]) in r.log;
    var j :| 0 <= j < |r.log| && r.log[j] == Record(key, r.current[key]);
    assert r.log[i].version.id == r.log[j].version.id;
  }

  /** A replaceable version shares the snapshot's branch and contains what the snapshot read. */
  lemma ReplaceableSharesBranch(r: Register, key: Key, snap: Version, items: seq<Item>)
    requires Inv(r) && IsSnapshot(r, key, snap) && Replaceable(r, key, snap, items)
    ensures r.current[key].branch == snap.branch
    ensures snap.items <= r.current[key].items
    ensures !Matches(r, key, snap) ==> snap.items <= items
  {
    if Matches(r, key, snap) {
      MatchIsSnapshot(r, key, snap);
    } else {
      var i :| 0 <= i < |r.log| && r.log[i] == Record(key, snap);
      assert r.log[i].version.items <= r.current[key].items;
    }
  }

  lemma PushInv(r: Register, key: Key, v: Version)
    requires Inv(r) && FreshId(r, v.id)
    requires forall i | 0 <= i < |r.log| && r.log[i].key == key && r.log[i].version.branch == v.branch ::
               r.log[i].version.items <= v.items
    ensures Inv(Push(r, key, v))
  {
    var r' := Push(r, key, v);
    assert r'.log[|r.log|] == Record(key, v);
    forall k | k in r'.current ensures Record(k, r'.current[k]) in r'.log {
      if k != key {
        assert Record(k, r.current[k]) in r.log;
      }
    }
  }

  lemma FreshStepInv(r: Register, key: Key, v: Version, r': Register)
    requires Inv(r) && FreshStep(r, key, v, r')
    ensures Inv(r')
  {
    PushInv(r, key, v);
  }

  lemma ReplaceStepInv(r: Register, key: Key, snap: Version, v: Version, r': Register)
    requires Inv(r) && IsSnapshot(r, key, snap) && ReplaceStep(r, key, snap, v, r')
    ensures Inv(r')
  {
    ReplaceableSharesBranch(r, key, snap, v.items);
    if Matches(r, key, snap) {
      MatchIsSnapshot(r, key, snap);
    }
    forall i | 0 <= i < |r.log| && r.log[i].key == key && r.log[i].version.branch == v.branch
      ensures r.log[i].version.items <= v.items
    {
      if snap.items <= v.items {
        assert r.log[i].version.items <= r.current[key].items <= v.items;
      }
    }
    PushInv(r, key, v);
  }

  lemma DropStepInv(r: Register, keys: set<Key>, r': Register)
    requires Inv(r) && DropStep(r, keys, r')
    ensures Inv(r')
  {
  }

  /** Dead snapshots */

  /** No conditional operation that carries `snap` can be accepted in this state. */
  ghost predicate Dead(r: Register, key: Key, snap: Version) {
    key in r.current ==> r.current[key].id != snap.id && r.current[key].branch != snap.branch
  }

  lemma FreshStepKills(r: Register, key: Key, v: Version, r': Register, snap: Version)
    requires IsSnapshot(r, key, snap) && FreshStep(r, key, v, r')
    ensures Dead(r', key, snap)
  {
    var i :| 0 <= i < |r.log| && r.log[i] == Record(key, snap);
  }

  lemma FreshStepKeepsDead(r: Register, k: Key, v: Version, r': Register, key: Key, snap: Version)
    requires IsSnapshot(r, key, snap) && Dead(r, key, snap) && FreshStep(r, k, v, r')
    ensures Dead(r', key, snap) && IsSnapshot(r', key, snap)
  {
    var i :| 0 <= i < |r.log| && r.log[i] == Record(key, snap);
    assert r'.log[i] == Record(key, snap);
  }

  lemma DropStepKeepsDead(r: Register, keys: set<Key>, r': Register, key: Key, snap: Version)
    requires IsSnapshot(r, key, snap) && DropStep(r, keys, r')
    requires Dead(r, key, snap) || key in keys
    ensures Dead(r', key, snap) && IsSnapshot(r', key, snap)
  {
  }

  /** Another request's accepted replace cannot revive a dead snapshot. */
  lemma ReplaceStepKeepsDead(r: Register, k: Key, other: Version, v: Version, r': Register, key: Key, snap: Version)
    requires Inv(r) && IsSnapshot(r, k, other) && ReplaceStep(r, k, other, v, r')
    requires IsSnapshot(r, key, snap) && Dead(r, key, snap)
    ensures Dead(r', key, snap) && IsSnapshot(r', key, snap)
  {
    var i :| 0 <= i < |r.log| && r.log[i] == Record(key, snap);
    assert r'.log[i] == Record(key, snap);
    if k == key {
      ReplaceableSharesBranch(r, k, other, v.items);
    }
  }

  /** Transactions: what one atomic operation of a back end does to the register. */

  datatype Action =
    | Idle
    | Fresh(key: Key, version: Version)
    | Replace(key: Key, snap: Version, version: Version)

  function DropKeys(r: Register, keys: set<Key>): Register {
    Register(r.current - keys, r.log)
  }

  function Apply(r: Register, a: Action): Register {
    match a
    case Idle => r
    case Fresh(k, v) => Push(r, k, v)
    case Replace(k, _, v) => Push(r, k, v)
  }

  ghost predicate Enabled(r: Register, a: Action) {
    match a
    case Idle => true
    case Fresh(k, v) => FreshStep(r, k, v, Apply(r, a))
    case Replace(k, snap, v) => IsSnapshot(r, k, snap) && ReplaceStep(r, k, snap, v, Apply(r, a))
  }

  /** Lose the keys `before`, take one action, lose the keys `after`. */
  ghost predicate Transact(r: Register, before: set<Key>, a: Action, after: set<Key>, r': Register) {
    && Enabled(DropKeys(r, before), a)
    && r' == DropKeys(Apply(DropKeys(r, before), a), after)
  }

  lemma TransactInv(r: Register, before: set<Key>, a: Action, after: set<Key>, r': Register)
    requires Inv(r) && Transact(r, before, a, after, r')
    ensures Inv(r') && r.log <= r'.log
  {
    var r1 := DropKeys(r, before);
    var r2 := Apply(r1, a);
    DropStepInv(r, before, r1);
    match a {
      case Idle =>
      case Fresh(k, v) => FreshStepInv(r1, k, v, r2);
      case Replace(k, snap, v) => ReplaceStepInv(r1, k, snap, v, r2);
    }
    DropStepInv(r2, after, r');
  }

  /** A dead snapshot stays dead through every transaction. */
  lemma TransactKeepsDead(r: Register, before: set<Key>, a: Action, after: set<Key>, r': Register, key: Key, snap: Version)
    requires Inv(r) && Transact(r, before, a, after, r')
    requires IsSnapshot(r, key, snap) && Dead(r, key, snap)
    ensures Dead(r', key, snap) && IsSnapshot(r', key, snap)
  {
    var r1 := DropKeys(r, before);
    var r2 := Apply(r1, a);
    DropStepInv(r, before, r1);
    DropStepKeepsDead(r, before, r1, key, snap);
    match a {
      case Idle =>
      case Fresh(k, v) => FreshStepKeepsDead(r1, k, v, r2, key, snap);
      case Replace(k, other, v) => ReplaceStepKeepsDead(r1, k, other, v, r2, key, snap);
    }
    DropStepKeepsDead(r2, after, r', key, snap);
  }

  /** Losing a key or writing it without a snapshot kills every snapshot read from it before. */
  lemma TransactKills(r: Register, before: set<Key>, a: Action, after: set<Key>, r': Register, key: Key, snap: Version)
    requires Inv(r) && Transact(r, before, a, after, r') && IsSnapshot(r, key, snap)
    requires key in before || key in after || (a.Fresh? && a.key == key)
    ensures Dead(r', key, snap) && IsSnapshot(r', key, snap)
  {
    hide Inv, Dead, IsSnapshot;
    var r1 := DropKeys(r, before);
    var r2 := Apply(r1, a);
    DropStepInv(r, before, r1);
    SnapshotsLast(r, r1, key, snap);
    SnapshotsLast(r, r2, key, snap);
    if a.Fresh? && a.key == key {
      FreshStepKills(r1, key, a.version, r2, snap);
      DropStepKeepsDead(r2, after, r', key, snap);
    } else if key in before {
      AbsentIsDead(r1, key, snap);
      assert DropKeys(r1, {}) == r1;
      TransactKeepsDead(r1, {}, a, after, r', key, snap);
    } else {
      AbsentIsDead(r', key, snap);
    }
    SnapshotsLast(r, r', key, snap);
  }

  lemma AbsentIsDead(r: Register, key: Key, snap: Version)
    requires key !in r.current
    ensures Dead(r, key, snap)
  {}
}
