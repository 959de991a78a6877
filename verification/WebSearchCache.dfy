/**
 The in-process cache of Claude web search results: an index and a linked list in order of use,
 entries that expire a while after their last use, and a limit that each store brings along.
 The list is a sequence of entry objects, the index points at the same objects, and a hit
 extends the entry in place.  Keys are already hashed, and the clock is a parameter.
 */
module WebSearchCache {
  import opened Options
  import opened Recency

  type Key = string

  const DEFAULT_TTL: int := 86_400_000_000_000
  const DEFAULT_LIMIT: nat := 1024

  datatype Stored = Stored(content: string, ttl: int, expiresAt: int)

  type Records = seq<Pair<Key, Stored>>

  function Live(s: Records, now: int): Records {
    if s == [] then [] else (if now < s[0].value.expiresAt then [s[0]] else []) + Live(s[1..], now)
  }

  function TtlOrDefault(ttl: int): int {
    if ttl <= 0 then DEFAULT_TTL else ttl
  }

  function LimitOrDefault(limit: int): (n: nat)
    ensures n >= 1
  {
    if limit <= 0 then DEFAULT_LIMIT else limit
  }

  /** What is kept of the other entries before a store adds its own. */
  function Kept(s: Records, key: Key, limit: nat, now: int): Records {
    var others := Without(s, key);
    if |others| >= limit then Live(others, now) else others
  }

  function AfterStore(s: Records, key: Key, content: string, ttl: int, limit: int, now: int): Records {
    var n, t := LimitOrDefault(limit), TtlOrDefault(ttl);
    if content == "" then s else Take([Pair(key, Stored(content, t, now + t))] + Kept(s, key, n, now), n)
  }

  /** A hit at `now` renews the entry, for `ttl` if one is given. */
  function Renewed(e: Stored, ttl: Option<int>, now: int): Stored {
    var t := if ttl.Some? && ttl.value > 0 then ttl.value else e.ttl;
    Stored(e.content, t, now + TtlOrDefault(t))
  }

  predicate Hit(s: Records, key: Key, now: int) {
    Has(s, key) && now < At(s, key).value.expiresAt
  }

  function AfterGet(s: Records, key: Key, ttl: Option<int>, now: int): Records {
    if Hit(s, key, now) then [Pair(key, Renewed(At(s, key).value, ttl, now))] + Without(s, key) else Without(s, key)
  }

  class Entry {
    const key: Key
    const content: string
    var ttl: int
    var expiresAt: int

    constructor (key: Key, content: string, ttl: int, expiresAt: int)
      ensures PairOf() == Pair(key, Stored(content, ttl, expiresAt))
      ensures this.key == key
    {
      this.key, this.content, this.ttl, this.expiresAt := key, content, ttl, expiresAt;
    }

    function PairOf(): Pair<Key, Stored>
      reads this
    {
      Pair(key, Stored(content, ttl, expiresAt))
    }
  }

  function KeyOf(e: Entry): Key {
    e.key
  }

  class Cache {
    var index: map<Key, Entry>
    var order: seq<Entry>

    function Contents(): (s: Records)
      reads this, order
      ensures |s| == |order| && forall i :: 0 <= i < |s| ==> s[i] == order[i].PairOf()
    {
      seq(|order|, i requires 0 <= i < |order| reads this, order => order[i].PairOf())
    }

    ghost predicate Valid()
      reads this
    {
      Agree(index, order, KeyOf)
    }

    constructor ()
      ensures Valid() && Contents() == []
    {
      index, order := map[], [];
    }

    lemma IndexIsContents(key: Key)
      requires Valid()
      ensures Distinct(Contents())
      ensures key in index <==> Has(Contents(), key)
      ensures key in index ==> At(Contents(), key) == index[key].PairOf()
    {
      assert forall i :: 0 <= i < |order| ==> KeyOf(order[i]) == Contents()[i].key;
      var i := WithoutIndex(Contents(), key);
      if key in index {
        var j :| 0 <= j < |order| && order[j] == index[key];
        assert Contents()[j].key == key;
      }
    }

    method RemoveAt(i: nat)
      requires Valid() && i < |order|
      modifies this
      ensures Valid() && order == old(order)[..i] + old(order)[i + 1..]
      ensures Contents() == old(Contents())[..i] + old(Contents())[i + 1..]
      ensures index == old(index) - {old(order)[i].key}
    {
      hide Agree;
      AgreeWithout(index, order, KeyOf, i);
      ghost var s := Contents();
      var e := order[i];
      index := index - {e.key};
      order := order[..i] + order[i + 1..];
      assert Contents() == s[..i] + s[i + 1..];
    }

    method Remove(key: Key)
      requires Valid()
      modifies this
      ensures Valid() && Contents() == Without(old(Contents()), key)
      ensures index == old(index) - {key}
    {
      hide Agree, Without;
      IndexIsContents(key);
      ghost var s := Contents();
      if key !in index {
        WithoutAbsent(s, key);
        assert index - {key} == index;
        return;
      }
      var i := Locate(index, order, KeyOf, key);
      assert s[i].key == key;
      WithoutAt(s, i);
      RemoveAt(i);
    }

    /** From the back of the list to the front. */
    method PurgeExpired(now: int)
      requires Valid()
      modifies this
      ensures Valid() && Contents() == Live(old(Contents()), now)
      ensures forall k | k in index :: k in old(index)
    {
      hide Agree, Live;
      var i := |order|;
      ghost var s := Contents();
      assert s[..i] == s && s[i..] == [];
      LiveNone(now);
      while i > 0
        invariant Valid() && i <= |order| && i <= |s|
        invariant Contents() == s[..i] + Live(s[i..], now)
        invariant forall k | k in index :: k in old(index)
      {
        i := i - 1;
        LiveSplice(s, i, now, Contents());
        if order[i].expiresAt <= now {
          RemoveAt(i);
        }
      }
      assert s[0..] == s && s[..0] == [];
    }

    method EvictTo(limit: nat)
      requires Valid()
      modifies this
      ensures Valid() && Contents() == Take(old(Contents()), limit)
    {
      hide Agree;
      ghost var s := Contents();
      assert s[..|s|] == s;
      while |order| > limit
        invariant Valid() && |order| <= |s| && (|order| < |s| ==> |order| >= limit)
        invariant Contents() == s[..|order|]
      {
        ghost var c := Contents();
        var n := |order| - 1;
        RemoveAt(n);
        assert Contents() == c[..n];
      }
    }

    method Store(key: Key, content: string, ttl: int, limit: int, now: int) returns (stored: bool)
      requires Valid()
      modifies this
      ensures Valid() && Contents() == AfterStore(old(Contents()), key, content, ttl, limit, now)
      ensures stored == (content != "")
    {
      hide Agree, Live, Without, Take;
      if |content| == 0 {
        return false;
      }
      var lifetime := if ttl <= 0 then DEFAULT_TTL else ttl;
      var room: nat := if limit <= 0 then DEFAULT_LIMIT else limit;
      Remove(key);
      if |order| >= room {
        PurgeExpired(now);
      }
      ghost var kept := Contents();
      assert kept == Kept(old(Contents()), key, room, now);
      PushFront(key, content, lifetime, now + lifetime);
      EvictTo(room);
      return true;
    }

    method PushFront(key: Key, content: string, ttl: int, expiresAt: int)
      requires Valid() && key !in index
      modifies this
      ensures Valid() && Contents() == [Pair(key, Stored(content, ttl, expiresAt))] + old(Contents())
    {
      var e := new Entry(key, content, ttl, expiresAt);
      order := [e] + order;
      index := index[key := e];
      assert Contents() == [e.PairOf()] + old(Contents());
    }

    method Get(key: Key, ttl: Option<int>, now: int) returns (content: Option<string>)
      requires Valid()
      modifies this, order
      ensures Valid() && Contents() == AfterGet(old(Contents()), key, ttl, now)
      ensures content == if Hit(old(Contents()), key, now) then Some(At(old(Contents()), key).value.content) else None
    {
      IndexIsContents(key);
      ghost var s := Contents();
      WithoutMeans(s, key);
      if key !in index {
        WithoutAbsent(s, key);
        return None;
      }
      var e := index[key];
      if now >= e.expiresAt {
        Remove(key);
        return None;
      }
      Renew(e, ttl, now);
      return Some(e.content);
    }

    /** Extend the entry in place and move it to the front. */
    method Renew(e: Entry, ttl: Option<int>, now: int)
      requires Valid() && e in order
      modifies this, e
      ensures Valid()
      ensures Contents() == [Pair(e.key, Renewed(old(e.PairOf()).value, ttl, now))] + Without(old(Contents()), e.key)
    {
      hide Without, Agree;
      ghost var s := Contents();
      Remove(e.key);
      AgreePush(index, order, KeyOf, e);
      var effective := e.ttl;
      if ttl.Some? && ttl.value > 0 {
        effective := ttl.value;
        e.ttl := effective;
      }
      if effective <= 0 {
        effective := DEFAULT_TTL;
      }
      e.expiresAt := now + effective;
      assert Contents() == Without(s, e.key);
      order := [e] + order;
      index := index[e.key := e];
      assert Contents() == [e.PairOf()] + Without(s, e.key);
    }

    method Clear()
      modifies this
      ensures Valid() && Contents() == []
    {
      index, order := map[], [];
    }
  }

  lemma LiveNone(now: int)
    ensures Live([], now) == []
  {}

  lemma LiveStep(s: Records, i: nat, now: int)
    requires i < |s|
    ensures Live(s[i..], now) == (if now < s[i].value.expiresAt then [s[i]] else []) + Live(s[i + 1..], now)
  {
    assert s[i..][1..] == s[i + 1..];
  }

  /** One step of the purge, from the back: what is behind `i` is purged already. */
  lemma LiveSplice(s: Records, i: nat, now: int, c: Records)
    requires i < |s| && c == s[..i + 1] + Live(s[i + 1..], now)
    ensures i < |c| && c[i] == s[i]
    ensures (if now < s[i].value.expiresAt then c else c[..i] + c[i + 1..]) == s[..i] + Live(s[i..], now)
  {
    hide Live;
    LiveStep(s, i, now);
    assert c[..i] == s[..i] && c[i + 1..] == Live(s[i + 1..], now);
    assert c == s[..i] + ([s[i]] + Live(s[i + 1..], now));
    assert [] + Live(s[i + 1..], now) == Live(s[i + 1..], now);
  }

  /** Whole histories */

  datatype Op =
    | Put(key: Key, content: string, ttl: int, limit: int, now: int)
    | Fetch(key: Key, extension: Option<int>, now: int)
    | Purge(now: int)
    | Reset

  function After(s: Records, op: Op): Records {
    match op
    case Put(key, content, ttl, limit, now) => AfterStore(s, key, content, ttl, limit, now)
    case Fetch(key, ttl, now) => AfterGet(s, key, ttl, now)
    case Purge(now) => Live(s, now)
    case Reset => []
  }

  function AfterAll(ops: seq<Op>): Records {
    if ops == [] then [] else After(AfterAll(ops[..|ops| - 1]), ops[|ops| - 1])
  }

  /** What one key would hold if no other key existed and nothing were ever evicted. */
  function Lease(ops: seq<Op>, key: Key): Option<Stored> {
    if ops == [] then None else LeaseAfter(Lease(ops[..|ops| - 1], key), ops[|ops| - 1], key)
  }

  function LeaseAfter(lease: Option<Stored>, op: Op, key: Key): Option<Stored> {
    match op
    case Put(k, content, ttl, _, now) =>
      if k != key || content == "" then lease else Some(Stored(content, TtlOrDefault(ttl), now + TtlOrDefault(ttl)))
    case Fetch(k, ttl, now) =>
      if k != key || lease.None? then lease
      else if now < lease.value.expiresAt then Some(Renewed(lease.value, ttl, now))
      else None
    case Purge(now) => lease
    case Reset => None
  }

  lemma {:induction false} LiveMeans(s: Records, now: int)
    ensures forall p :: p in Live(s, now) <==> p in s && now < p.value.expiresAt
    ensures Distinct(s) ==> Distinct(Live(s, now))
    ensures |Live(s, now)| <= |s|
  {
    if s != [] {
      LiveMeans(s[1..], now);
      var rest := s[1..];
      assert s == [s[0]] + rest;
      if Distinct(s) {
        assert forall i :: 0 <= i < |rest| ==> rest[i] == s[i + 1];
        assert Distinct(rest);
        assert forall p | p in rest :: p.key != s[0].key;
        LiveFirst(s[0], Live(rest, now));
      }
    }
  }

  lemma LiveFirst(p: Pair<Key, Stored>, s: Records)
    requires Distinct(s) && forall q | q in s :: q.key != p.key
    ensures Distinct([p] + s)
  {
    assert forall i :: 0 <= i < |s| ==> s[i] in s;
  }

  lemma KeptMeans(s: Records, key: Key, limit: nat, now: int)
    requires Distinct(s)
    ensures Distinct(Kept(s, key, limit, now))
    ensures forall p | p in Kept(s, key, limit, now) :: p in s && p.key != key
    ensures forall p | p in s && p.key != key && now < p.value.expiresAt :: p in Kept(s, key, limit, now)
  {
    WithoutMeans(s, key);
    LiveMeans(Without(s, key), now);
  }

  /** Every entry held is the lease its key is entitled to. */
  ghost predicate Entitled(s: Records, ops: seq<Op>) {
    Distinct(s) && forall p | p in s :: Lease(ops, p.key) == Some(p.value)
  }

  lemma StoreEntitled(s: Records, ops: seq<Op>, op: Op)
    requires op.Put? && op.content != "" && ops != [] && ops[|ops| - 1] == op && Entitled(s, ops[..|ops| - 1])
    ensures Entitled(After(s, op), ops)
  {
    var n, t := LimitOrDefault(op.limit), TtlOrDefault(op.ttl);
    var kept := Kept(s, op.key, n, op.now);
    KeptMeans(s, op.key, n, op.now);
    var p := Pair(op.key, Stored(op.content, t, op.now + t));
    LiveFirst(p, kept);
    assert forall q | q in After(s, op) :: q == p || q in kept;
  }

  lemma FetchEntitled(s: Records, ops: seq<Op>, op: Op)
    requires op.Fetch? && ops != [] && ops[|ops| - 1] == op && Entitled(s, ops[..|ops| - 1])
    ensures Entitled(After(s, op), ops)
  {
    WithoutMeans(s, op.key);
    if Hit(s, op.key, op.now) {
      LiveFirst(Pair(op.key, Renewed(At(s, op.key).value, op.extension, op.now)), Without(s, op.key));
    }
  }

  lemma {:induction false} AlwaysEntitled(ops: seq<Op>)
    ensures Entitled(AfterAll(ops), ops)
  {
    if ops != [] {
      var n := |ops| - 1;
      AlwaysEntitled(ops[..n]);
      var s, op := AfterAll(ops[..n]), ops[n];
      if op.Put? && op.content != "" {
        StoreEntitled(s, ops, op);
      } else if op.Fetch? {
        FetchEntitled(s, ops, op);
      } else if op.Purge? {
        LiveMeans(s, op.now);
      }
    }
  }

  /** After any history, a hit returns what the key was last given and only within its lease. */
  lemma HitIsLeased(ops: seq<Op>, key: Key, now: int)
    requires Hit(AfterAll(ops), key, now)
    ensures Lease(ops, key) == Some(At(AfterAll(ops), key).value)
    ensures now < Lease(ops, key).value.expiresAt
  {
    AlwaysEntitled(ops);
  }

  /** A store never evicts its own key, and evicts an unexpired entry only when the limit leaves no room for it. */
  lemma StoreKeeps(s: Records, key: Key, content: string, ttl: int, limit: int, now: int)
    requires Distinct(s) && content != ""
    ensures var s' := AfterStore(s, key, content, ttl, limit, now);
      && |s'| <= LimitOrDefault(limit)
      && s'[0].key == key && s'[0].value.content == content
      && (|Live(Without(s, key), now)| < LimitOrDefault(limit) ==>
        forall p | p in s && p.key != key && now < p.value.expiresAt :: p in s')
  {
    KeptMeans(s, key, LimitOrDefault(limit), now);
  }

  /** How long a result is there */

  /** The lifetime and the deadline of `key` before operation `n`, when it was stored just before operation `from`. */
  function Term(ops: seq<Op>, from: nat, n: nat, key: Key, ttl: int, deadline: int): (int, int)
    requires n <= |ops|
    decreases n
  {
    if n <= from then (ttl, deadline)
    else
      var (t, due) := Term(ops, from, n - 1, key, ttl, deadline);
      var op := ops[n - 1];
      if op.Fetch? && op.key == key then
        var extended := if op.extension.Some? && op.extension.value > 0 then op.extension.value else t;
        (extended, op.now + extended)
      else (t, due)
  }

  /** The operation neither stores the key anew nor resets, comes before its deadline, and leaves it room. */
  predicate Spares(s: Records, op: Op, key: Key, deadline: int) {
    && !op.Reset?
    && (op.Put? && op.content != "" ==> op.key != key && |s| < if op.limit <= 0 then 1024 else op.limit)
    && (op.Purge? || (op.Fetch? && op.key == key) ==> op.now < deadline)
  }

  ghost predicate Undisturbed(ops: seq<Op>, from: nat, n: nat, key: Key, ttl: int, deadline: int)
    requires n <= |ops|
  {
    forall j | from <= j < n :: Spares(AfterAll(ops[..j]), ops[j], key, Term(ops, from, j, key, ttl, deadline).1)
  }

  predicate Holds(s: Records, key: Key, content: string, ttl: int, deadline: int) {
    Pair(key, Stored(content, ttl, deadline)) in s
  }

  lemma SparedHolds(s: Records, op: Op, key: Key, content: string, ttl: int, deadline: int)
    requires Distinct(s) && ttl > 0 && Holds(s, key, content, ttl, deadline) && Spares(s, op, key, deadline)
    ensures var extended := if op.Fetch? && op.extension.Some? && op.extension.value > 0 then op.extension.value else ttl;
      if op.Fetch? && op.key == key then Holds(After(s, op), key, content, extended, op.now + extended)
      else Holds(After(s, op), key, content, ttl, deadline)
  {
    var p := Pair(key, Stored(content, ttl, deadline));
    match op
    case Put(k, text, t, limit, now) =>
      if text != "" {
        WithoutMeans(s, k);
        var n := LimitOrDefault(limit);
        assert Kept(s, k, n, now) == Without(s, k);
        assert p in Kept(s, k, n, now);
      }
    case Fetch(k, extension, now) =>
      WithoutMeans(s, k);
      if k == key {
        FoundAt(s, p);
      }
    case Purge(now) => LiveMeans(s, now);
    case Reset =>
  }

  lemma FoundAt(s: Records, p: Pair<Key, Stored>)
    requires Distinct(s) && p in s
    ensures Has(s, p.key) && At(s, p.key) == p
  {
    var i :| 0 <= i < |s| && s[i] == p;
    WithoutAt(s, i);
  }

  lemma {:induction false} DistinctAfter(ops: seq<Op>)
    ensures Distinct(AfterAll(ops))
  {
    AlwaysEntitled(ops);
  }

  lemma {:induction false} AfterOneMore(ops: seq<Op>, n: nat)
    requires 0 < n <= |ops|
    ensures AfterAll(ops[..n]) == After(AfterAll(ops[..n - 1]), ops[n - 1])
  {
    assert ops[..n][..n - 1] == ops[..n - 1];
  }

  lemma {:induction false} StillHolds(ops: seq<Op>, from: nat, n: nat, key: Key, content: string, ttl: int, deadline: int)
    requires from <= n <= |ops| && ttl > 0 && Holds(AfterAll(ops[..from]), key, content, ttl, deadline)
    requires Undisturbed(ops, from, n, key, ttl, deadline)
    ensures var (t, due) := Term(ops, from, n, key, ttl, deadline); t > 0 && Holds(AfterAll(ops[..n]), key, content, t, due)
    decreases n
  {
    hide Holds, Spares, AfterAll, After;
    if n > from {
      StillHolds(ops, from, n - 1, key, content, ttl, deadline);
      var before := Term(ops, from, n - 1, key, ttl, deadline);
      DistinctAfter(ops[..n - 1]);
      SparedHolds(AfterAll(ops[..n - 1]), ops[n - 1], key, content, before.0, before.1);
      AfterOneMore(ops, n);
    }
  }

  lemma StoreHolds(s: Records, op: Op)
    requires op.Put? && op.content != ""
    ensures var ttl := if op.ttl <= 0 then 86_400_000_000_000 else op.ttl;
      Holds(After(s, op), op.key, op.content, ttl, op.now + ttl)
  {
    var n, t := LimitOrDefault(op.limit), TtlOrDefault(op.ttl);
    var p := Pair(op.key, Stored(op.content, t, op.now + t));
    assert Take([p] + Kept(s, op.key, n, op.now), n)[0] == p;
  }

  /**
   A stored result is found, with its content, exactly until its deadline, which every hit moves on
   by the lifetime it was stored with or that the hit gives it.
   */
  lemma FoundUntilDeadline(ops: seq<Op>, i: nat, n: nat, now: int)
    requires i < n <= |ops| && ops[i].Put? && ops[i].content != ""
    requires var ttl := if ops[i].ttl <= 0 then 86_400_000_000_000 else ops[i].ttl;
      Undisturbed(ops, i + 1, n, ops[i].key, ttl, ops[i].now + ttl)
    ensures var ttl := if ops[i].ttl <= 0 then 86_400_000_000_000 else ops[i].ttl;
      var s, key := AfterAll(ops[..n]), ops[i].key;
      && Has(s, key) && At(s, key).value.content == ops[i].content
      && (Hit(s, key, now) <==> now < Term(ops, i + 1, n, key, ttl, ops[i].now + ttl).1)
  {
    hide AfterAll, Undisturbed, Term;
    var op := ops[i];
    var ttl := if op.ttl <= 0 then 86_400_000_000_000 else op.ttl;
    DistinctAfter(ops[..i]);
    StoreHolds(AfterAll(ops[..i]), op);
    AfterOneMore(ops, i + 1);
    StillHolds(ops, i + 1, n, op.key, op.content, ttl, op.now + ttl);
    DistinctAfter(ops[..n]);
    var term := Term(ops, i + 1, n, op.key, ttl, op.now + ttl);
    FoundAt(AfterAll(ops[..n]), Pair(op.key, Stored(op.content, term.0, term.1)));
  }
}
