/**
 The Claude and Kimi thinking replay caches in process memory.  Both keep one mutex-guarded map
 of generations with a running byte total; Claude keeps a list of assistant turns under a key,
 Kimi the latest turn only.  The clock and the random generation tokens are parameters, and a
 turn comes with what the JSON library reports about it.
 */
module ThinkingReplay {
  import opened Eviction
  import opened Options

  type Key = string
  type Token = string

  const TTL: int := 3_600_000_000_000
  const MAX_ENTRIES: nat := 10240
  const EVICT_BATCH: nat := 128
  const MAX_TURNS: nat := 64
  const MAX_BLOCKS: nat := 512
  const MAX_SESSION_BYTES: nat := 0x80_0000
  const MAX_TOTAL_BYTES: nat := 0x1000_0000

  datatype Kind = Claude | Kimi

  /** `blocks` is the length of the JSON array, if it is one; `canonical` its canonical encoding. */
  datatype Content = Content(raw: string, blocks: Option<nat>, canonical: Option<string>)

  datatype Entry = Entry(contents: seq<Content>, timestamp: int, generation: Token, deleted: bool)

  datatype Snapshot = Snapshot(generation: Token, loaded: bool, found: bool)

  type Entries = map<Key, Entry>

  predicate ValidContent(c: Content) {
    0 < |c.raw| <= MAX_SESSION_BYTES && c.blocks.Some? && 0 < c.blocks.value <= MAX_BLOCKS
  }

  predicate JsonEqual(a: Content, b: Content) {
    a.canonical.Some? && a.canonical == b.canonical
  }

  function Bytes(contents: seq<Content>): nat {
    if contents == [] then 0 else |contents[0].raw| + Bytes(contents[1..])
  }

  /** Appending one turn to a session */

  predicate Fits(contents: seq<Content>) {
    |contents| <= MAX_TURNS && Bytes(contents) <= MAX_SESSION_BYTES
  }

  predicate Holds(contents: seq<Content>, content: Content) {
    exists i :: 0 <= i < |contents| && JsonEqual(contents[i], content)
  }

  function Trim(contents: seq<Content>): seq<Content> {
    if Fits(contents) then contents else Trim(contents[1..])
  }

  function AppendTurn(contents: seq<Content>, content: Content): seq<Content> {
    if Holds(contents, content) then contents else Trim(contents + [content])
  }

  /** What a request that read `contents` publishes. */
  function Update(kind: Kind, contents: seq<Content>, content: Content): seq<Content> {
    match kind
    case Claude => AppendTurn(contents, content)
    case Kimi => [content]
  }

  /** `Trim` keeps the longest suffix within both session caps. */
  lemma {:induction false} TrimIsLongest(s: seq<Content>) returns (k: nat)
    ensures k <= |s| && Trim(s) == s[k..] && Fits(s[k..])
    ensures forall j :: 0 <= j < k ==> !Fits(s[j..])
  {
    if Fits(s) {
      k := 0;
      assert s[0..] == s;
    } else {
      var t := TrimIsLongest(s[1..]);
      k := t + 1;
      assert s[k..] == s[1..][t..];
      forall j | 0 <= j < k ensures !Fits(s[j..]) {
        if j > 0 {
          assert s[j..] == s[1..][j - 1..];
        } else {
          assert s[0..] == s;
        }
      }
    }
  }

  /** A new turn is always the last one stored, whatever had to go to make room for it. */
  lemma NewTurnIsLast(s: seq<Content>, content: Content)
    requires ValidContent(content) && !Holds(s, content)
    ensures AppendTurn(s, content) != [] && AppendTurn(s, content)[|AppendTurn(s, content)| - 1] == content
  {
    var t := s + [content];
    var k := TrimIsLongest(t);
    assert t[|s|..] == [content];
    assert Bytes([content]) == |content.raw| + Bytes([content][1..]);
    assert Fits(t[|s|..]);
    assert k <= |s|;
  }

  /** How many copies of one turn a session can hold. */
  function Copies(content: Content): nat
    requires 0 < |content.raw|
  {
    if MAX_SESSION_BYTES / |content.raw| < MAX_TURNS then MAX_SESSION_BYTES / |content.raw| else MAX_TURNS
  }

  /** With the turn added, the session is nothing but copies of it, and one more does not fit. */
  predicate FullOf(s: seq<Content>, content: Content)
    requires 0 < |content.raw|
  {
    var n := Copies(content);
    && |s| + 1 >= n
    && (forall i | |s| + 1 - n <= i < |s| :: s[i] == content)
    && (|s| + 1 == n || !Fits(s[|s| - n..] + [content]))
  }

  predicate AllEqual(s: seq<Content>, content: Content) {
    forall i | 0 <= i < |s| :: s[i] == content
  }

  lemma {:induction false} CopiesFit(s: seq<Content>, content: Content)
    requires AllEqual(s, content) && ValidContent(content)
    ensures Bytes(s) == |s| * |content.raw|
    ensures Fits(s) <==> |s| <= Copies(content)
  {
    if s != [] {
      CopiesFit(s[1..], content);
    }
    FitsCount(|s|, |content.raw|);
  }

  lemma {:induction false} TimesMonotone(a: nat, b: nat, c: nat)
    requires a <= b
    ensures a * c <= b * c
  {
    assert b * c == a * c + (b - a) * c;
  }

  lemma {:induction false} QuotientBounds(x: nat, c: nat)
    requires c > 0
    ensures x / c * c <= x < (x / c + 1) * c
  {
    assert x == x / c * c + x % c;
  }

  lemma {:induction false} FitsCount(n: nat, size: nat)
    requires size > 0
    ensures n * size <= MAX_SESSION_BYTES <==> n <= MAX_SESSION_BYTES / size
  {
    var q := MAX_SESSION_BYTES / size;
    QuotientBounds(MAX_SESSION_BYTES, size);
    if n <= q {
      TimesMonotone(n, q, size);
    } else {
      TimesMonotone(q + 1, n, size);
    }
  }

  lemma {:induction false} SuffixFits(t: seq<Content>, a: nat, b: nat)
    requires a <= b <= |t| && Fits(t[a..])
    ensures Fits(t[b..])
    decreases b - a
  {
    if a < b {
      assert t[a..][1..] == t[a + 1..];
      SuffixFits(t, a + 1, b);
    }
  }

  /** Where trimming stops: the first suffix that fits when the one before it does not. */
  lemma {:induction false} TrimStopsAt(t: seq<Content>, from: nat)
    requires from <= |t| && Fits(t[from..]) && (from == 0 || !Fits(t[from - 1..]))
    ensures Trim(t) == t[from..]
    decreases from
  {
    hide Fits;
    assert t[0..] == t;
    if from > 0 {
      if Fits(t) {
        SuffixFits(t, 0, from - 1);
      }
      assert t[1..][from - 1..] == t[from..];
      assert from > 1 ==> t[1..][from - 2..] == t[from - 1..];
      TrimStopsAt(t[1..], from - 1);
    }
  }

  lemma {:induction false} FullIsTrimmed(s: seq<Content>, content: Content)
    requires ValidContent(content) && FullOf(s, content)
    ensures Trim(s + [content]) == (s + [content])[|s| + 1 - Copies(content)..]
    ensures AllEqual(Trim(s + [content]), content)
  {
    hide Fits, Trim, Copies, Bytes;
    var t, n := s + [content], Copies(content);
    var from := |t| - n;
    assert AllEqual(t[from..], content);
    CopiesFit(t[from..], content);
    assert from > 0 ==> t[from - 1..] == s[|s| - n..] + [content];
    TrimStopsAt(t, from);
  }

  lemma ConstantTrim(r: seq<Content>, content: Content)
    requires ValidContent(content) && AllEqual(r, content) && |r| == Copies(content)
    ensures Trim(r + [content]) == r
  {
    var t := r + [content];
    assert AllEqual(t, content);
    CopiesFit(t, content);
    assert t[1..] == r;
    CopiesFit(r, content);
  }

  lemma {:induction false} ShiftedIsConstant(r: seq<Content>, content: Content, i: nat)
    requires (r + [content])[1..] == r && i < |r|
    ensures r[i] == content
    decreases |r| - i
  {
    assert (r + [content])[1..][i] == (r + [content])[i + 1];
    if i + 1 < |r| {
      ShiftedIsConstant(r, content, i + 1);
    }
  }

  /** A list that trimming returns to after one more copy has only copies. */
  lemma StableIsConstant(r: seq<Content>, content: Content)
    requires Trim(r + [content]) == r
    ensures AllEqual(r, content) && !Fits(r + [content])
  {
    hide Fits, Trim;
    var t := r + [content];
    var j := TrimIsLongest(t);
    assert |t[j..]| == |t| - j && |t| == |r| + 1;
    assert t[1..] == r && t[0..] == t;
    forall i | 0 <= i < |r| ensures r[i] == content {
      ShiftedIsConstant(r, content, i);
    }
  }

  lemma ConstantTailIsFull(s: seq<Content>, content: Content, k: nat)
    requires 0 < |content.raw| && k <= |s| + 1 && |s| + 1 - k == Copies(content)
    requires AllEqual((s + [content])[k..], content)
    requires k == 0 || !Fits((s + [content])[k - 1..])
    ensures FullOf(s, content)
  {
    hide Fits, Copies;
    var t, n := s + [content], Copies(content);
    forall i | |s| + 1 - n <= i < |s| ensures s[i] == content {
      assert t[k..][i - k] == s[i];
    }
    if k > 0 {
      assert t[k - 1..] == s[|s| - n..] + [content];
    }
  }

  lemma StableIsFull(s: seq<Content>, content: Content)
    requires ValidContent(content)
    requires Trim(Trim(s + [content]) + [content]) == Trim(s + [content])
    ensures FullOf(s, content)
  {
    hide Fits, Trim, Copies, Bytes, FullOf;
    var k := TrimIsLongest(s + [content]);
    var r := (s + [content])[k..];
    StableIsConstant(r, content);
    assert AllEqual(r + [content], content);
    CopiesFit(r, content);
    CopiesFit(r + [content], content);
    assert |r| == Copies(content);
    ConstantTailIsFull(s, content, k);
  }

  /**
   Publishing the same turn twice is publishing it once, if and only if the turn has a canonical
   form by which it is recognized or the session is full of it already.
   */
  lemma AppendTurnTwice(s: seq<Content>, content: Content)
    requires ValidContent(content)
    ensures AppendTurn(AppendTurn(s, content), content) == AppendTurn(s, content) <==> content.canonical.Some? || FullOf(s, content)
  {
    if content.canonical.Some? {
      AppendTurnIdempotent(s, content);
    } else {
      assert forall t :: !Holds(t, content);
      if FullOf(s, content) {
        FullIsTrimmed(s, content);
        ConstantTrim(Trim(s + [content]), content);
      } else if Trim(Trim(s + [content]) + [content]) == Trim(s + [content]) {
        StableIsFull(s, content);
      }
    }
  }

  lemma AppendTurnIdempotent(s: seq<Content>, content: Content)
    requires ValidContent(content) && content.canonical.Some?
    ensures AppendTurn(AppendTurn(s, content), content) == AppendTurn(s, content)
  {
    if !Holds(s, content) {
      NewTurnIsLast(s, content);
      var r := AppendTurn(s, content);
      assert JsonEqual(r[|r| - 1], content);
    }
  }

  /** What is stored under a live entry */
  predicate SessionOk(kind: Kind, contents: seq<Content>) {
    && contents != []
    && Fits(contents)
    && (forall i :: 0 <= i < |contents| ==> ValidContent(contents[i]))
    && (kind.Kimi? ==> |contents| == 1)
  }

  predicate EntryOk(kind: Kind, e: Entry) {
    if e.deleted then e.contents == [] else SessionOk(kind, e.contents)
  }

  ghost predicate AllOk(kind: Kind, m: Entries) {
    forall k | k in m :: EntryOk(kind, m[k])
  }

  lemma SingleOk(kind: Kind, content: Content)
    requires ValidContent(content)
    ensures SessionOk(kind, [content])
  {
    assert Bytes([content]) == |content.raw| + Bytes([content][1..]);
  }

  lemma UpdateOk(kind: Kind, s: seq<Content>, content: Content)
    requires ValidContent(content)
    requires s == [] || SessionOk(kind, s)
    ensures SessionOk(kind, Update(kind, s, content))
  {
    SingleOk(kind, content);
    if kind.Claude? && !Holds(s, content) {
      NewTurnIsLast(s, content);
      var k := TrimIsLongest(s + [content]);
    }
  }

  method AppendContent(contents: seq<Content>, content: Content) returns (r: seq<Content>)
    ensures r == AppendTurn(contents, content)
  {
    r := contents;
    for i := 0 to |r|
      invariant forall j :: 0 <= j < i ==> !JsonEqual(contents[j], content)
    {
      if JsonEqual(r[i], content) {
        return;
      }
    }
    r := r + [content];
    var size := TotalOf(r);
    while |r| > MAX_TURNS || size > MAX_SESSION_BYTES
      invariant size == Bytes(r)
      invariant Trim(r) == Trim(contents + [content])
      decreases |r|
    {
      r := r[1..];
      size := TotalOf(r);
    }
  }

  method TotalOf(contents: seq<Content>) returns (total: nat)
    ensures total == Bytes(contents)
  {
    total := 0;
    for i := 0 to |contents|
      invariant total + Bytes(contents[i..]) == Bytes(contents)
    {
      total := total + |contents[i].raw|;
      assert contents[i..][1..] == contents[i + 1..];
    }
  }

  /** The bytes held by all entries together */

  ghost function Total(m: Entries): nat
    decreases |m|
  {
    if |m| == 0 then 0 else
      var k := Pick(m);
      Shrinks(m, {k});
      Bytes(m[k].contents) + Total(m - {k})
  }

  ghost function Pick(m: Entries): (k: Key)
    requires |m| > 0
    ensures k in m
  {
    NonEmpty(m);
    var k :| k in m; k
  }

  lemma NonEmpty(m: Entries)
    requires |m| > 0
    ensures exists k :: k in m
  {
    assert |m.Keys| == |m|;
    assert m.Keys != {};
  }

  lemma Shrinks(m: Entries, keys: set<Key>)
    requires keys <= m.Keys
    ensures |m - keys| == |m| - |keys|
  {
    assert (m - keys).Keys == m.Keys - keys;
    assert |(m - keys).Keys| == |m - keys| && |m.Keys| == |m|;
  }

  lemma {:induction false} TotalTake(m: Entries, k: Key)
    requires k in m
    ensures Total(m) == Bytes(m[k].contents) + Total(m - {k})
    decreases |m|
  {
    var p := Pick(m);
    Shrinks(m, {p});
    Shrinks(m, {k});
    if p != k {
      TotalTake(m - {p}, k);
      TotalTake(m - {k}, p);
      assert m - {p} - {k} == m - {k} - {p};
    }
  }

  lemma TotalPut(m: Entries, k: Key, e: Entry)
    ensures Total(m[k := e]) == Total(m - {k}) + Bytes(e.contents)
  {
    TotalTake(m[k := e], k);
    assert m[k := e] - {k} == m - {k};
  }

  /** The bytes `key` accounts for; none when it is absent. */
  function Weight(m: Entries, key: Key): nat {
    if key in m then Bytes(m[key].contents) else 0
  }

  lemma TotalReplace(m: Entries, k: Key, e: Entry)
    ensures Total(m[k := e]) == Total(m) - Weight(m, k) + Bytes(e.contents)
  {
    TotalPut(m, k, e);
    if k in m {
      TotalTake(m, k);
    } else {
      assert m - {k} == m;
    }
  }

  lemma TotalWithout(m: Entries, keys: set<Key>)
    requires keys <= m.Keys
    ensures Total(m - keys) <= Total(m)
    decreases |keys|
  {
    hide Total;
    if keys == {} {
      assert m - keys == m;
    } else {
      var k :| k in keys;
      TotalTake(m, k);
      TotalWithout(m - {k}, keys - {k});
      assert m - {k} - (keys - {k}) == m - keys;
    }
  }

  /** Enforcing the limits */

  ghost predicate Capped(m: Entries) {
    |m| <= MAX_ENTRIES && Total(m) <= MAX_TOTAL_BYTES
  }

  function Timestamps(m: Entries): map<Key, int> {
    map k | k in m :: m[k].timestamp
  }

  ghost predicate Batch(m: Entries, victims: set<Key>) {
    victims <= m.Keys && AreOldest(Timestamps(m), EVICT_BATCH, victims)
  }

  lemma BatchSize(m: Entries, victims: set<Key>)
    requires Batch(m, victims)
    ensures |victims| == Min(EVICT_BATCH, |m|)
    ensures |m - victims| == |m| - |victims|
    ensures !Capped(m) ==> |m| > 0
  {
    Shrinks(m, victims);
    assert Timestamps(m).Keys == m.Keys;
    assert |Timestamps(m).Keys| == |Timestamps(m)| && |m.Keys| == |m|;
  }

  /** Batches of the oldest entries go until both caps hold. */
  ghost predicate Enforced(m: Entries, m': Entries)
    decreases |m|
  {
    if Capped(m) then m' == m
    else exists victims :: Batch(m, victims) && (BatchSize(m, victims); Enforced(m - victims, m'))
  }

  lemma {:induction false} EnforcedKeeps(m: Entries, m': Entries)
    requires Enforced(m, m')
    ensures Capped(m') && m'.Keys <= m.Keys && (forall k | k in m' :: m'[k] == m[k])
    ensures !Capped(m) ==> |m'| <= |m| - Min(EVICT_BATCH, |m|)
    decreases |m|
  {
    hide Capped, Batch, Total;
    if !Capped(m) {
      var victims :| Batch(m, victims) && (BatchSize(m, victims); Enforced(m - victims, m'));
      BatchSize(m, victims);
      EnforcedKeeps(m - victims, m');
    }
  }

  lemma {:induction false} EnforcedDropsOldest(m: Entries, m': Entries, v: Key, k: Key)
    requires Enforced(m, m') && v in m && v !in m' && k in m'
    ensures k in m && m[v].timestamp <= m[k].timestamp
    decreases |m|
  {
    hide Capped, Batch, Total;
    EnforcedKeeps(m, m');
    if !Capped(m) {
      var victims :| Batch(m, victims) && (BatchSize(m, victims); Enforced(m - victims, m'));
      BatchSize(m, victims);
      EnforcedKeeps(m - victims, m');
      if v in victims {
        BatchIsOlder(m, victims, v, k);
      } else {
        EnforcedDropsOldest(m - victims, m', v, k);
      }
    }
  }

  lemma BatchIsOlder(m: Entries, victims: set<Key>, v: Key, k: Key)
    requires Batch(m, victims) && v in victims && k in m && k !in victims
    ensures v in m && m[v].timestamp <= m[k].timestamp
  {
    assert Timestamps(m)[v] <= Timestamps(m)[k];
  }

  /** Enforcement keeps the newest entries untouched and establishes both caps. */
  lemma {:induction false} EnforcedMeans(m: Entries, m': Entries)
    requires Enforced(m, m')
    ensures Capped(m')
    ensures m'.Keys <= m.Keys && forall k | k in m' :: m'[k] == m[k]
    ensures forall v, k | v in m && v !in m' && k in m' :: m[v].timestamp <= m[k].timestamp
    ensures !Capped(m) ==> |m'| <= |m| - Min(EVICT_BATCH, |m|)
  {
    hide Capped, Enforced;
    EnforcedKeeps(m, m');
    forall v, k | v in m && v !in m' && k in m' ensures m[v].timestamp <= m[k].timestamp {
      EnforcedDropsOldest(m, m', v, k);
    }
  }

  /** With at most one batch of entries, going over the byte cap empties the whole cache. */
  lemma SmallCacheIsEmptied(m: Entries, m': Entries)
    requires Enforced(m, m') && !Capped(m) && |m| <= EVICT_BATCH
    ensures m' == map[]
  {
    EnforcedMeans(m, m');
    assert |m'.Keys| == |m'|;
    assert m'.Keys == {};
  }

  /** Whether the newest entry survives */

  function Only(m: Entries, keys: set<Key>): Entries {
    map k | k in m && k in keys :: m[k]
  }

  /** What whole batches leave over: the last positive size that enforcement can come down to. */
  function LeftOver(n: nat): nat
    requires n > 0
  {
    (n - 1) % EVICT_BATCH + 1
  }

  /** `top` holds entries strictly newer than all others. */
  ghost predicate AreNewest(m: Entries, top: set<Key>) {
    top <= m.Keys && forall x, y | x in top && y in m && y !in top :: m[y].timestamp < m[x].timestamp
  }

  ghost predicate DistinctTimes(m: Entries) {
    forall x, y | x in m && y in m && x != y :: m[x].timestamp != m[y].timestamp
  }

  /** With distinct timestamps the newest entries, as many as wanted, are determined. */
  lemma {:induction false} NewestExist(m: Entries, n: nat) returns (top: set<Key>)
    requires DistinctTimes(m) && n <= |m|
    ensures AreNewest(m, top) && |top| == n
    decreases |m| - n
  {
    if n == |m| {
      top := m.Keys;
      assert |m.Keys| == |m|;
    } else {
      var more := NewestExist(m, n + 1);
      var last := OldestOf(m, more);
      top := more - {last};
    }
  }

  lemma {:induction false} OldestOf(m: Entries, keys: set<Key>) returns (k: Key)
    requires keys <= m.Keys && keys != {}
    ensures k in keys && forall x | x in keys :: m[k].timestamp <= m[x].timestamp
    decreases |keys|
  {
    k :| k in keys;
    if keys != {k} {
      var r := OldestOf(m, keys - {k});
      k := if m[r].timestamp < m[k].timestamp then r else k;
    }
  }

  /** A batch taken while at least a batch of older entries is there takes none of the newest. */
  lemma BatchSparesNewest(m: Entries, victims: set<Key>, top: set<Key>)
    requires Batch(m, victims) && AreNewest(m, top) && |m| >= |top| + EVICT_BATCH
    ensures victims !! top && |victims| == EVICT_BATCH
  {
    BatchSize(m, victims);
    var older := m.Keys - top;
    assert |m.Keys| == |m| && |older| == |m| - |top|;
    forall x | x in victims ensures x !in top {
      if x in top {
        assert forall y | y in older :: Timestamps(m)[y] < Timestamps(m)[x];
        assert older <= victims - {x};
        SubsetSize(older, victims - {x});
      }
    }
  }

  lemma SubsetSize(a: set<Key>, b: set<Key>)
    requires a <= b
    ensures |a| <= |b|
  {
    assert b == a + (b - a);
  }

  lemma OnlyIsLighter(m: Entries, keys: set<Key>)
    ensures Total(Only(m, keys)) <= Total(m)
  {
    assert Only(m, keys) == m - (m.Keys - keys);
    TotalWithout(m, m.Keys - keys);
  }

  /**
   Enforcement comes down to the left-over newest entries exactly when they alone are within the
   byte cap; otherwise nothing is kept.
   */
  lemma {:induction false} NewestKept(m: Entries, m': Entries, top: set<Key>, batches: nat)
    requires Enforced(m, m') && AreNewest(m, top) && 0 < |top| <= EVICT_BATCH && |m| == |top| + batches * EVICT_BATCH
    ensures if Total(Only(m, top)) <= MAX_TOTAL_BYTES then top <= m'.Keys else m' == map[]
    decreases |m|
  {
    hide Capped, Batch, AreNewest, Total;
    if Capped(m) {
      OnlyIsLighter(m, top);
      CappedBytes(m);
      NewestIn(m, top);
    } else {
      var victims :| Batch(m, victims) && (BatchSize(m, victims); Enforced(m - victims, m'));
      BatchSize(m, victims);
      if batches == 0 {
        BatchIn(m, victims);
        NewestIn(m, top);
        AllOf(m, top);
        AllOf(m, victims);
        assert m - victims == map[];
        EmptyEnforced(m');
        CappedBytes(m);
      } else {
        BatchSparesNewest(m, victims, top);
        NewestStay(m, victims, top);
        NewestKept(m - victims, m', top, batches - 1);
      }
    }
  }

  lemma CappedBytes(m: Entries)
    ensures Capped(m) ==> Total(m) <= MAX_TOTAL_BYTES
    ensures !Capped(m) && |m| <= MAX_ENTRIES ==> Total(m) > MAX_TOTAL_BYTES
  {}

  lemma NewestIn(m: Entries, top: set<Key>)
    requires AreNewest(m, top)
    ensures top <= m.Keys
  {}

  lemma BatchIn(m: Entries, victims: set<Key>)
    requires Batch(m, victims)
    ensures victims <= m.Keys
  {}

  lemma NewestStay(m: Entries, victims: set<Key>, top: set<Key>)
    requires AreNewest(m, top) && victims !! top
    ensures AreNewest(m - victims, top) && Only(m - victims, top) == Only(m, top)
  {}

  lemma AllOf(m: Entries, keys: set<Key>)
    requires keys <= m.Keys && |keys| == |m|
    ensures keys == m.Keys && Only(m, keys) == m
  {
    assert |m.Keys| == |m|;
    assert m.Keys == keys + (m.Keys - keys);
  }

  lemma EmptyEnforced(m': Entries)
    requires Enforced(map[], m')
    ensures m' == map[]
  {}

  /**
   The strictly newest entry, such as one just published, survives if and only if the newest
   entries left over by whole batches hold at most the byte cap together.
   */
  lemma NewestSurvivesIff(m: Entries, m': Entries, key: Key, top: set<Key>)
    requires Enforced(m, m') && key in m && forall k | k in m && k != key :: m[k].timestamp < m[key].timestamp
    requires AreNewest(m, top) && |m| > 0 && |top| == LeftOver(|m|)
    ensures key in m' <==> Total(Only(m, top)) <= MAX_TOTAL_BYTES
    ensures key !in m' <==> m' == map[]
  {
    var n := |m|;
    assert n == |top| + (n - 1) / EVICT_BATCH * EVICT_BATCH;
    assert top != {};
    var x :| x in top;
    assert key in top;
    NewestKept(m, m', top, (n - 1) / EVICT_BATCH);
  }

  /** The operations */

  datatype Op =
    | Store(key: Key, content: Content, now: int, generation: Token)
    | Get(key: Key, now: int, generation: Token)
    | Replace(key: Key, snap: Snapshot, content: Content, now: int, generation: Token)
    | Discard(key: Key, snap: Snapshot, now: int, generation: Token)
    | Remove(key: Key, generation: Token)
    | Purge(now: int, generation: Token)
    | Clear(generation: Token)

  datatype Outcome = Rejected | Accepted | Loaded(snap: Snapshot, contents: seq<Content>, live: bool)

  function Tombstone(now: int, generation: Token): Entry {
    Entry([], now, generation, true)
  }

  predicate Expired(e: Entry, now: int) {
    now - e.timestamp > TTL
  }

  function ExpiredKeys(m: Entries, now: int): set<Key> {
    set k | k in m && Expired(m[k], now)
  }

  predicate Matches(m: Entries, key: Key, snap: Snapshot) {
    if key in m then snap.found && m[key].generation == snap.generation else !snap.found
  }

  function ContentsAt(m: Entries, key: Key): seq<Content> {
    if key in m then m[key].contents else []
  }

  function Reading(e: Entry): Outcome {
    Loaded(Snapshot(e.generation, true, true), if e.deleted then [] else e.contents, !e.deleted && e.contents != [])
  }

  /** `Next(kind, m, op, m', out)`: under the mutex, `op` takes the map from `m` to `m'` and answers `out`. */
  ghost predicate Next(kind: Kind, m: Entries, op: Op, m': Entries, out: Outcome) {
    match op
    case Store(key, content, now, generation) => StoreNext(m, key, content, now, generation, m', out)
    case Get(key, now, generation) => GetNext(m, key, now, generation, m', out)
    case Replace(key, snap, content, now, generation) =>
      if !ValidContent(content) then m' == m && out == Rejected
      else if !snap.loaded then StoreNext(m, key, content, now, generation, m', out)
      else ReplaceNext(kind, m, key, snap, content, now, generation, m', out)
    case Discard(key, snap, now, generation) =>
      if !snap.loaded then m' == m - {key} && out == Accepted
      else DiscardNext(m, key, snap, now, generation, m', out)
    case Remove(key, _) => m' == m - {key} && out == Accepted
    case Purge(now, _) => m' == m - ExpiredKeys(m, now) && out == Accepted
    case Clear(_) => m' == map[] && out == Accepted
  }

  ghost predicate StoreNext(m: Entries, key: Key, content: Content, now: int, generation: Token, m': Entries, out: Outcome) {
    if !ValidContent(content) then m' == m && out == Rejected
    else Enforced(m[key := Entry([content], now, generation, false)], m') && out == Accepted
  }

  ghost predicate ReplaceNext(kind: Kind, m: Entries, key: Key, snap: Snapshot, content: Content, now: int, generation: Token, m': Entries, out: Outcome) {
    if !Matches(m, key, snap) then m' == m && out == Rejected
    else Enforced(m[key := Entry(Update(kind, ContentsAt(m, key), content), now, generation, false)], m') && out == Accepted
  }

  ghost predicate DiscardNext(m: Entries, key: Key, snap: Snapshot, now: int, generation: Token, m': Entries, out: Outcome) {
    if !Matches(m, key, snap) then m' == m && out == Rejected
    else m' == m[key := Tombstone(now, generation)] && out == Accepted
  }

  /** A miss is fenced with a tombstone, which is put back if enforcing the limits took it away. */
  ghost predicate GetNext(m: Entries, key: Key, now: int, generation: Token, m': Entries, out: Outcome) {
    if key in m && !Expired(m[key], now) then
      m' == m[key := m[key].(timestamp := now)] && out == Reading(m'[key])
    else
      && Fenced(m, key, Tombstone(now, generation), m')
      && out == Reading(Tombstone(now, generation))
  }

  ghost predicate Fenced(m: Entries, key: Key, e: Entry, m': Entries) {
    exists mid :: FencedVia(m, key, e, mid, m')
  }

  ghost predicate FencedVia(m: Entries, key: Key, e: Entry, mid: Entries, m': Entries) {
    Enforced(m[key := e], mid) && m' == mid[key := e]
  }

  /** The cache object.  Every method body runs with the mutex held. */
  class ReplayCache {
    const kind: Kind
    var entries: Entries
    var totalBytes: int

    /** The running total is the number of bytes the entries hold. */
    ghost predicate Valid()
      reads this
    {
      totalBytes == Total(entries)
    }

    constructor (kind: Kind)
      ensures Valid() && entries == map[] && this.kind == kind
    {
      this.kind := kind;
      entries, totalBytes := map[], 0;
    }

    method Drop(key: Key)
      requires Valid()
      modifies this
      ensures Valid() && entries == old(entries) - {key}
    {
      if key in entries {
        TotalTake(entries, key);
        var size := TotalOf(entries[key].contents);
        totalBytes := totalBytes - size;
        entries := entries - {key};
      } else {
        assert entries - {key} == entries;
      }
    }

    method EvictOldest()
      requires Valid()
      modifies this
      ensures Valid()
      ensures exists victims :: Batch(old(entries), victims) && entries == old(entries) - victims
    {
      hide Total, AreOldest;
      var victims := OldestKeys(Timestamps(entries), EVICT_BATCH);
      assert Timestamps(entries).Keys == entries.Keys;
      DropEach(victims);
    }

    method DropEach(keys: set<Key>)
      requires Valid()
      modifies this
      ensures Valid() && entries == old(entries) - keys
    {
      hide Total;
      var rest := keys;
      ghost var gone: set<Key> := {};
      while rest != {}
        invariant Valid()
        invariant gone + rest == keys && entries == old(entries) - gone
        decreases rest
      {
        var key :| key in rest;
        ghost var before := entries;
        Drop(key);
        assert before - {key} == old(entries) - (gone + {key});
        gone := gone + {key};
        rest := rest - {key};
      }
    }

    /** The loop never meets an empty map with bytes left over. */
    method EnforceLimits()
      requires Valid()
      modifies this
      ensures Valid() && Enforced(old(entries), entries)
    {
      while |entries| > MAX_ENTRIES || totalBytes > MAX_TOTAL_BYTES
        invariant Valid()
        invariant forall m' :: Enforced(entries, m') ==> Enforced(old(entries), m')
        decreases |entries|
      {
        assert |entries| != 0;
        ghost var before := entries;
        EvictOldest();
        ghost var victims :| Batch(before, victims) && entries == before - victims;
        BatchSize(before, victims);
      }
    }

    method Put(key: Key, contents: seq<Content>, now: int, generation: Token, deleted: bool)
      requires Valid()
      modifies this
      ensures Valid() && entries == old(entries)[key := Entry(contents, now, generation, deleted)]
    {
      TotalReplace(entries, key, Entry(contents, now, generation, deleted));
      if key in entries {
        var gone := TotalOf(entries[key].contents);
        totalBytes := totalBytes - gone;
      }
      var added := TotalOf(contents);
      totalBytes := totalBytes + added;
      entries := entries[key := Entry(contents, now, generation, deleted)];
    }

    method CacheContent(key: Key, content: Content, now: int, generation: Token) returns (stored: bool)
      requires Valid()
      modifies this
      ensures Valid() && Next(kind, old(entries), Store(key, content, now, generation), entries, if stored then Accepted else Rejected)
    {
      if !ValidContent(content) {
        return false;
      }
      Put(key, [content], now, generation, false);
      EnforceLimits();
      return true;
    }

    method GetWithSnapshot(key: Key, now: int, generation: Token) returns (contents: seq<Content>, snap: Snapshot, live: bool)
      requires Valid()
      modifies this
      ensures Valid() && Next(kind, old(entries), Get(key, now, generation), entries, Loaded(snap, contents, live))
    {
      hide Enforced, Total;
      var entry: Entry;
      if key in entries && !Expired(entries[key], now) {
        entry := entries[key].(timestamp := now);
      } else {
        Drop(key);
        entry := Reserve(key, now, generation);
        assert old(entries)[key := entry] == (old(entries) - {key})[key := entry];
        assert FencedVia(old(entries), key, entry, entries, entries[key := entry]);
      }
      TotalReplace(entries, key, entry);
      entries := entries[key := entry];
      snap := Snapshot(entry.generation, true, true);
      if entry.deleted {
        return [], snap, false;
      }
      return entry.contents, snap, entry.contents != [];
    }

    method Reserve(key: Key, now: int, generation: Token) returns (entry: Entry)
      requires Valid() && key !in entries
      modifies this
      ensures entry == Tombstone(now, generation)
      ensures Valid() && Enforced(old(entries)[key := entry], entries)
      ensures Weight(entries, key) == 0
    {
      entry := Entry([], now, generation, true);
      TotalReplace(entries, key, entry);
      entries := entries[key := entry];
      EnforceLimits();
      EnforcedMeans(old(entries)[key := entry], entries);
    }

    method ReplaceIfUnchanged(key: Key, snap: Snapshot, content: Content, now: int, generation: Token) returns (ok: bool)
      requires Valid()
      modifies this
      ensures Valid() && Next(kind, old(entries), Replace(key, snap, content, now, generation), entries, if ok then Accepted else Rejected)
    {
      if !ValidContent(content) {
        return false;
      }
      if !snap.loaded {
        ok := CacheContent(key, content, now, generation);
        return;
      }
      var found := key in entries;
      if found != snap.found || (found && entries[key].generation != snap.generation) {
        return false;
      }
      var contents := [content];
      if kind.Claude? {
        contents := AppendContent(if found then entries[key].contents else [], content);
      }
      Put(key, contents, now, generation, false);
      EnforceLimits();
      return true;
    }

    method DeleteIfUnchanged(key: Key, snap: Snapshot, now: int, generation: Token) returns (ok: bool)
      requires Valid()
      modifies this
      ensures Valid() && Next(kind, old(entries), Discard(key, snap, now, generation), entries, if ok then Accepted else Rejected)
    {
      if !snap.loaded {
        DeleteRequired(key, generation);
        return true;
      }
      var found := key in entries;
      if found != snap.found || (found && entries[key].generation != snap.generation) {
        return false;
      }
      Put(key, [], now, generation, true);
      return true;
    }

    method DeleteRequired(key: Key, ghost generation: Token)
      requires Valid()
      modifies this
      ensures Valid() && Next(kind, old(entries), Remove(key, generation), entries, Accepted)
    {
      Drop(key);
    }

    method PurgeExpired(now: int, ghost generation: Token)
      requires Valid()
      modifies this
      ensures Valid() && Next(kind, old(entries), Purge(now, generation), entries, Accepted)
    {
      var rest := entries.Keys;
      ghost var gone: set<Key> := {};
      while rest != {}
        invariant Valid()
        invariant rest <= old(entries.Keys) && gone <= ExpiredKeys(old(entries), now)
        invariant rest !! gone
        invariant forall k | k in old(entries) && k !in rest && Expired(old(entries)[k], now) :: k in gone
        invariant entries == old(entries) - gone
        decreases rest
      {
        var key :| key in rest;
        rest := rest - {key};
        if Expired(entries[key], now) {
          Drop(key);
          gone := gone + {key};
        }
      }
      assert gone == ExpiredKeys(old(entries), now);
    }

    method ClearAll(ghost generation: Token)
      requires Valid()
      modifies this
      ensures Valid() && Next(kind, old(entries), Clear(generation), entries, Accepted)
    {
      entries, totalBytes := map[], 0;
    }
  }

  /** Which operations keep the caps */

  lemma WithoutCapped(m: Entries, keys: set<Key>)
    requires Capped(m)
    ensures Capped(m - keys)
  {
    var gone := keys * m.Keys;
    assert m - keys == m - gone;
    Shrinks(m, gone);
    TotalWithout(m, gone);
  }

  lemma PutSize(m: Entries, key: Key, e: Entry)
    ensures |m[key := e]| == |m| + (if key in m then 0 else 1)
  {
    assert m[key := e].Keys == m.Keys + {key};
    assert |m[key := e].Keys| == |m[key := e]| && |m.Keys| == |m|;
  }

  lemma PutLighterCapped(m: Entries, key: Key, e: Entry)
    requires Capped(m) && Bytes(e.contents) <= Weight(m, key)
    ensures Capped(m[key := e]) <==> (key in m || |m| < MAX_ENTRIES)
  {
    PutSize(m, key, e);
    TotalReplace(m, key, e);
  }

  /** Putting the tombstone back is safe: if it was evicted, a whole batch went with it. */
  lemma FencedCapped(m: Entries, key: Key, e: Entry, m': Entries)
    requires Capped(m) && Fenced(m, key, e, m') && e.contents == []
    ensures Capped(m')
  {
    hide Enforced;
    var mid :| FencedVia(m, key, e, mid, m');
    var put := m[key := e];
    EnforcedMeans(put, mid);
    PutSize(m, key, e);
    if key in mid {
      assert mid[key := e] == mid;
    } else {
      assert put != mid;
      UnevenMeansEvicted(put, mid);
      PutLighterCapped(mid, key, e);
    }
  }

  lemma UnevenMeansEvicted(m: Entries, m': Entries)
    requires Enforced(m, m') && m' != m
    ensures !Capped(m)
  {}

  /** The one step that leaves the caps behind: a delete that expects absence, at full capacity. */
  predicate AddsUnchecked(m: Entries, op: Op) {
    op.Discard? && op.snap.loaded && !op.snap.found && op.key !in m && |m| == MAX_ENTRIES
  }

  lemma StepCaps(kind: Kind, m: Entries, op: Op, m': Entries, out: Outcome)
    requires Capped(m) && Next(kind, m, op, m', out)
    ensures Capped(m') <==> !AddsUnchecked(m, op)
  {
    hide Capped, StoreNext, GetNext, ReplaceNext, DiscardNext;
    match op
    case Store(key, content, now, generation) => StoreCapped(m, key, content, now, generation, m', out);
    case Get(key, now, generation) => GetCapped(m, key, now, generation, m', out);
    case Replace(key, snap, content, now, generation) =>
      if !ValidContent(content) {
      } else if snap.loaded {
        ReplaceCapped(kind, m, key, snap, content, now, generation, m', out);
      } else {
        StoreCapped(m, key, content, now, generation, m', out);
      }
    case Discard(key, snap, now, generation) =>
      if snap.loaded {
        DiscardCaps(m, key, snap, now, generation, m', out);
      } else {
        WithoutCapped(m, {key});
      }
    case Remove(key, _) => WithoutCapped(m, {key});
    case Purge(now, _) => WithoutCapped(m, ExpiredKeys(m, now));
    case Clear(_) => WithoutCapped(m, m.Keys); assert m - m.Keys == map[];
  }

  lemma GetCapped(m: Entries, key: Key, now: int, generation: Token, m': Entries, out: Outcome)
    requires Capped(m) && GetNext(m, key, now, generation, m', out)
    ensures Capped(m')
  {
    hide Fenced, Capped;
    if key in m && !Expired(m[key], now) {
      PutLighterCapped(m, key, m[key].(timestamp := now));
    } else {
      FencedCapped(m, key, Tombstone(now, generation), m');
    }
  }

  lemma ReplaceCapped(kind: Kind, m: Entries, key: Key, snap: Snapshot, content: Content, now: int, generation: Token, m': Entries, out: Outcome)
    requires Capped(m) && ReplaceNext(kind, m, key, snap, content, now, generation, m', out)
    ensures Capped(m')
  {
    hide Capped, Update;
    if Matches(m, key, snap) {
      EnforcedMeans(m[key := Entry(Update(kind, ContentsAt(m, key), content), now, generation, false)], m');
    }
  }

  lemma DiscardCaps(m: Entries, key: Key, snap: Snapshot, now: int, generation: Token, m': Entries, out: Outcome)
    requires Capped(m) && DiscardNext(m, key, snap, now, generation, m', out)
    ensures Capped(m') <==> !(!snap.found && key !in m && |m| == MAX_ENTRIES)
  {
    if Matches(m, key, snap) {
      PutLighterCapped(m, key, Tombstone(now, generation));
    }
  }

  lemma StoreCapped(m: Entries, key: Key, content: Content, now: int, generation: Token, m': Entries, out: Outcome)
    requires Capped(m) && StoreNext(m, key, content, now, generation, m', out)
    ensures Capped(m')
  {
    hide Capped;
    if ValidContent(content) {
      EnforcedMeans(m[key := Entry([content], now, generation, false)], m');
    }
  }
}
