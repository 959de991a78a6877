/** Runs of the thinking replay caches that show what the limits can do. */
module ThinkingSample {
  import opened Eviction
  import opened Options
  import opened ThinkingReplay
  import opened ThinkingRuns

  const SIZE: nat := 8_200_000

  /** One turn of `SIZE` bytes, within the limit for one session. */
  function Turn(): Content {
    Content(Repeat('x', SIZE), Some(1), None)
  }

  function Repeat(c: char, n: nat): (s: string)
    ensures |s| == n
  {
    seq(n, i => c)
  }

  /** The session key, and generation, with number `i`. */
  function Name(i: nat): string {
    Repeat('k', i)
  }

  /** What is stored for session `i`: one turn, or a tombstone. */
  function Session(i: nat, live: bool): Entry {
    if live then Entry([Turn()], i, Name(i), false) else Tombstone(i, Name(i))
  }

  /** Sessions 1 to `n`, each stored at its own time. */
  function Sessions(n: nat, live: bool): Entries {
    if n == 0 then map[] else Sessions(n - 1, live)[Name(n) := Session(n, live)]
  }

  function Tokens(n: nat): set<Token> {
    set i | 1 <= i <= n :: Name(i)
  }

  lemma {:induction false} SessionsAre(n: nat, live: bool)
    ensures |Sessions(n, live)| == n && Total(Sessions(n, live)) == if live then n * SIZE else 0
    ensures forall k | k in Sessions(n, live) :: |k| <= n
  {
    hide Total;
    if n == 0 {
      NoSessions();
    } else {
      SessionsAre(n - 1, live);
      TurnBytes();
      var m := Sessions(n - 1, live);
      assert Name(n) !in m;
      PutSize(m, Name(n), Session(n, live));
      TotalReplace(m, Name(n), Session(n, live));
    }
  }

  lemma NoSessions()
    ensures Total(map[]) == 0
  {}

  lemma TurnBytes()
    ensures ValidContent(Turn()) && Bytes([Turn()]) == SIZE
  {
    assert Bytes([Turn()]) == |Turn().raw| + Bytes([Turn()][1..]);
  }

  lemma LiveSessions(n: nat)
    ensures |Sessions(n, true)| == n && Total(Sessions(n, true)) == n * SIZE
    ensures Capped(Sessions(n, true)) <==> n <= 32
  {
    SessionsAre(n, true);
  }

  function StoreStep(i: nat): Step {
    Step(Store(Name(i), Turn(), i, Name(i)), Accepted)
  }

  lemma TokenIsFresh(n: nat)
    ensures Name(n + 1) !in Tokens(n) && Tokens(n + 1) == Tokens(n) + {Name(n + 1)}
  {
  }

  lemma StoreFits(kind: Kind, n: nat)
    requires n < 32
    ensures SystemNext(kind, System(Sessions(n, true), Tokens(n)), StoreStep(n + 1), System(Sessions(n + 1, true), Tokens(n + 1)))
  {
    hide Capped, Total;
    TurnBytes();
    TokenIsFresh(n);
    LiveSessions(n + 1);
  }

  /** The store of the thirty-third session empties the cache, that session included. */
  lemma StoreEmpties(kind: Kind)
    ensures SystemNext(kind, System(Sessions(32, true), Tokens(32)), StoreStep(33), System(map[], Tokens(33)))
  {
    hide Capped, Total;
    TurnBytes();
    TokenIsFresh(32);
    LiveSessions(33);
    var m := Sessions(33, true);
    assert m == Sessions(32, true)[Name(33) := Entry([Turn()], 33, Name(33), false)];
    AllAreOldest(m);
    BatchSize(m, m.Keys);
    assert m - m.Keys == map[];
    NothingToEnforce();
    assert Enforced(m, map[]);
  }

  lemma AllAreOldest(m: Entries)
    requires |m| <= EVICT_BATCH
    ensures Batch(m, m.Keys)
  {
    assert Timestamps(m).Keys == m.Keys;
    assert |Timestamps(m).Keys| == |Timestamps(m)| && |m.Keys| == |m|;
  }

  lemma NothingToEnforce()
    ensures Enforced(map[], map[])
  {
    NoSessions();
  }

  function StateAt(i: nat): System {
    if i == 33 then System(map[], Tokens(33)) else System(Sessions(i, true), Tokens(i))
  }

  lemma StateFacts()
    ensures StateAt(0) == System(map[], {}) && |StateAt(32).entries| == 32 && StateAt(33).entries == map[]
  {
    hide Total;
    LiveSessions(32);
    assert Tokens(0) == {};
  }

  lemma StoreIsPlain(i: nat)
    ensures !Conditional(StoreStep(i).op)
  {}

  lemma StoreSteps(kind: Kind, i: nat)
    requires i < 33
    ensures SystemNext(kind, StateAt(i), StoreStep(i + 1), StateAt(i + 1))
  {
    hide SystemNext, Sessions, Tokens, StoreStep;
    if i < 32 {
      StoreFits(kind, i);
    } else {
      StoreEmpties(kind);
    }
  }

  /**
   A run of nothing but accepted stores, each of a session within its own limits, at whose end
   the session stored last is gone, with all the others.
   */
  lemma PublishedTurnVanishes(kind: Kind) returns (states: seq<System>, steps: seq<Step>)
    ensures Run(kind, states, steps) && |steps| == 33
    ensures forall i | 0 <= i < 33 :: steps[i] == StoreStep(i + 1)
    ensures |states[32].entries| == 32 && Name(33) !in states[33].entries && states[33].entries == map[]
  {
    steps := seq(33, i requires 0 <= i < 33 => StoreStep(i + 1));
    states := seq(34, i requires 0 <= i < 34 => StateAt(i));
    hide SystemNext, StateAt, StoreStep;
    assert states[32] == StateAt(32) && states[33] == StateAt(33);
    StateFacts();
    forall i | 0 <= i < |steps| ensures SystemNext(kind, states[i], steps[i], states[i + 1]) {
      StoreSteps(kind, i);
    }
    forall i | 0 <= i < |steps| ensures !Conditional(steps[i].op) {
      StoreIsPlain(i + 1);
    }
  }

  lemma FullCache() returns (key: Key)
    ensures var m := Sessions(MAX_ENTRIES, false); |m| == MAX_ENTRIES && Capped(m) && key !in m
  {
    hide Total, Sessions;
    SessionsAre(MAX_ENTRIES, false);
    key := Name(MAX_ENTRIES + 1);
  }

  /** At a full cache, deleting from expected absence stores one tombstone too many. */
  lemma DeleteOverfills(kind: Kind) returns (m: Entries, op: Op, m': Entries)
    ensures Capped(m) && Next(kind, m, op, m', Accepted)
    ensures op.Discard? && |m'| == MAX_ENTRIES + 1 && !Capped(m')
  {
    hide Total, Capped, Sessions, Name;
    m := Sessions(MAX_ENTRIES, false);
    var key := FullCache();
    op := Discard(key, Snapshot("", true, false), MAX_ENTRIES + 1, key);
    m' := m[key := Tombstone(MAX_ENTRIES + 1, key)];
    PutSize(m, key, Tombstone(MAX_ENTRIES + 1, key));
    StepCaps(kind, m, op, m', Accepted);
  }
}
