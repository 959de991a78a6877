/**
 What a caller of a thinking replay cache can count on: when a conditional operation goes through,
 what a get answers and for how long, and what is lost and why.  Everything is said about runs, in
 terms of entries, snapshots and step times.
 */
module ThinkingLaws {
  import opened Options
  import opened ThinkingReplay
  import opened ThinkingRuns

  const HOUR: int := 3_600_000_000_000

  /** A JSON array of 1 to 512 blocks in at most 8 MiB. */
  predicate Replayable(c: Content) {
    0 < |c.raw| <= 0x80_0000 && c.blocks.Some? && 1 <= c.blocks.value <= 512
  }

  /** When a conditional operation goes through */

  lemma ConditionalLaw(kind: Kind, s: System, step: Step, s': System)
    requires SystemNext(kind, s, step, s') && Conditional(step.op) && step.op.snap.found
    ensures step.out == Accepted <==>
      && (step.op.Replace? ==> Replayable(step.op.content))
      && step.op.key in s.entries && s.entries[step.op.key].generation == step.op.snap.generation
    ensures step.out != Accepted ==> step.out == Rejected && s'.entries == s.entries
    ensures step.op.Discard? && step.out == Accepted ==> s'.entries == s.entries[step.op.key := Entry([], step.op.now, step.op.generation, true)]
  {
    hide Enforced, Update;
  }

  /** Operations without a snapshot. */
  lemma PlainLaw(kind: Kind, s: System, step: Step, s': System)
    requires SystemNext(kind, s, step, s')
    ensures step.op.Store? || (step.op.Replace? && !step.op.snap.loaded) ==> step.out == if Replayable(step.op.content) then Accepted else Rejected
    ensures step.op.Remove? || (step.op.Discard? && !step.op.snap.loaded) ==> step.out == Accepted && s'.entries == s.entries - {step.op.key}
    ensures step.op.Clear? ==> step.out == Accepted && s'.entries == map[]
  {
    hide Enforced, Update;
  }

  /**
   A conditional replace or delete is accepted if and only if its content is replayable and, from
   the get that handed out its snapshot on, the key has held that generation all the time.
   */
  lemma AcceptedIff(kind: Kind, states: seq<System>, steps: seq<Step>, i: nat, j: nat)
    requires Run(kind, states, steps) && i < j < |steps| && Conditional(steps[j].op)
    requires Hands(steps[i], steps[j].op.key, steps[j].op.snap)
    ensures var op := steps[j].op;
      && (steps[j].out == Accepted <==>
        && (op.Replace? ==> Replayable(op.content))
        && forall t | i < t <= j :: op.key in states[t].entries && states[t].entries[op.key].generation == op.snap.generation)
      && (steps[j].out != Accepted ==> steps[j].out == Rejected && states[j + 1].entries == states[j].entries)
  {
    hide SystemNext;
    var op := steps[j].op;
    SuccessFound(kind, states, steps, j);
    ConditionalLaw(kind, states[j], steps[j], states[j + 1]);
    HandedIsCurrent(kind, states[i], steps[i], states[i + 1], op.key, op.snap);
    if Current(states[j], op.key, op.snap.generation) {
      HeldThroughout(kind, states, steps, i + 1, j, op.key, op.snap.generation);
      assert forall t | i < t <= j :: Current(states[t], op.key, op.snap.generation);
    }
  }

  /** What a get answers */

  lemma GetLaw(m: Entries, key: Key, now: int, generation: Token, m': Entries, out: Outcome)
    requires GetNext(m, key, now, generation, m', out)
    ensures out.Loaded? && key in m' && out.snap.generation == m'[key].generation
    ensures if key in m && now - m[key].timestamp <= HOUR then
        && m' == m[key := m[key].(timestamp := now)]
        && out.live == (!m[key].deleted && m[key].contents != [])
        && out.contents == if m[key].deleted then [] else m[key].contents
      else
        !out.live && out.contents == [] && m'[key].deleted && m'[key].contents == []
  {
    hide Enforced;
    GetFramed(m, key, now, generation, m', out);
  }

  lemma PurgeLaw(kind: Kind, m: Entries, op: Op, m': Entries, out: Outcome)
    requires Next(kind, m, op, m', out) && op.Purge?
    ensures forall k :: k in m' <==> k in m && op.now - m[k].timestamp <= HOUR
    ensures forall k | k in m' :: m'[k] == m[k]
  {}

  /** There is room for one more session of any size. */
  ghost predicate Room(m: Entries) {
    |m| < 10_240 && Total(m) + 0x80_0000 <= 0x1000_0000
  }

  lemma RoomForPut(m: Entries, key: Key, e: Entry, m': Entries)
    requires Room(m) && Bytes(e.contents) <= MAX_SESSION_BYTES && Enforced(m[key := e], m')
    ensures m' == m[key := e]
  {
    hide Total;
    PutSize(m, key, e);
    TotalReplace(m, key, e);
  }

  lemma RoomForFence(m: Entries, key: Key, e: Entry, m': Entries)
    requires Room(m) && e.contents == [] && Fenced(m, key, e, m')
    ensures m' == m[key := e]
  {
    hide Enforced, Room;
    var mid :| FencedVia(m, key, e, mid, m');
    RoomForPut(m, key, e, mid);
    assert mid[key := e] == mid;
  }

  lemma GetWithRoom(m: Entries, key: Key, now: int, generation: Token, m': Entries, out: Outcome)
    requires GetNext(m, key, now, generation, m', out) && Room(m)
    ensures forall k | k != key && k in m :: k in m' && m'[k] == m[k]
    ensures forall k | k != key && k in m' :: k in m
  {
    hide Fenced, Room;
    if !(key in m && now - m[key].timestamp <= HOUR) {
      RoomForFence(m, key, Tombstone(now, generation), m');
    }
  }

  /** Storing and publishing */

  predicate Publishes(step: Step, key: Key) {
    (step.op.Store? || step.op.Replace?) && step.op.key == key && step.out == Accepted
  }

  predicate Deletes(step: Step, key: Key) {
    (step.op.Remove? || step.op.Discard?) && step.op.key == key && step.out == Accepted
  }

  /** What a step publishes: its turn alone, or for a conditional Claude replace the turns that were there as well. */
  function Published(kind: Kind, m: Entries, op: Op): seq<Content>
    requires op.Store? || op.Replace?
  {
    if op.Replace? && op.snap.loaded && kind.Claude? then AppendTurn(ContentsAt(m, op.key), op.content) else [op.content]
  }

  predicate Holds(m: Entries, key: Key, contents: seq<Content>, last: int) {
    key in m && !m[key].deleted && m[key].contents == contents && m[key].timestamp == last
  }

  /** What enforcing the limits after a publication leaves. */
  lemma PublishedIs(kind: Kind, s: System, step: Step, s': System, key: Key)
    requires Inv(kind, s) && SystemNext(kind, s, step, s') && Publishes(step, key)
    ensures var contents := Published(kind, s.entries, step.op);
      && contents != [] && Bytes(contents) <= MAX_SESSION_BYTES
      && Enforced(s.entries[key := Entry(contents, step.op.now, step.op.generation, false)], s'.entries)
  {
    hide Enforced, Update, AppendTurn, Capped;
    var m, op := s.entries, step.op;
    SingleOk(kind, op.content);
    if op.Replace? && op.snap.loaded {
      UpdateOk(kind, ContentsAt(m, key), op.content);
      assert Published(kind, m, op) == Update(kind, ContentsAt(m, key), op.content) by {
        UpdateIs(kind, ContentsAt(m, key), op.content);
      }
    }
  }

  lemma PublishHolds(kind: Kind, s: System, step: Step, s': System, key: Key)
    requires Inv(kind, s) && SystemNext(kind, s, step, s') && Publishes(step, key)
    ensures Published(kind, s.entries, step.op) != []
    ensures key in s'.entries ==> Holds(s'.entries, key, Published(kind, s.entries, step.op), step.op.now)
    ensures forall k | k != key && k in s'.entries :: k in s.entries && s'.entries[k] == s.entries[k]
    ensures Room(s.entries) ==> key in s'.entries && forall k | k in s.entries :: k in s'.entries
  {
    hide Enforced, Room, Published, SystemNext, Inv;
    var e := Entry(Published(kind, s.entries, step.op), step.op.now, step.op.generation, false);
    PublishedIs(kind, s, step, s', key);
    EnforcedMeans(s.entries[key := e], s'.entries);
    if Room(s.entries) {
      RoomForPut(s.entries, key, e, s'.entries);
    }
  }

  lemma UpdateIs(kind: Kind, contents: seq<Content>, content: Content)
    ensures Update(kind, contents, content) == if kind.Claude? then AppendTurn(contents, content) else [content]
  {}

  /** When `key`, published at `start`, was last published or read before step `n`. */
  function LastUse(steps: seq<Step>, from: nat, n: nat, key: Key, start: int): int
    requires n <= |steps|
    decreases n
  {
    if n <= from then start
    else if steps[n - 1].op.Get? && steps[n - 1].op.key == key then steps[n - 1].op.now
    else LastUse(steps, from, n - 1, key, start)
  }

  /** The step neither publishes nor deletes the key, leaves it in the cache, and comes in time if it is a get of it. */
  predicate Spares(step: Step, s': System, key: Key, last: int) {
    && !Publishes(step, key) && !Deletes(step, key) && key in s'.entries
    && (step.op.Get? && step.op.key == key ==> step.op.now - last <= HOUR)
  }

  lemma RefusedChangesNothing(kind: Kind, s: System, step: Step, s': System)
    requires SystemNext(kind, s, step, s') && (step.op.Store? || step.op.Replace? || step.op.Discard?) && step.out != Accepted
    ensures s'.entries == s.entries
  {
    hide Enforced, Update;
  }

  /** A delete takes exactly its key away, or leaves a tombstone for it. */
  lemma DeleteLaw(kind: Kind, s: System, step: Step, s': System, key: Key)
    requires SystemNext(kind, s, step, s') && Deletes(step, key)
    ensures key in s'.entries ==> s'.entries[key].deleted && s'.entries[key].contents == []
    ensures forall k | k != key :: k in s'.entries <==> k in s.entries
    ensures forall k | k != key && k in s.entries :: s'.entries[k] == s.entries[k]
  {}

  lemma SparedHolds(kind: Kind, s: System, step: Step, s': System, key: Key, contents: seq<Content>, last: int)
    requires Inv(kind, s) && SystemNext(kind, s, step, s') && Spares(step, s', key, last) && Holds(s.entries, key, contents, last)
    ensures Holds(s'.entries, key, contents, if step.op.Get? && step.op.key == key then step.op.now else last)
  {
    hide Room, Enforced, Capped, AllOk;
    var op := step.op;
    if op.Get? {
      GetLaw(s.entries, op.key, op.now, op.generation, s'.entries, step.out);
      if op.key != key {
        OthersFramed(s.entries, op.key, op.now, op.generation, s'.entries, step.out, key);
      }
    } else if op.Purge? {
      PurgeLaw(kind, s.entries, op, s'.entries, step.out);
    } else if Publishes(step, op.key) {
      PublishHolds(kind, s, step, s', op.key);
    } else if Deletes(step, op.key) {
      DeleteLaw(kind, s, step, s', op.key);
    } else if !op.Remove? {
      RefusedChangesNothing(kind, s, step, s');
    }
  }

  ghost predicate Undisturbed(states: seq<System>, steps: seq<Step>, from: nat, n: nat, key: Key, start: int)
    requires |states| == |steps| + 1 && n <= |steps|
  {
    forall j | from <= j < n :: Spares(steps[j], states[j + 1], key, LastUse(steps, from, j, key, start))
  }

  lemma LastUndisturbed(states: seq<System>, steps: seq<Step>, from: nat, n: nat, key: Key, start: int)
    requires |states| == |steps| + 1 && from < n <= |steps| && Undisturbed(states, steps, from, n, key, start)
    ensures Undisturbed(states, steps, from, n - 1, key, start)
    ensures Spares(steps[n - 1], states[n], key, LastUse(steps, from, n - 1, key, start))
  {
    hide Spares, LastUse;
    assert Spares(steps[n - 1], states[n - 1 + 1], key, LastUse(steps, from, n - 1, key, start));
  }

  lemma {:induction false} StillHolds(kind: Kind, states: seq<System>, steps: seq<Step>, from: nat, n: nat, key: Key, contents: seq<Content>, start: int)
    requires Run(kind, states, steps) && from <= n <= |steps|
    requires Holds(states[from].entries, key, contents, start) && Undisturbed(states, steps, from, n, key, start)
    ensures Holds(states[n].entries, key, contents, LastUse(steps, from, n, key, start))
    decreases n
  {
    hide SystemNext, Inv, Holds, Spares, Undisturbed;
    if n > from {
      LastUndisturbed(states, steps, from, n, key, start);
      StillHolds(kind, states, steps, from, n - 1, key, contents, start);
      RunInv(kind, states, steps, n - 1);
      SparedHolds(kind, states[n - 1], steps[n - 1], states[n], key, contents, LastUse(steps, from, n - 1, key, start));
    }
  }

  /**
   What was published is what a get returns, at any time up to HOUR after the last publication or
   read of the key, and no longer.  In between the key is neither published, deleted nor lost;
   `LostOnlyTo` says to what it can be lost.
   */
  lemma ReadAnswers(kind: Kind, states: seq<System>, steps: seq<Step>, i: nat, n: nat, key: Key)
    requires Run(kind, states, steps) && i < n < |steps|
    requires Publishes(steps[i], key) && key in states[i + 1].entries
    requires Undisturbed(states, steps, i + 1, n, key, steps[i].op.now)
    requires steps[n].op.Get? && steps[n].op.key == key
    ensures steps[n].out.Loaded?
    ensures steps[n].out.live <==> steps[n].op.now - LastUse(steps, i + 1, n, key, steps[i].op.now) <= HOUR
    ensures steps[n].out.contents == if steps[n].out.live then Published(kind, states[i].entries, steps[i].op) else []
  {
    hide Inv, Undisturbed, Enforced, Room;
    var op := steps[i].op;
    RunInv(kind, states, steps, i);
    assert SystemNext(kind, states[i], steps[i], states[i + 1]);
    PublishHolds(kind, states[i], steps[i], states[i + 1], key);
    StillHolds(kind, states, steps, i + 1, n, key, Published(kind, states[i].entries, op), op.now);
    assert SystemNext(kind, states[n], steps[n], states[n + 1]);
    GetLaw(states[n].entries, key, steps[n].op.now, steps[n].op.generation, states[n + 1].entries, steps[n].out);
  }

  /** Deletion */

  /** Nothing live is stored under the key. */
  predicate Gone(m: Entries, key: Key) {
    key in m ==> m[key].deleted
  }

  lemma OthersFramed(m: Entries, key: Key, now: int, generation: Token, m': Entries, out: Outcome, k: Key)
    requires GetNext(m, key, now, generation, m', out) && k != key && k in m'
    ensures k in m && m'[k] == m[k]
  {
    hide Enforced;
    if !(key in m && now - m[key].timestamp <= HOUR) {
      var e := Tombstone(now, generation);
      var mid :| FencedVia(m, key, e, mid, m');
      EnforcedMeans(m[key := e], mid);
    }
  }

  lemma StaysGone(kind: Kind, s: System, step: Step, s': System, key: Key)
    requires SystemNext(kind, s, step, s') && !Publishes(step, key) && Gone(s.entries, key)
    ensures Gone(s'.entries, key)
  {
    hide Enforced, Update;
    var op := step.op;
    if op.Get? {
      GetLaw(s.entries, op.key, op.now, op.generation, s'.entries, step.out);
      GetFramed(s.entries, op.key, op.now, op.generation, s'.entries, step.out);
      if op.key != key && key in s'.entries {
        OthersFramed(s.entries, op.key, op.now, op.generation, s'.entries, step.out, key);
      }
    } else if (op.Store? || op.Replace?) && step.out == Accepted {
      if op.Replace? && op.snap.loaded {
        EnforcedMeans(s.entries[op.key := Entry(Update(kind, ContentsAt(s.entries, op.key), op.content), op.now, op.generation, false)], s'.entries);
      } else {
        EnforcedMeans(s.entries[op.key := Entry([op.content], op.now, op.generation, false)], s'.entries);
      }
    } else if op.Store? || op.Replace? || (op.Discard? && step.out != Accepted) {
      RefusedChangesNothing(kind, s, step, s');
    }
  }

  lemma {:induction false} GoneUntilPublished(kind: Kind, states: seq<System>, steps: seq<Step>, from: nat, n: nat, key: Key)
    requires Run(kind, states, steps) && from <= n <= |steps| && Gone(states[from].entries, key)
    requires forall j | from <= j < n :: !Publishes(steps[j], key)
    ensures Gone(states[n].entries, key)
  {
    hide SystemNext, Gone, Publishes;
    if n > from {
      GoneUntilPublished(kind, states, steps, from, n - 1, key);
      StaysGone(kind, states[n - 1], steps[n - 1], states[n], key);
    }
  }

  /** What was deleted is not returned by any get before the next publication. */
  lemma DeletedIsNotRead(kind: Kind, states: seq<System>, steps: seq<Step>, i: nat, n: nat, key: Key)
    requires Run(kind, states, steps) && i < n < |steps| && Deletes(steps[i], key)
    requires forall j | i < j < n :: !Publishes(steps[j], key)
    requires steps[n].op.Get? && steps[n].op.key == key
    ensures steps[n].out.Loaded? && !steps[n].out.live && steps[n].out.contents == []
  {
    hide Enforced;
    assert SystemNext(kind, states[i], steps[i], states[i + 1]);
    DeleteLaw(kind, states[i], steps[i], states[i + 1], key);
    GoneUntilPublished(kind, states, steps, i + 1, n, key);
    assert SystemNext(kind, states[n], steps[n], states[n + 1]);
    GetLaw(states[n].entries, key, steps[n].op.now, steps[n].op.generation, states[n + 1].entries, steps[n].out);
  }

  /** An entry is lost only to a clear, to a delete of its key, to age, or to the limits. */
  lemma LostOnlyTo(kind: Kind, states: seq<System>, steps: seq<Step>, n: nat, k: Key)
    requires Run(kind, states, steps) && n < |steps|
    requires k in states[n].entries && k !in states[n + 1].entries
    ensures var op := steps[n].op;
      || op.Clear?
      || Deletes(steps[n], k)
      || (op.Purge? && op.now - states[n].entries[k].timestamp > HOUR)
      || ((op.Store? || op.Replace? || op.Get?) && !Room(states[n].entries))
  {
    hide Room, Inv, Enforced;
    var s, step, s' := states[n], steps[n], states[n + 1];
    RunInv(kind, states, steps, n);
    assert SystemNext(kind, s, step, s');
    var op := step.op;
    if op.Get? && Room(s.entries) {
      GetLaw(s.entries, op.key, op.now, op.generation, s'.entries, step.out);
      GetWithRoom(s.entries, op.key, op.now, op.generation, s'.entries, step.out);
    } else if op.Purge? {
      PurgeLaw(kind, s.entries, op, s'.entries, step.out);
    } else if (op.Store? || op.Replace?) && Room(s.entries) {
      hide SystemNext;
      if Publishes(step, op.key) {
        PublishHolds(kind, s, step, s', op.key);
      } else {
        RefusedChangesNothing(kind, s, step, s');
      }
    } else if op.Discard? || op.Remove? {
      if Deletes(step, op.key) {
        DeleteLaw(kind, s, step, s', op.key);
      }
    }
  }
}
