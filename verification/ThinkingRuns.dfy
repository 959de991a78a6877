/**
 Whole runs of a thinking replay cache: any number of requests, their operations interleaved in
 any order.  Each operation draws a generation token never drawn before, and a conditional
 operation carries either no snapshot or one that an earlier get of the same key returned.
 */
module ThinkingRuns {
  import opened ThinkingReplay

  datatype System = System(entries: Entries, minted: set<Token>)

  datatype Step = Step(op: Op, out: Outcome)

  ghost predicate SystemNext(kind: Kind, s: System, step: Step, s': System) {
    && step.op.generation !in s.minted
    && s'.minted == s.minted + {step.op.generation}
    && Next(kind, s.entries, step.op, s'.entries, step.out)
  }

  predicate Conditional(op: Op) {
    (op.Replace? || op.Discard?) && op.snap.loaded
  }

  /** `step` is a get that handed out `snap` for `key`. */
  predicate Hands(step: Step, key: Key, snap: Snapshot) {
    step.op.Get? && step.op.key == key && step.out.Loaded? && step.out.snap == snap
  }

  ghost predicate Run(kind: Kind, states: seq<System>, steps: seq<Step>) {
    && |states| == |steps| + 1
    && states[0] == System(map[], {})
    && (forall i :: 0 <= i < |steps| ==> SystemNext(kind, states[i], steps[i], states[i + 1]))
    && (forall j :: 0 <= j < |steps| && Conditional(steps[j].op) ==>
      exists i :: 0 <= i < j && Hands(steps[i], steps[j].op.key, steps[j].op.snap))
  }

  /** What every operation does to each key */

  predicate SameVersion(a: Entry, b: Entry) {
    a.generation == b.generation && a.contents == b.contents && a.deleted == b.deleted
  }

  /** Every entry after a step was there before, timestamp aside, or was written under the new generation. */
  ghost predicate Framed(m: Entries, generation: Token, m': Entries) {
    forall k | k in m' :: m'[k].generation == generation || (k in m && SameVersion(m[k], m'[k]))
  }

  lemma FramedPut(m: Entries, key: Key, e: Entry, m': Entries)
    requires Enforced(m[key := e], m')
    ensures Framed(m, e.generation, m')
    ensures key in m' ==> m'[key] == e
  {
    hide Enforced;
    EnforcedMeans(m[key := e], m');
  }

  lemma GetFramed(m: Entries, key: Key, now: int, generation: Token, m': Entries, out: Outcome)
    requires GetNext(m, key, now, generation, m', out)
    ensures Framed(m, generation, m')
    ensures key in m' && out == Reading(m'[key])
  {
    hide Enforced, FencedVia;
    if !(key in m && !Expired(m[key], now)) {
      var e := Tombstone(now, generation);
      var mid :| FencedVia(m, key, e, mid, m');
      FencedFramed(m, key, e, mid, m');
    }
  }

  lemma FencedFramed(m: Entries, key: Key, e: Entry, mid: Entries, m': Entries)
    requires FencedVia(m, key, e, mid, m')
    ensures Framed(m, e.generation, m') && key in m' && m'[key] == e
  {
    hide Enforced;
    FramedPut(m, key, e, mid);
  }

  lemma StepFramed(kind: Kind, m: Entries, op: Op, m': Entries, out: Outcome)
    requires Next(kind, m, op, m', out)
    ensures Framed(m, op.generation, m')
    ensures Conditional(op) && out.Accepted? && op.key in m' ==> m'[op.key].generation == op.generation
  {
    hide Enforced, GetNext, Update;
    match op
    case Get(key, now, generation) => GetFramed(m, key, now, generation, m', out);
    case Store(key, content, now, generation) =>
      if ValidContent(content) {
        FramedPut(m, key, Entry([content], now, generation, false), m');
      }
    case Replace(key, snap, content, now, generation) =>
      if ValidContent(content) {
        if !snap.loaded {
          FramedPut(m, key, Entry([content], now, generation, false), m');
        } else if Matches(m, key, snap) {
          FramedPut(m, key, Entry(Update(kind, ContentsAt(m, key), content), now, generation, false), m');
        }
      }
    case _ =>
  }

  /** What is written under the new generation is well formed */

  ghost predicate WritesOk(kind: Kind, generation: Token, m': Entries) {
    forall k | k in m' && m'[k].generation == generation :: EntryOk(kind, m'[k])
  }

  ghost predicate Unminted(m: Entries, generation: Token) {
    forall k | k in m :: m[k].generation != generation
  }

  lemma WriteOk(kind: Kind, m: Entries, key: Key, e: Entry, m': Entries)
    requires Unminted(m, e.generation) && EntryOk(kind, e)
    requires Enforced(m[key := e], m')
    ensures WritesOk(kind, e.generation, m')
  {
    hide Enforced, EntryOk;
    EnforcedMeans(m[key := e], m');
  }

  lemma FenceOk(kind: Kind, m: Entries, key: Key, e: Entry, m': Entries)
    requires Unminted(m, e.generation) && EntryOk(kind, e)
    requires Fenced(m, key, e, m')
    ensures WritesOk(kind, e.generation, m')
  {
    hide Enforced, EntryOk;
    var mid :| FencedVia(m, key, e, mid, m');
    WriteOk(kind, m, key, e, mid);
  }

  lemma StepWritesOk(kind: Kind, m: Entries, op: Op, m': Entries, out: Outcome)
    requires Unminted(m, op.generation) && AllOk(kind, m)
    requires Next(kind, m, op, m', out)
    ensures WritesOk(kind, op.generation, m')
  {
    hide Enforced, Fenced, Update, SessionOk, ValidContent;
    match op
    case Get(key, now, generation) =>
      if !(key in m && !Expired(m[key], now)) {
        FenceOk(kind, m, key, Tombstone(now, generation), m');
      }
    case Store(key, content, now, generation) =>
      if ValidContent(content) {
        SingleOk(kind, content);
        WriteOk(kind, m, key, Entry([content], now, generation, false), m');
      }
    case Replace(key, snap, content, now, generation) =>
      if ValidContent(content) {
        if !snap.loaded {
          SingleOk(kind, content);
          WriteOk(kind, m, key, Entry([content], now, generation, false), m');
        } else if Matches(m, key, snap) {
          UpdateOk(kind, ContentsAt(m, key), content);
          WriteOk(kind, m, key, Entry(Update(kind, ContentsAt(m, key), content), now, generation, false), m');
        }
      }
    case _ =>
  }

  /** The invariant of every run */

  ghost predicate Inv(kind: Kind, s: System) {
    && (forall k | k in s.entries :: s.entries[k].generation in s.minted)
    && AllOk(kind, s.entries)
    && Capped(s.entries)
  }

  lemma StepInv(kind: Kind, s: System, step: Step, s': System)
    requires Inv(kind, s) && SystemNext(kind, s, step, s')
    requires !AddsUnchecked(s.entries, step.op)
    ensures Inv(kind, s')
  {
    hide Next, Capped, AddsUnchecked, EntryOk;
    StepFramed(kind, s.entries, step.op, s'.entries, step.out);
    StepCaps(kind, s.entries, step.op, s'.entries, step.out);
    StepWritesOk(kind, s.entries, step.op, s'.entries, step.out);
    forall k | k in s'.entries ensures EntryOk(kind, s'.entries[k]) && s'.entries[k].generation in s'.minted {
      if s'.entries[k].generation != step.op.generation {
        SameVersionOk(kind, s.entries[k], s'.entries[k]);
      }
    }
  }

  lemma SameVersionOk(kind: Kind, a: Entry, b: Entry)
    requires EntryOk(kind, a) && SameVersion(a, b)
    ensures EntryOk(kind, b)
  {}

  /** A get always reports the state as found, so its snapshot never expects absence. */
  lemma HandedIsFound(kind: Kind, s: System, step: Step, s': System, key: Key, snap: Snapshot)
    requires SystemNext(kind, s, step, s') && Hands(step, key, snap)
    ensures snap.found && snap.loaded
  {
    hide Fenced;
  }

  /** Both caps, the session caps and the freshness of generations hold at every point of every run. */
  lemma {:induction false} RunInv(kind: Kind, states: seq<System>, steps: seq<Step>, n: nat)
    requires Run(kind, states, steps) && n < |states|
    ensures Inv(kind, states[n])
  {
    hide SystemNext, AllOk;
    if n == 0 {
      InitInv(kind);
    } else {
      RunInv(kind, states, steps, n - 1);
      var step := steps[n - 1];
      if Conditional(step.op) {
        var i :| 0 <= i < n - 1 && Hands(steps[i], step.op.key, step.op.snap);
        HandedIsFound(kind, states[i], steps[i], states[i + 1], step.op.key, step.op.snap);
      }
      assert !AddsUnchecked(states[n - 1].entries, step.op);
      StepInv(kind, states[n - 1], step, states[n]);
    }
  }

  lemma InitInv(kind: Kind)
    ensures Inv(kind, System(map[], {}))
  {}

  /** Generations */

  predicate Current(s: System, key: Key, generation: Token) {
    key in s.entries && s.entries[key].generation == generation
  }

  /** `generation` was drawn and is not what `key` holds: it never will be again. */
  predicate Dead(s: System, key: Key, generation: Token) {
    generation in s.minted && !Current(s, key, generation)
  }

  lemma StepKeepsDead(kind: Kind, s: System, step: Step, s': System, key: Key, generation: Token)
    requires SystemNext(kind, s, step, s') && Dead(s, key, generation)
    ensures Dead(s', key, generation)
  {
    hide Next;
    StepFramed(kind, s.entries, step.op, s'.entries, step.out);
  }

  lemma {:induction false} RunKeepsDead(kind: Kind, states: seq<System>, steps: seq<Step>, i: nat, j: nat, key: Key, generation: Token)
    requires Run(kind, states, steps) && i <= j < |states|
    requires Dead(states[i], key, generation)
    ensures Dead(states[j], key, generation)
  {
    hide SystemNext, Dead;
    if i < j {
      RunKeepsDead(kind, states, steps, i, j - 1, key, generation);
      StepKeepsDead(kind, states[j - 1], steps[j - 1], states[j], key, generation);
    }
  }

  /** A conditional replace or delete based on (key, generation) that went through. */
  predicate Succeeds(step: Step, key: Key, generation: Token) {
    Conditional(step.op) && step.op.key == key && step.op.snap.generation == generation && step.out.Accepted?
  }

  /** Success retires the generation it was based on. */
  lemma SuccessRetires(kind: Kind, s: System, step: Step, s': System, key: Key, generation: Token)
    requires Inv(kind, s) && SystemNext(kind, s, step, s')
    requires Succeeds(step, key, generation) && step.op.snap.found
    ensures Current(s, key, generation) && Dead(s', key, generation)
  {
    hide Capped, AllOk, Enforced, Update;
    StepFramed(kind, s.entries, step.op, s'.entries, step.out);
  }

  lemma SuccessFound(kind: Kind, states: seq<System>, steps: seq<Step>, j: nat)
    requires Run(kind, states, steps) && j < |steps| && Conditional(steps[j].op)
    ensures steps[j].op.snap.found
  {
    hide SystemNext;
    var i :| 0 <= i < j && Hands(steps[i], steps[j].op.key, steps[j].op.snap);
    HandedIsFound(kind, states[i], steps[i], states[i + 1], steps[j].op.key, steps[j].op.snap);
  }

  /** At most one conditional operation based on a given generation of a key ever succeeds. */
  lemma AtMostOneSuccess(kind: Kind, states: seq<System>, steps: seq<Step>, i: nat, j: nat, key: Key, generation: Token)
    requires Run(kind, states, steps) && i < |steps| && j < |steps|
    requires Succeeds(steps[i], key, generation) && Succeeds(steps[j], key, generation)
    ensures i == j
  {
    hide Inv, SystemNext, Run;
    if i < j {
      NoLaterSuccess(kind, states, steps, i, j, key, generation);
    } else if j < i {
      NoLaterSuccess(kind, states, steps, j, i, key, generation);
    }
  }

  lemma NoLaterSuccess(kind: Kind, states: seq<System>, steps: seq<Step>, i: nat, j: nat, key: Key, generation: Token)
    requires Run(kind, states, steps) && i < j < |steps|
    requires Succeeds(steps[i], key, generation)
    ensures !Succeeds(steps[j], key, generation)
  {
    hide Inv, SystemNext;
    RunInv(kind, states, steps, i);
    RunInv(kind, states, steps, j);
    SuccessFound(kind, states, steps, i);
    SuccessRetires(kind, states[i], steps[i], states[i + 1], key, generation);
    RunKeepsDead(kind, states, steps, i + 1, j, key, generation);
    if Succeeds(steps[j], key, generation) {
      SuccessFound(kind, states, steps, j);
      SuccessRetires(kind, states[j], steps[j], states[j + 1], key, generation);
    }
  }

  /** A generation pins its contents: while `key` stays at it, nothing but the timestamp changes. */
  lemma {:induction false} HeldThroughout(kind: Kind, states: seq<System>, steps: seq<Step>, i: nat, j: nat, key: Key, generation: Token)
    requires Run(kind, states, steps) && i <= j < |states|
    requires Current(states[i], key, generation) && Current(states[j], key, generation)
    ensures forall t :: i <= t <= j ==> Current(states[t], key, generation) && SameVersion(states[i].entries[key], states[t].entries[key])
  {
    hide SystemNext;
    if i < j {
      RunInv(kind, states, steps, i);
      if !Current(states[j - 1], key, generation) {
        RunMints(kind, states, steps, i, j - 1);
        RunKeepsDead(kind, states, steps, j - 1, j, key, generation);
        assert false;
      }
      HeldThroughout(kind, states, steps, i, j - 1, key, generation);
      RunMints(kind, states, steps, i, j - 1);
      StepKeepsVersion(kind, states[j - 1], steps[j - 1], states[j], key, generation);
    }
  }

  lemma {:induction false} RunMints(kind: Kind, states: seq<System>, steps: seq<Step>, i: nat, j: nat)
    requires Run(kind, states, steps) && i <= j < |states|
    ensures states[i].minted <= states[j].minted
  {
    hide Next;
    if i < j {
      RunMints(kind, states, steps, i, j - 1);
      assert SystemNext(kind, states[j - 1], steps[j - 1], states[j]);
    }
  }

  lemma StepKeepsVersion(kind: Kind, s: System, step: Step, s': System, key: Key, generation: Token)
    requires SystemNext(kind, s, step, s') && generation in s.minted
    requires Current(s', key, generation)
    ensures Current(s, key, generation) && SameVersion(s.entries[key], s'.entries[key])
  {
    hide Next;
    StepFramed(kind, s.entries, step.op, s'.entries, step.out);
  }

  lemma HandedIsCurrent(kind: Kind, s: System, step: Step, s': System, key: Key, snap: Snapshot)
    requires SystemNext(kind, s, step, s') && Hands(step, key, snap)
    ensures Current(s', key, snap.generation) && step.out == Reading(s'.entries[key])
  {
    hide GetNext;
    GetFramed(s.entries, key, step.op.now, step.op.generation, s'.entries, step.out);
  }

  /**
   An accepted replace publishes exactly the contents its request read with its own turn added,
   and from the read to the publication nobody else changed the key.
   */
  lemma ReplaceExtendsRead(kind: Kind, states: seq<System>, steps: seq<Step>, i: nat, j: nat)
    requires Run(kind, states, steps) && i < j < |steps|
    requires steps[j].op.Replace? && steps[j].op.snap.loaded && steps[j].out.Accepted?
    requires Hands(steps[i], steps[j].op.key, steps[j].op.snap)
    ensures var op, read, m := steps[j].op, steps[i].out.contents, states[j].entries;
      && (forall t :: i < t <= j ==> Current(states[t], op.key, op.snap.generation) && states[t].entries[op.key].contents == read)
      && Enforced(m[op.key := Entry(Update(kind, read, op.content), op.now, op.generation, false)], states[j + 1].entries)
  {
    hide Enforced, Update;
    var op := steps[j].op;
    var key, generation := op.key, op.snap.generation;
    HandedIsCurrent(kind, states[i], steps[i], states[i + 1], key, op.snap);
    RunInv(kind, states, steps, i + 1);
    SuccessFound(kind, states, steps, j);
    assert SystemNext(kind, states[j], steps[j], states[j + 1]);
    AcceptedReplace(kind, states[j], op, states[j + 1], steps[j].out);
    HeldThroughout(kind, states, steps, i + 1, j, key, generation);
    assert steps[i].out.contents == states[i + 1].entries[key].contents;
  }

  lemma AcceptedReplace(kind: Kind, s: System, op: Op, s': System, out: Outcome)
    requires op.Replace? && op.snap.loaded && op.snap.found && out.Accepted?
    requires Next(kind, s.entries, op, s'.entries, out)
    ensures Current(s, op.key, op.snap.generation)
    ensures Enforced(s.entries[op.key := Entry(Update(kind, s.entries[op.key].contents, op.content), op.now, op.generation, false)], s'.entries)
  {
    hide Enforced, Update;
  }
}
