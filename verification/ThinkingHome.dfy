/**
 The Claude and Kimi thinking replay caches in Home mode: a shared key-value store with atomic
 set, delete and compare-and-swap, and keys that may expire at any moment.  A request's snapshot
 is the stored value it read or reserved, and its replace or delete is a compare-and-swap
 against that value.  Stored values are the ones this code writes, encoded injectively.
 */
module ThinkingHome {
  import opened ThinkingReplay
  import opened Options

  datatype Value = Value(generation: Token, deleted: bool, contents: seq<Content>)

  datatype Home = Home(store: map<Key, Value>, minted: set<Token>)

  /** One access to the store by any request; every written value carries a token drawn for it. */
  datatype Step =
    | Set(key: Key, content: Content, generation: Token)
    | Load(key: Key)
    | Reserve(key: Key, generation: Token)
    | Replace(key: Key, snap: Option<Value>, content: Content, generation: Token)
    | Discard(key: Key, snap: Option<Value>, generation: Token)
    | Drop(keys: set<Key>)

  /** What a request read; nothing if it read a tombstone, or nothing at all. */
  function ReadContents(v: Option<Value>): seq<Content> {
    if v.None? || v.value.deleted then [] else v.value.contents
  }

  /** The compare-and-swap of `step` finds what it expects; Claude needs a value to decode first. */
  predicate Takes(kind: Kind, s: Home, step: Step) {
    match step
    case Reserve(key, _) => key !in s.store
    case Replace(key, snap, content, _) => ValidContent(content) && (kind.Claude? ==> snap.Some?) && Find(s.store, key) == snap
    case Discard(key, snap, _) => Find(s.store, key) == snap
    case Set(_, content, _) => ValidContent(content)
    case _ => false
  }

  function Written(kind: Kind, step: Step): Value
    requires step.Set? || step.Reserve? || step.Replace? || step.Discard?
  {
    match step
    case Set(_, content, generation) => Value(generation, false, [content])
    case Replace(_, snap, content, generation) => Value(generation, false, Update(kind, ReadContents(snap), content))
    case _ => Value(step.generation, true, [])
  }

  function StoreAfter(kind: Kind, s: Home, step: Step): map<Key, Value> {
    if Takes(kind, s, step) then s.store[step.key := Written(kind, step)]
    else if step.Drop? then s.store - step.keys
    else s.store
  }

  predicate Next(kind: Kind, s: Home, step: Step, s': Home) {
    && s'.store == StoreAfter(kind, s, step)
    && if step.Load? || step.Drop? then s'.minted == s.minted
       else step.generation !in s.minted && s'.minted == s.minted + {step.generation}
  }

  ghost predicate Run(kind: Kind, states: seq<Home>, steps: seq<Step>) {
    && |states| == |steps| + 1
    && states[0] == Home(map[], {})
    && forall i :: 0 <= i < |steps| ==> Next(kind, states[i], steps[i], states[i + 1])
  }

  ghost predicate Inv(kind: Kind, s: Home) {
    forall k | k in s.store ::
      && s.store[k].generation in s.minted
      && if s.store[k].deleted then s.store[k].contents == [] else SessionOk(kind, s.store[k].contents)
  }

  lemma StepInv(kind: Kind, s: Home, step: Step, s': Home)
    requires Inv(kind, s) && Next(kind, s, step, s')
    ensures Inv(kind, s')
  {
    hide SessionOk, Update, ValidContent;
    if Takes(kind, s, step) {
      if step.Replace? {
        UpdateOk(kind, ReadContents(step.snap), step.content);
      } else if step.Set? {
        SingleOk(kind, step.content);
      }
    }
  }

  /** Sessions stay within their caps and every generation stored was drawn, at every point of every run. */
  lemma {:induction false} RunInv(kind: Kind, states: seq<Home>, steps: seq<Step>, n: nat)
    requires Run(kind, states, steps) && n < |states|
    ensures Inv(kind, states[n])
  {
    hide Next;
    if n > 0 {
      RunInv(kind, states, steps, n - 1);
      StepInv(kind, states[n - 1], steps[n - 1], states[n]);
    }
  }

  /** A drawn generation that `key` does not hold never comes back to it. */
  predicate Dead(s: Home, key: Key, generation: Token) {
    generation in s.minted && !(key in s.store && s.store[key].generation == generation)
  }

  lemma {:induction false} RunKeepsDead(kind: Kind, states: seq<Home>, steps: seq<Step>, i: nat, j: nat, key: Key, generation: Token)
    requires Run(kind, states, steps) && i <= j < |states|
    requires Dead(states[i], key, generation)
    ensures Dead(states[j], key, generation)
  {
    hide Update, ValidContent;
    if i < j {
      RunKeepsDead(kind, states, steps, i, j - 1, key, generation);
      assert Next(kind, states[j - 1], steps[j - 1], states[j]);
    }
  }

  /** A replace or delete based on (key, generation) that changed the store, whatever reply it got. */
  predicate Publishes(kind: Kind, s: Home, step: Step, key: Key, generation: Token) {
    && Takes(kind, s, step) && (step.Replace? || step.Discard?)
    && step.key == key && step.snap.Some? && step.snap.value.generation == generation
  }

  /** At most one conditional operation based on a given generation of a key ever takes effect. */
  lemma AtMostOnePublication(kind: Kind, states: seq<Home>, steps: seq<Step>, i: nat, j: nat, key: Key, generation: Token)
    requires Run(kind, states, steps) && i < |steps| && j < |steps|
    requires Publishes(kind, states[i], steps[i], key, generation) && Publishes(kind, states[j], steps[j], key, generation)
    ensures i == j
  {
    hide Next;
    if i < j {
      PublicationRetires(kind, states, steps, i, j, key, generation);
    } else if j < i {
      PublicationRetires(kind, states, steps, j, i, key, generation);
    }
  }

  lemma PublicationRetires(kind: Kind, states: seq<Home>, steps: seq<Step>, i: nat, j: nat, key: Key, generation: Token)
    requires Run(kind, states, steps) && i < j < |states|
    requires Publishes(kind, states[i], steps[i], key, generation)
    ensures !(key in states[j].store && states[j].store[key].generation == generation)
  {
    hide Update, ValidContent;
    RunInv(kind, states, steps, i);
    assert Next(kind, states[i], steps[i], states[i + 1]);
    assert Dead(states[i + 1], key, generation);
    RunKeepsDead(kind, states, steps, i + 1, j, key, generation);
  }

  lemma {:induction false} MintedGrows(kind: Kind, states: seq<Home>, steps: seq<Step>, i: nat, j: nat)
    requires Run(kind, states, steps) && i <= j < |states|
    ensures states[i].minted <= states[j].minted
  {
    hide Update;
    if i < j {
      MintedGrows(kind, states, steps, i, j - 1);
      assert Next(kind, states[j - 1], steps[j - 1], states[j]);
    }
  }

  lemma StepKeepsValue(kind: Kind, s: Home, step: Step, s': Home, key: Key, v: Value)
    requires Next(kind, s, step, s') && v.generation in s.minted
    requires Find(s'.store, key) == Some(v)
    ensures Find(s.store, key) == Some(v)
  {
    hide Update;
  }

  /** A value found again was there all the time: nothing came in between. */
  lemma {:induction false} HeldThroughout(kind: Kind, states: seq<Home>, steps: seq<Step>, i: nat, j: nat, key: Key, v: Value)
    requires Run(kind, states, steps) && i <= j < |states|
    requires Find(states[i].store, key) == Some(v) && Find(states[j].store, key) == Some(v)
    ensures forall t :: i <= t <= j ==> Find(states[t].store, key) == Some(v)
  {
    hide Next;
    if i < j {
      RunInv(kind, states, steps, i);
      MintedGrows(kind, states, steps, i, j - 1);
      StepKeepsValue(kind, states[j - 1], steps[j - 1], states[j], key, v);
      HeldThroughout(kind, states, steps, i, j - 1, key, v);
    }
  }

  /**
   A replace that takes effect publishes what its request read with its own turn added, and from
   the read to the publication the key never held anything else.
   */
  lemma ReplaceExtendsRead(kind: Kind, states: seq<Home>, steps: seq<Step>, i: nat, j: nat)
    requires Run(kind, states, steps) && i <= j < |steps|
    requires steps[j].Replace? && Takes(kind, states[j], steps[j])
    requires steps[j].snap.Some? && Find(states[i].store, steps[j].key) == steps[j].snap
    ensures var op := steps[j];
      && (forall t :: i <= t <= j ==> Find(states[t].store, op.key) == op.snap)
      && Find(states[j + 1].store, op.key) == Some(Value(op.generation, false, Update(kind, op.snap.value.contents, op.content)))
  {
    hide Update, ValidContent;
    HeldThroughout(kind, states, steps, i, j, steps[j].key, steps[j].snap.value);
    RunInv(kind, states, steps, i);
    assert Next(kind, states[j], steps[j], states[j + 1]);
  }

  /**
   A conditional operation changes the store if and only if its turn, if it has one, is a JSON array
   of 1 to 512 blocks in at most 8 MiB and nobody changed the key since its request read it.
   */
  lemma SwapTakesIff(kind: Kind, states: seq<Home>, steps: seq<Step>, i: nat, j: nat)
    requires Run(kind, states, steps) && i <= j < |steps| && (steps[j].Replace? || steps[j].Discard?)
    requires steps[j].snap.Some? && Find(states[i].store, steps[j].key) == steps[j].snap
    ensures var op := steps[j];
      states[j + 1].store != states[j].store <==>
        && (op.Replace? ==> 0 < |op.content.raw| <= 0x80_0000 && op.content.blocks.Some? && 1 <= op.content.blocks.value <= 512)
        && forall t :: i <= t <= j ==> Find(states[t].store, op.key) == op.snap
    ensures steps[j].Discard? && states[j + 1].store != states[j].store ==>
      Find(states[j + 1].store, steps[j].key) == Some(Value(steps[j].generation, true, []))
  {
    hide Update;
    var op := steps[j];
    RunInv(kind, states, steps, j);
    assert Next(kind, states[j], op, states[j + 1]);
    if Find(states[j].store, op.key) == op.snap {
      HeldThroughout(kind, states, steps, i, j, op.key, op.snap.value);
    }
  }

  /** What a request does that read no value: a reservation, a Kimi replace and a delete swap from absence; a set needs nothing. */
  lemma AbsentTakesIff(kind: Kind, s: Home, step: Step, s': Home)
    requires Next(kind, s, step, s') && Inv(kind, s)
    ensures step.Reserve? ==> s'.store == if step.key in s.store then s.store else s.store[step.key := Value(step.generation, true, [])]
    ensures step.Discard? && step.snap.None? ==> s'.store == if step.key in s.store then s.store else s.store[step.key := Value(step.generation, true, [])]
    ensures step.Replace? && step.snap.None? ==> (s'.store != s.store <==> kind.Kimi? && ValidContent(step.content) && step.key !in s.store)
    ensures step.Set? && ValidContent(step.content) ==> s'.store == s.store[step.key := Value(step.generation, false, [step.content])]
  {
    hide Update;
  }
}
