/**
 Codex appends in Home mode: each append reads the shared store, computes the new history and
 publishes it by compare-and-swap, retrying a bounded number of times.  Store accesses of any
 number of appends interleave with each other and with sets, deletes and expiry.  The encoding
 of a history is injective, so a stored value is the history itself.
 */
module CodexHome {
  import opened CodexReplay
  import opened Options

  const MAX_ATTEMPTS: nat := 32

  type Key = string
  type RequestId = nat

  /** `started` is the number of commits made before the append began. */
  datatype Phase =
    | Reading(key: Key, turn: seq<Item>, started: nat, attempt: nat)
    | Swapping(key: Key, turn: seq<Item>, started: nat, attempt: nat, read: Option<seq<Item>>)
    | Finished(key: Key, turn: seq<Item>, started: nat, ok: bool)

  /** A change of the store, in the order the store made them. */
  datatype Commit =
    | Appended(id: RequestId, key: Key, turn: seq<Item>)
    | Assigned(key: Key, items: seq<Item>)
    | Dropped(keys: set<Key>)

  datatype Home = Home(store: map<Key, seq<Item>>, log: seq<Commit>, requests: map<RequestId, Phase>)

  /** `acked` is false when the store made the change but the reply was an error. */
  datatype Step =
    | Begin(id: RequestId, key: Key, turn: seq<Item>)
    | Load(id: RequestId)
    | Swap(id: RequestId, acked: bool)
    | Fail(id: RequestId)
    | Assign(key: Key, items: seq<Item>)
    | Drop(keys: set<Key>)

  function HistoryOf(value: Option<seq<Item>>): seq<Item> {
    if value.Some? then value.value else []
  }

  function Move(s: Home, id: RequestId, p: Phase): Home {
    s.(requests := s.requests[id := p])
  }

  predicate Next(s: Home, step: Step, s': Home) {
    match step
    case Begin(id, key, turn) => id !in s.requests && s' == Move(s, id, Reading(key, turn, |s.log|, 0))
    case Load(id) =>
      && id in s.requests && s.requests[id].Reading?
      && var p := s.requests[id];
      s' == Move(s, id, Swapping(p.key, p.turn, p.started, p.attempt, Find(s.store, p.key)))
    case Swap(id, acked) => id in s.requests && s.requests[id].Swapping? && s' == AfterSwap(s, id, s.requests[id], acked)
    case Fail(id) =>
      && id in s.requests && !s.requests[id].Finished?
      && var p := s.requests[id];
      s' == Move(s, id, Finished(p.key, p.turn, p.started, false))
    case Assign(key, items) => s' == Home(s.store[key := items], s.log + [Assigned(key, items)], s.requests)
    case Drop(keys) => s' == Home(s.store - keys, s.log + [Dropped(keys)], s.requests)
  }

  /** The new value is computed from what the request read, not from what the store holds now. */
  function AfterSwap(s: Home, id: RequestId, p: Phase, acked: bool): Home
    requires p.Swapping?
  {
    if Find(s.store, p.key) == p.read then
      Home(s.store[p.key := Append(HistoryOf(p.read), p.turn)],
           s.log + [Appended(id, p.key, p.turn)],
           s.requests[id := Finished(p.key, p.turn, p.started, acked)])
    else if p.attempt + 1 < MAX_ATTEMPTS then
      Move(s, id, Reading(p.key, p.turn, p.started, p.attempt + 1))
    else
      Move(s, id, Finished(p.key, p.turn, p.started, false))
  }

  ghost predicate Run(states: seq<Home>, steps: seq<Step>) {
    && |states| == |steps| + 1
    && states[0] == Home(map[], [], map[])
    && forall i :: 0 <= i < |steps| ==> Next(states[i], steps[i], states[i + 1])
  }

  /** The sequential meaning of the commits */

  function Apply(m: map<Key, seq<Item>>, c: Commit): map<Key, seq<Item>> {
    match c
    case Appended(_, key, turn) => m[key := Append(HistoryOf(Find(m, key)), turn)]
    case Assigned(key, items) => m[key := items]
    case Dropped(keys) => m - keys
  }

  function Replay(m: map<Key, seq<Item>>, log: seq<Commit>): map<Key, seq<Item>> {
    if log == [] then m else Apply(Replay(m, log[..|log| - 1]), log[|log| - 1])
  }

  lemma ReplayPush(m: map<Key, seq<Item>>, log: seq<Commit>, c: Commit)
    ensures Replay(m, log + [c]) == Apply(Replay(m, log), c)
  {
    assert (log + [c])[..|log|] == log;
  }

  lemma {:induction false} ReplaySplit(m: map<Key, seq<Item>>, a: seq<Commit>, b: seq<Commit>)
    ensures Replay(m, a + b) == Replay(Replay(m, a), b)
    decreases |b|
  {
    if b == [] {
      assert a + b == a;
    } else {
      var n := |b| - 1;
      ReplaySplit(m, a, b[..n]);
      assert (a + b)[..|a| + n] == a + b[..n];
    }
  }

  /** Linearizability */

  function CommitsOf(log: seq<Commit>, id: RequestId): set<nat> {
    set p: nat | p < |log| && log[p].Appended? && log[p].id == id
  }

  /** The one commit of request `id` lies at `p`, after the request began, and is for its key and turn. */
  ghost predicate CommittedAt(s: Home, id: RequestId, p: nat)
    requires id in s.requests
  {
    var r := s.requests[id];
    && r.started <= p < |s.log|
    && s.log[p] == Appended(id, r.key, r.turn)
    && CommitsOf(s.log, id) == {p}
  }

  ghost predicate RequestOk(s: Home, id: RequestId)
    requires id in s.requests
  {
    var r := s.requests[id];
    && r.started <= |s.log|
    && (r.Finished? && r.ok ==> exists p: nat :: CommittedAt(s, id, p))
    && (r.Finished? && !r.ok ==> CommitsOf(s.log, id) == {} || exists p: nat :: CommittedAt(s, id, p))
    && (!r.Finished? ==> CommitsOf(s.log, id) == {})
  }

  ghost predicate Inv(s: Home) {
    && s.store == Replay(map[], s.log)
    && (forall id | id in s.requests :: RequestOk(s, id))
    && (forall id: RequestId | id !in s.requests :: CommitsOf(s.log, id) == {})
  }

  lemma PushCommits(log: seq<Commit>, c: Commit, id: RequestId)
    ensures CommitsOf(log + [c], id) == CommitsOf(log, id) + if c.Appended? && c.id == id then {|log|} else {}
  {
    var pushed := log + [c];
    assert pushed[|log|] == c;
    assert forall p: nat | p < |log| :: pushed[p] == log[p];
  }

  /** A commit by somebody else leaves a request's standing alone. */
  lemma OthersOk(s: Home, s': Home, c: Commit, id: RequestId)
    requires id in s.requests && RequestOk(s, id)
    requires id in s'.requests && s'.requests[id] == s.requests[id]
    requires s'.log == s.log + [c] && !(c.Appended? && c.id == id)
    ensures RequestOk(s', id)
  {
    hide CommitsOf;
    PushCommits(s.log, c, id);
    if p: nat :| CommittedAt(s, id, p) {
      assert CommittedAt(s', id, p);
    }
  }

  lemma CommitInv(s: Home, s': Home, c: Commit)
    requires Inv(s)
    requires s'.log == s.log + [c] && s'.store == Apply(s.store, c)
    requires !c.Appended? ==> s'.requests == s.requests
    requires c.Appended? ==>
      && c.id in s.requests && !s.requests[c.id].Finished?
      && c.key == s.requests[c.id].key && c.turn == s.requests[c.id].turn
      && exists ok :: s'.requests == s.requests[c.id := Finished(c.key, c.turn, s.requests[c.id].started, ok)]
    ensures Inv(s')
  {
    hide CommitsOf, Apply, Append;
    ReplayPush(map[], s.log, c);
    forall id: RequestId
      ensures id in s'.requests ==> RequestOk(s', id)
      ensures id !in s'.requests ==> CommitsOf(s'.log, id) == {}
    {
      PushCommits(s.log, c, id);
      if c.Appended? && c.id == id {
        assert RequestOk(s, id);
        assert CommittedAt(s', id, |s.log|);
      } else if id in s.requests {
        OthersOk(s, s', c, id);
      }
    }
  }

  lemma MoveInv(s: Home, id: RequestId, p: Phase)
    requires Inv(s)
    requires CommitsOf(s.log, id) == {} && p.started <= |s.log| && (p.Finished? ==> !p.ok)
    ensures Inv(Move(s, id, p))
  {
    hide CommitsOf, Replay;
    var s' := Move(s, id, p);
    forall i | i in s'.requests && i != id ensures RequestOk(s', i) {
      assert RequestOk(s, i);
      if q: nat :| CommittedAt(s, i, q) {
        assert CommittedAt(s', i, q);
      }
    }
  }

  lemma StepInv(s: Home, step: Step, s': Home)
    requires Inv(s) && Next(s, step, s')
    ensures Inv(s')
  {
    hide Replay, CommitsOf, Append;
    match step
    case Begin(id, key, turn) => MoveInv(s, id, Reading(key, turn, |s.log|, 0));
    case Load(id) =>
      assert RequestOk(s, id);
      MoveInv(s, id, s'.requests[id]);
    case Swap(id, acked) =>
      assert RequestOk(s, id);
      var p := s.requests[id];
      if Find(s.store, p.key) == p.read {
        assert s'.requests == s.requests[id := Finished(p.key, p.turn, p.started, acked)];
        CommitInv(s, s', Appended(id, p.key, p.turn));
      } else {
        MoveInv(s, id, s'.requests[id]);
      }
    case Fail(id) =>
      assert RequestOk(s, id);
      MoveInv(s, id, s'.requests[id]);
    case Assign(key, items) => CommitInv(s, s', Assigned(key, items));
    case Drop(keys) => CommitInv(s, s', Dropped(keys));
  }

  lemma {:induction false} RunInv(states: seq<Home>, steps: seq<Step>, n: nat)
    requires Run(states, steps) && n < |states|
    ensures Inv(states[n])
  {
    hide Next, Inv;
    if n == 0 {
      InitInv();
    } else {
      RunInv(states, steps, n - 1);
      StepInv(states[n - 1], steps[n - 1], states[n]);
    }
  }

  lemma InitInv()
    ensures Inv(Home(map[], [], map[]))
  {}

  /**
   An append that reports success took effect exactly once, after it began, as one atomic append
   to the value the store held just before; what the store holds is the outcome of all commits
   in order.
   */
  lemma AppendsLinearize(states: seq<Home>, steps: seq<Step>, n: nat, id: RequestId) returns (p: nat)
    requires Run(states, steps) && n < |states|
    requires id in states[n].requests && states[n].requests[id].Finished? && states[n].requests[id].ok
    ensures var s, r := states[n], states[n].requests[id];
      && CommittedAt(s, id, p)
      && s.store == Replay(map[], s.log)
      && Find(Replay(map[], s.log[..p + 1]), r.key) == Some(Append(HistoryOf(Find(Replay(map[], s.log[..p]), r.key)), r.turn))
  {
    hide CommitsOf, Append;
    RunInv(states, steps, n);
    var s := states[n];
    assert RequestOk(s, id);
    p :| CommittedAt(s, id, p);
    assert s.log[..p + 1] == s.log[..p] + [s.log[p]];
    ReplayPush(map[], s.log[..p], s.log[p]);
  }

  /** An append that reports failure took effect at most once; one still under way has not yet. */
  lemma NoHiddenAppend(states: seq<Home>, steps: seq<Step>, n: nat, id: RequestId)
    requires Run(states, steps) && n < |states|
    ensures |CommitsOf(states[n].log, id)| <= 1
    ensures id in states[n].requests && !states[n].requests[id].Finished? ==> CommitsOf(states[n].log, id) == {}
  {
    hide CommitsOf;
    RunInv(states, steps, n);
    assert id in states[n].requests ==> RequestOk(states[n], id);
  }

  /** No committed turn is overwritten */

  predicate LeavesOrAppends(c: Commit, key: Key) {
    match c
    case Appended(_, _, _) => true
    case Assigned(k, _) => k != key
    case Dropped(keys) => key !in keys
  }

  function TurnsFor(log: seq<Commit>, key: Key): seq<seq<Item>> {
    if log == [] then [] else
      var c := log[|log| - 1];
      var before := TurnsFor(log[..|log| - 1], key);
      if c.Appended? && c.key == key then before + [c.turn] else before
  }

  lemma {:induction false} ReplayAppends(m: map<Key, seq<Item>>, log: seq<Commit>, key: Key)
    requires forall i :: 0 <= i < |log| ==> LeavesOrAppends(log[i], key)
    ensures HistoryOf(Find(Replay(m, log), key)) == AppendAll(HistoryOf(Find(m, key)), TurnsFor(log, key))
  {
    hide Append;
    if log != [] {
      var n := |log| - 1;
      ReplayAppends(m, log[..n], key);
      if log[n].Appended? && log[n].key == key {
        var before := TurnsFor(log[..n], key);
        assert (before + [log[n].turn])[..|before|] == before;
      }
    }
  }

  lemma {:induction false} LogGrows(states: seq<Home>, steps: seq<Step>, i: nat, j: nat)
    requires Run(states, steps) && i <= j < |states|
    ensures states[i].log <= states[j].log
  {
    hide Append;
    if i < j {
      LogGrows(states, steps, i, j - 1);
      assert Next(states[j - 1], steps[j - 1], states[j]);
    }
  }

  /**
   Between two moments of a run with nothing but appends to a key, the later history is the
   earlier one with all the turns committed in between, in commit order, trimmed once at the end:
   concurrent appends never overwrite each other.
   */
  lemma NoTurnOverwritten(states: seq<Home>, steps: seq<Step>, i: nat, j: nat, key: Key)
    requires Run(states, steps) && i <= j < |states| && |states[i].log| <= |states[j].log|
    requires var since := states[j].log[|states[i].log|..];
      && (forall c | c in since :: LeavesOrAppends(c, key))
      && TurnsFor(since, key) != []
      && NewTurns(WithLegacyMarker(HistoryOf(Find(states[i].store, key))), TurnsFor(since, key))
    ensures HistoryOf(Find(states[j].store, key)) ==
      Trim(WithLegacyMarker(HistoryOf(Find(states[i].store, key))) + Concat(TurnsFor(states[j].log[|states[i].log|..], key)))
  {
    hide Trim, Append, NewTurns, CommitsOf, RequestOk, LeavesOrAppends, Concat, WithLegacyMarker;
    var before, since := states[i].log, states[j].log[|states[i].log|..];
    LogGrows(states, steps, i, j);
    assert states[j].log == before + since;
    RunInv(states, steps, i);
    RunInv(states, steps, j);
    ReplaySplit(map[], before, since);
    ReplayAppends(states[i].store, since, key);
    AppendAllIsConcat(HistoryOf(Find(states[i].store, key)), TurnsFor(since, key));
  }

  /** When an append goes through */

  predicate StepOf(step: Step, id: RequestId) {
    (step.Begin? || step.Load? || step.Swap? || step.Fail?) && step.id == id
  }

  lemma {:induction false} OthersLeaveRequest(states: seq<Home>, steps: seq<Step>, i: nat, n: nat, id: RequestId)
    requires Run(states, steps) && i <= n <= |steps| && id in states[i].requests
    requires forall j | i <= j < n :: !StepOf(steps[j], id)
    ensures id in states[n].requests && states[n].requests[id] == states[i].requests[id]
  {
    hide Append;
    if i < n {
      OthersLeaveRequest(states, steps, i, n - 1, id);
      assert Next(states[n - 1], steps[n - 1], states[n]);
    }
  }

  /**
   A swap goes through if and only if the store still holds what the append read last; then the key
   holds that history with the turn appended.  Otherwise the append reads again, up to 32 times.
   */
  lemma SwapTakesIff(states: seq<Home>, steps: seq<Step>, i: nat, n: nat)
    requires Run(states, steps) && i < n < |steps|
    requires steps[i].Load? && steps[n].Swap? && steps[n].id == steps[i].id
    requires forall j | i < j < n :: !StepOf(steps[j], steps[i].id)
    ensures steps[i].id in states[i].requests && states[i].requests[steps[i].id].Reading? && steps[i].id in states[n + 1].requests
    ensures var id, p := steps[i].id, states[i].requests[steps[i].id];
      var read := Find(states[i].store, p.key);
      if Find(states[n].store, p.key) == read then
           && states[n + 1].store == states[n].store[p.key := Append(if read.Some? then read.value else [], p.turn)]
           && states[n + 1].requests[id] == Finished(p.key, p.turn, p.started, steps[n].acked)
         else
           && states[n + 1].store == states[n].store
           && states[n + 1].requests[id] == if p.attempt < 31 then Reading(p.key, p.turn, p.started, p.attempt + 1) else Finished(p.key, p.turn, p.started, false)
  {
    hide Append;
    assert Next(states[i], steps[i], states[i + 1]);
    OthersLeaveRequest(states, steps, i + 1, n, steps[i].id);
    assert Next(states[n], steps[n], states[n + 1]);
  }

  /** The number of swaps that `id` tried in the first `n` steps. */
  function Tries(steps: seq<Step>, n: nat, id: RequestId): nat
    requires n <= |steps|
  {
    if n == 0 then 0 else Tries(steps, n - 1, id) + if steps[n - 1].Swap? && steps[n - 1].id == id then 1 else 0
  }

  lemma OthersLeaveOne(s: Home, step: Step, s': Home, id: RequestId)
    requires Next(s, step, s') && !StepOf(step, id)
    ensures id in s.requests <==> id in s'.requests
    ensures id in s.requests ==> s'.requests[id] == s.requests[id]
  {
    hide Append;
  }

  /** An append gives up only after an error, an unacknowledged swap, or 32 lost swaps. */
  lemma {:induction false} GivesUpOnlyAfter(states: seq<Home>, steps: seq<Step>, n: nat, id: RequestId)
    requires Run(states, steps) && n <= |steps|
    ensures id !in states[n].requests ==> Tries(steps, n, id) == 0
    ensures id in states[n].requests && !states[n].requests[id].Finished? ==> Tries(steps, n, id) == states[n].requests[id].attempt < 32
    ensures id in states[n].requests && states[n].requests[id].Finished? && !states[n].requests[id].ok ==>
      || Tries(steps, n, id) == 32
      || exists i :: 0 <= i < n && (steps[i] == Fail(id) || steps[i] == Swap(id, false))
  {
    hide Append, Find;
    if n > 0 {
      GivesUpOnlyAfter(states, steps, n - 1, id);
      assert Next(states[n - 1], steps[n - 1], states[n]);
      if !StepOf(steps[n - 1], id) {
        OthersLeaveOne(states[n - 1], steps[n - 1], states[n], id);
      } else {
        assert steps[n - 1] == steps[n - 1];
      }
    }
  }
}
