/**
 The in-process listener that hands multiplexed connections from Put to Accept.  Every call of
 Put, Accept and Close is a thread of its own whose lock, channel and wait-group operations
 interleave with those of all other calls.  The close channel is closed under the same lock
 that sets the closed flag, so one flag stands for both.
 */
module MuxListener {

  type Call = nat
  type Conn = nat

  datatype Putter = Selecting(conn: Conn) | Leaving(conn: Conn, ok: bool) | Returned(conn: Conn, ok: bool)

  datatype Acceptor = Waiting | Holding(conn: Conn) | Delivered(conn: Conn) | Refused

  datatype Closer = NotClosing | AwaitingPuts | Draining | Closed

  datatype Mux = Mux(
    capacity: nat, queue: seq<Conn>, closed: bool, inFlight: nat,
    putters: map<Call, Putter>, acceptors: map<Call, Acceptor>, closer: Closer, closedConns: multiset<Conn>)

  datatype Step =
    | EnterPut(call: Call, conn: Conn)
    | Send(call: Call)
    | SeeClose(call: Call)
    | TimeOut(call: Call)
    | Leave(call: Call)
    | EnterAccept(call: Call)
    | Receive(call: Call)
    | RefuseAccept(call: Call)
    | HandOver(call: Call)
    | BeginClose
    | PutsDone
    | Drain

  function New(buffer: int): Mux {
    Mux(if buffer <= 0 then 1 else buffer, [], false, 0, map[], map[], NotClosing, multiset{})
  }

  predicate Is(s: Mux, step: Step) {
    match step
    case EnterPut(t, _) => t !in s.putters
    case Send(t) => t in s.putters && s.putters[t].Selecting? && |s.queue| < s.capacity
    case SeeClose(t) => t in s.putters && s.putters[t].Selecting? && s.closed
    case TimeOut(t) => t in s.putters && s.putters[t].Selecting?
    case Leave(t) => t in s.putters && s.putters[t].Leaving? && s.inFlight > 0
    case EnterAccept(a) => a !in s.acceptors
    case Receive(a) => a in s.acceptors && s.acceptors[a] == Waiting && s.queue != []
    case RefuseAccept(a) => a in s.acceptors && s.acceptors[a] == Waiting && s.closed
    case HandOver(a) => a in s.acceptors && s.acceptors[a].Holding?
    case BeginClose => s.closer == NotClosing
    case PutsDone => s.closer == AwaitingPuts && s.inFlight == 0
    case Drain => s.closer == Draining
  }

  /** The state after a step that is possible in `s`. */
  function Do(s: Mux, step: Step): Mux
    requires Is(s, step)
  {
    match step
    case EnterPut(t, c) =>
      if s.closed then s.(putters := s.putters[t := Returned(c, false)])
      else s.(putters := s.putters[t := Selecting(c)], inFlight := s.inFlight + 1)
    case Send(t) =>
      s.(putters := s.putters[t := Leaving(s.putters[t].conn, true)], queue := s.queue + [s.putters[t].conn])
    case SeeClose(t) => s.(putters := s.putters[t := Leaving(s.putters[t].conn, false)])
    case TimeOut(t) => s.(putters := s.putters[t := Leaving(s.putters[t].conn, false)])
    case Leave(t) =>
      s.(putters := s.putters[t := Returned(s.putters[t].conn, s.putters[t].ok)], inFlight := s.inFlight - 1)
    case EnterAccept(a) => s.(acceptors := s.acceptors[a := Waiting])
    case Receive(a) => s.(acceptors := s.acceptors[a := Holding(s.queue[0])], queue := s.queue[1..])
    case RefuseAccept(a) => s.(acceptors := s.acceptors[a := Refused])
    case HandOver(a) =>
      var c := s.acceptors[a].conn;
      if s.closed then s.(acceptors := s.acceptors[a := Refused], closedConns := s.closedConns + multiset{c})
      else s.(acceptors := s.acceptors[a := Delivered(c)])
    case BeginClose => s.(closed := true, closer := AwaitingPuts)
    case PutsDone => s.(closer := Draining)
    case Drain =>
      if s.queue != [] then s.(queue := s.queue[1..], closedConns := s.closedConns + multiset{s.queue[0]})
      else s.(closer := Closed)
  }

  predicate Next(s: Mux, step: Step, s': Mux) {
    Is(s, step) && s' == Do(s, step)
  }

  ghost predicate IsRun(states: seq<Mux>, steps: seq<Step>) {
    && |states| == |steps| + 1
    && (exists buffer: int :: states[0] == New(buffer))
    && forall i | 0 <= i < |steps| :: Next(states[i], steps[i], states[i + 1])
  }

  /** Counting calls */

  ghost function Where<V(!new)>(m: map<Call, V>, p: V -> bool): set<Call> {
    set k | k in m && p(m[k])
  }

  ghost function CountIf<V(!new)>(m: map<Call, V>, p: V -> bool): nat {
    |Where(m, p)|
  }

  lemma CountUpdate<V(!new)>(m: map<Call, V>, k: Call, v: V, p: V -> bool)
    ensures CountIf(m[k := v], p) == CountIf(m, p) - (if k in m && p(m[k]) then 1 else 0) + (if p(v) then 1 else 0)
  {
    var w, w' := Where(m, p), Where(m[k := v], p);
    forall x | x != k ensures x in w' <==> x in w {
      assert x in m[k := v] <==> x in m;
    }
    assert k in w' <==> p(v);
    var rest := w - {k};
    assert rest == w' - {k};
    assert |rest| == |w| - (if k in w then 1 else 0);
    assert |rest| == |w'| - (if k in w' then 1 else 0);
  }

  /** The calls of Put whose connection went into the channel. */
  function Sent(c: Conn): Putter -> bool {
    (p: Putter) => !p.Selecting? && p.conn == c && p.ok
  }

  function InFlight(): Putter -> bool {
    (p: Putter) => !p.Returned?
  }

  function StillSelecting(): Putter -> bool {
    (p: Putter) => p.Selecting?
  }

  function Held(c: Conn): Acceptor -> bool {
    (a: Acceptor) => a == Holding(c)
  }

  function HandedOut(c: Conn): Acceptor -> bool {
    (a: Acceptor) => a == Delivered(c)
  }

  /** Conservation: what was sent is queued, in an acceptor's hand, delivered, or closed by the listener. */
  ghost predicate Conserved(s: Mux, c: Conn) {
    CountIf(s.putters, Sent(c)) ==
      multiset(s.queue)[c] + CountIf(s.acceptors, Held(c)) + CountIf(s.acceptors, HandedOut(c)) + s.closedConns[c]
  }

  ghost predicate Counted(s: Mux) {
    s.inFlight == CountIf(s.putters, InFlight())
  }

  ghost predicate Phases(s: Mux) {
    && |s.queue| <= s.capacity && s.capacity >= 1
    && (s.closed <==> s.closer != NotClosing)
    && (s.closer == Draining || s.closer == Closed ==> s.inFlight == 0)
    && (s.closer == Closed ==> s.queue == [])
  }

  ghost predicate Inv(s: Mux) {
    Counted(s) && Phases(s)
  }

  lemma InFlightPutter(s: Mux, t: Call)
    requires Counted(s) && t in s.putters && !s.putters[t].Returned?
    ensures s.inFlight > 0
  {
    assert t in Where(s.putters, InFlight());
  }

  lemma StepInv(s: Mux, step: Step)
    requires Inv(s) && Is(s, step)
    ensures Inv(Do(s, step))
  {
    match step {
      case EnterPut(t, c) => CountUpdate(s.putters, t, Do(s, step).putters[t], InFlight());
      case Send(t) =>
        InFlightPutter(s, t);
        CountUpdate(s.putters, t, Do(s, step).putters[t], InFlight());
      case SeeClose(t) => CountUpdate(s.putters, t, Do(s, step).putters[t], InFlight());
      case TimeOut(t) => CountUpdate(s.putters, t, Do(s, step).putters[t], InFlight());
      case Leave(t) => CountUpdate(s.putters, t, Do(s, step).putters[t], InFlight());
      case _ =>
    }
  }

  lemma TakeHead(q: seq<Conn>, c: Conn)
    requires q != []
    ensures multiset(q)[c] == multiset(q[1..])[c] + (if q[0] == c then 1 else 0)
  {
    assert q == [q[0]] + q[1..];
  }

  lemma PutStepConserves(s: Mux, step: Step, c: Conn)
    requires Is(s, step) && Conserved(s, c)
    requires step.EnterPut? || step.Send? || step.SeeClose? || step.TimeOut? || step.Leave?
    ensures Conserved(Do(s, step), c)
  {
    CountUpdate(s.putters, step.call, Do(s, step).putters[step.call], Sent(c));
  }

  lemma AcceptStepConserves(s: Mux, step: Step, c: Conn)
    requires Is(s, step) && Conserved(s, c)
    requires step.EnterAccept? || step.Receive? || step.RefuseAccept? || step.HandOver?
    ensures Conserved(Do(s, step), c)
  {
    CountUpdate(s.acceptors, step.call, Do(s, step).acceptors[step.call], Held(c));
    CountUpdate(s.acceptors, step.call, Do(s, step).acceptors[step.call], HandedOut(c));
    if step.Receive? {
      TakeHead(s.queue, c);
    }
  }

  lemma StepConserves(s: Mux, step: Step, c: Conn)
    requires Is(s, step) && Conserved(s, c)
    ensures Conserved(Do(s, step), c)
  {
    if step.EnterPut? || step.Send? || step.SeeClose? || step.TimeOut? || step.Leave? {
      PutStepConserves(s, step, c);
    } else if step.EnterAccept? || step.Receive? || step.RefuseAccept? || step.HandOver? {
      AcceptStepConserves(s, step, c);
    } else if step.Drain? && s.queue != [] {
      TakeHead(s.queue, c);
    }
  }

  lemma {:induction false} RunInv(states: seq<Mux>, steps: seq<Step>, n: nat)
    requires IsRun(states, steps) && n <= |steps|
    ensures Inv(states[n])
  {
    if n > 0 {
      RunInv(states, steps, n - 1);
      assert Next(states[n - 1], steps[n - 1], states[n]);
      StepInv(states[n - 1], steps[n - 1]);
    }
  }

  /**
   No connection leaks and none is duplicated: in every state of every run, the number of Put
   calls that sent it equals the number of places it is in.
   */
  lemma {:induction false} RunConserves(states: seq<Mux>, steps: seq<Step>, n: nat, c: Conn)
    requires IsRun(states, steps) && n <= |steps|
    ensures Conserved(states[n], c)
  {
    if n > 0 {
      RunConserves(states, steps, n - 1, c);
      assert Next(states[n - 1], steps[n - 1], states[n]);
      StepConserves(states[n - 1], steps[n - 1], c);
    }
  }

  /** A connection that one Put call sent is in exactly one place. */
  lemma ExactlyOnePlace(states: seq<Mux>, steps: seq<Step>, n: nat, c: Conn, t: Call)
    requires IsRun(states, steps) && n <= |steps|
    requires t in states[n].putters && states[n].putters[t] == Returned(c, true)
    requires forall u | u in states[n].putters && u != t :: states[n].putters[u].conn != c
    ensures var s := states[n];
            var queued, held, delivered, closed :=
              multiset(s.queue)[c], CountIf(s.acceptors, Held(c)), CountIf(s.acceptors, HandedOut(c)), s.closedConns[c];
            queued + held + delivered + closed == 1
  {
    RunConserves(states, steps, n, c);
    assert Where(states[n].putters, Sent(c)) == {t};
  }

  /** While the listener is open */

  /** An open listener has closed no connection and refused no Accept: whatever was received is held or delivered. */
  lemma {:induction false} OpenKeepsEverything(states: seq<Mux>, steps: seq<Step>, n: nat)
    requires IsRun(states, steps) && n <= |steps| && !states[n].closed
    ensures states[n].closedConns == multiset{}
    ensures forall a | a in states[n].acceptors :: states[n].acceptors[a] != Refused
  {
    if n > 0 {
      assert Next(states[n - 1], steps[n - 1], states[n]);
      RunInv(states, steps, n - 1);
      OpenKeepsEverything(states, steps, n - 1);
    }
  }

  /** What a held connection becomes is what the listener is at that moment. */
  lemma HandOverDelivers(states: seq<Mux>, steps: seq<Step>, n: nat)
    requires IsRun(states, steps) && n < |steps| && steps[n].HandOver?
    ensures var a := steps[n].call;
      && a in states[n].acceptors && states[n].acceptors[a].Holding? && a in states[n + 1].acceptors
      && states[n + 1].acceptors[a] == if states[n].closed then Refused else Delivered(states[n].acceptors[a].conn)
  {
    assert Next(states[n], steps[n], states[n + 1]);
  }

  /** The connections sent, in order, by the first `n` steps. */
  function SentBy(states: seq<Mux>, steps: seq<Step>, n: nat): seq<Conn>
    requires |states| == |steps| + 1 && n <= |steps|
  {
    if n == 0 then []
    else
      var before := SentBy(states, steps, n - 1);
      if steps[n - 1].Send? && steps[n - 1].call in states[n - 1].putters then before + [states[n - 1].putters[steps[n - 1].call].conn] else before
  }

  /** The connections taken out of the queue, in order: received by an Accept, or drained by Close. */
  function TakenBy(states: seq<Mux>, steps: seq<Step>, n: nat): seq<Conn>
    requires |states| == |steps| + 1 && n <= |steps|
  {
    if n == 0 then []
    else
      var before := TakenBy(states, steps, n - 1);
      var step, s, s' := steps[n - 1], states[n - 1], states[n];
      if step.Receive? && step.call in s'.acceptors && s'.acceptors[step.call].Holding? then before + [s'.acceptors[step.call].conn]
      else if step.Drain? && s.queue != [] then before + [s.queue[0]]
      else before
  }

  lemma QueueMoves(s: Mux, step: Step, s': Mux)
    requires Next(s, step, s')
    ensures step.Send? ==> step.call in s.putters && s'.queue == s.queue + [s.putters[step.call].conn]
    ensures step.Receive? ==> s.queue != [] && s'.queue == s.queue[1..] && step.call in s'.acceptors && s'.acceptors[step.call] == Holding(s.queue[0])
    ensures step.Drain? && s.queue != [] ==> s'.queue == s.queue[1..]
    ensures !step.Send? && !step.Receive? && !(step.Drain? && s.queue != []) ==> s'.queue == s.queue
  {}

  lemma TakeFirst(taken: seq<Conn>, queue: seq<Conn>)
    requires queue != []
    ensures taken + queue == taken + [queue[0]] + queue[1..]
  {}

  /** Connections leave the queue in the order in which they were sent. */
  lemma {:induction false} FirstInFirstOut(states: seq<Mux>, steps: seq<Step>, n: nat)
    requires IsRun(states, steps) && n <= |steps|
    ensures SentBy(states, steps, n) == TakenBy(states, steps, n) + states[n].queue
  {
    hide Next;
    if n > 0 {
      FirstInFirstOut(states, steps, n - 1);
      var s := states[n - 1];
      QueueMoves(s, steps[n - 1], states[n]);
      var taken := TakenBy(states, steps, n - 1);
      if s.queue != [] {
        TakeFirst(taken, s.queue);
      }
      if steps[n - 1].Send? {
        assert taken + s.queue + [s.putters[steps[n - 1].call].conn] == taken + (s.queue + [s.putters[steps[n - 1].call].conn]);
      }
    }
  }

  /** While the listener is open, what the Accepts received is a prefix of what the Puts sent. */
  lemma {:induction false} OpenReceivesInOrder(states: seq<Mux>, steps: seq<Step>, n: nat)
    requires IsRun(states, steps) && n <= |steps| && !states[n].closed
    ensures TakenBy(states, steps, n) <= SentBy(states, steps, n)
    ensures forall i | 0 <= i < n :: !steps[i].Drain?
  {
    FirstInFirstOut(states, steps, n);
    forall i | 0 <= i < n ensures !steps[i].Drain? {
      OpenBefore(states, steps, i, n);
      RunInv(states, steps, i);
      assert Next(states[i], steps[i], states[i + 1]);
    }
  }

  lemma {:induction false} OpenBefore(states: seq<Mux>, steps: seq<Step>, i: nat, n: nat)
    requires IsRun(states, steps) && i <= n <= |steps| && !states[n].closed
    ensures !states[i].closed
  {
    if i < n {
      assert Next(states[n - 1], steps[n - 1], states[n]);
      OpenBefore(states, steps, i, n - 1);
    }
  }

  /** A Put that ends without sending timed out, or the listener was closed. */
  lemma {:induction false} PutFailsOnlyFor(states: seq<Mux>, steps: seq<Step>, n: nat, t: Call)
    requires IsRun(states, steps) && n <= |steps| && t in states[n].putters
    ensures !states[n].putters[t].Selecting? && !states[n].putters[t].ok ==> states[n].closed || exists i :: 0 <= i < n && steps[i] == TimeOut(t)
    ensures !states[n].putters[t].Selecting? && states[n].putters[t].ok ==> exists i :: 0 <= i < n && steps[i] == Send(t)
  {
    if n > 0 {
      assert Next(states[n - 1], steps[n - 1], states[n]);
      if t in states[n - 1].putters {
        PutFailsOnlyFor(states, steps, n - 1, t);
        assert steps[n - 1] == steps[n - 1];
      }
    }
  }

  lemma PutWorks(s: Mux, t: Call, c: Conn) returns (states: seq<Mux>)
    requires Inv(s) && !s.closed && s.queue == [] && t !in s.putters
    ensures |states| == 4 && states[0] == s
    ensures Next(states[0], EnterPut(t, c), states[1]) && Next(states[1], Send(t), states[2]) && Next(states[2], Leave(t), states[3])
    ensures states[3].putters == s.putters[t := Returned(c, true)]
    ensures states[3].queue == [c] && !states[3].closed && states[3].acceptors == s.acceptors
  {
    var s1 := Do(s, EnterPut(t, c));
    var s2 := Do(s1, Send(t));
    states := [s, s1, s2, Do(s2, Leave(t))];
  }

  lemma AcceptWorks(s: Mux, a: Call, c: Conn) returns (states: seq<Mux>)
    requires !s.closed && s.queue == [c] && a !in s.acceptors
    ensures |states| == 4 && states[0] == s
    ensures Next(states[0], EnterAccept(a), states[1]) && Next(states[1], Receive(a), states[2]) && Next(states[2], HandOver(a), states[3])
    ensures states[3].acceptors == s.acceptors[a := Delivered(c)]
    ensures states[3].queue == [] && !states[3].closed && states[3].putters == s.putters
  {
    var s1 := Do(s, EnterAccept(a));
    var s2 := Do(s1, Receive(a));
    states := [s, s1, s2, Do(s2, HandOver(a))];
  }

  /** Left alone, an open listener with an empty queue hands a connection from Put to Accept. */
  lemma HandOffWorks(s: Mux, t: Call, a: Call, c: Conn) returns (states: seq<Mux>)
    requires Inv(s) && !s.closed && s.queue == [] && t !in s.putters && a !in s.acceptors
    ensures |states| == 7 && states[0] == s
    ensures Next(states[0], EnterPut(t, c), states[1]) && Next(states[1], Send(t), states[2]) && Next(states[2], Leave(t), states[3])
    ensures Next(states[3], EnterAccept(a), states[4]) && Next(states[4], Receive(a), states[5]) && Next(states[5], HandOver(a), states[6])
    ensures t in states[6].putters && states[6].putters[t] == Returned(c, true)
    ensures a in states[6].acceptors && states[6].acceptors[a] == Delivered(c)
  {
    hide Next, Do, Is;
    var put := PutWorks(s, t, c);
    var accept := AcceptWorks(put[3], a, c);
    states := put + accept[1..];
  }

  /** Closing */

  lemma StepKeepsClosed(s: Mux, step: Step)
    requires Inv(s) && s.closer == Closed && Is(s, step)
    ensures Do(s, step).closer == Closed && Do(s, step).queue == []
  {
    if step.Send? {
      InFlightPutter(s, step.call);
    }
  }

  /** Once Close returned, the queue stays empty forever. */
  lemma {:induction false} QueueEmptyForever(states: seq<Mux>, steps: seq<Step>, m: nat, n: nat)
    requires IsRun(states, steps) && m <= n <= |steps| && states[m].closer == Closed
    ensures states[n].closer == Closed && states[n].queue == []
  {
    RunInv(states, steps, m);
    if m < n {
      QueueEmptyForever(states, steps, m, n - 1);
      RunInv(states, steps, n - 1);
      assert Next(states[n - 1], steps[n - 1], states[n]);
      StepKeepsClosed(states[n - 1], steps[n - 1]);
    }
  }

  /** After Close returned, a sent connection was delivered or closed, or an acceptor still has to close it. */
  lemma SettledAfterClose(states: seq<Mux>, steps: seq<Step>, m: nat, n: nat, c: Conn)
    requires IsRun(states, steps) && m <= n <= |steps| && states[m].closer == Closed
    ensures var s := states[n];
            CountIf(s.putters, Sent(c)) == CountIf(s.acceptors, Held(c)) + CountIf(s.acceptors, HandedOut(c)) + s.closedConns[c]
  {
    QueueEmptyForever(states, steps, m, n);
    RunConserves(states, steps, n, c);
  }

  /** No connection is delivered after the listener began to close. */
  lemma {:induction false} NothingDeliveredAfterClose(states: seq<Mux>, steps: seq<Step>, m: nat, n: nat, a: Call, c: Conn)
    requires IsRun(states, steps) && m <= n <= |steps| && states[m].closed
    requires a in states[n].acceptors && states[n].acceptors[a] == Delivered(c)
    ensures a in states[m].acceptors && states[m].acceptors[a] == Delivered(c)
    ensures states[n].closed
  {
    if m < n {
      ClosedStays(states, steps, m, n - 1);
      assert Next(states[n - 1], steps[n - 1], states[n]);
      NothingDeliveredAfterClose(states, steps, m, n - 1, a, c);
    }
  }

  lemma {:induction false} ClosedStays(states: seq<Mux>, steps: seq<Step>, m: nat, n: nat)
    requires IsRun(states, steps) && m <= n <= |steps| && states[m].closed
    ensures states[n].closed
  {
    if m < n {
      ClosedStays(states, steps, m, n - 1);
      assert Next(states[n - 1], steps[n - 1], states[n]);
    }
  }

  /** Progress of Close */

  function Rank(c: Closer): nat {
    match c
    case NotClosing => 3
    case AwaitingPuts => 2
    case Draining => 1
    case Closed => 0
  }

  /** What is left to do before Close returns. */
  ghost function Work(s: Mux): nat {
    2 * CountIf(s.putters, StillSelecting()) + CountIf(s.putters, InFlight()) + |s.queue| + Rank(s.closer)
  }

  /** Steps that need no acceptor, no free queue slot and no timer. */
  predicate ClosingStep(step: Step) {
    step.SeeClose? || step.Leave? || step.PutsDone? || step.Drain?
  }

  /** While Close has not returned, one of its own steps or of an in-flight Put is possible. */
  lemma CloseNeverBlocks(s: Mux) returns (step: Step)
    requires Inv(s) && (s.closer == AwaitingPuts || s.closer == Draining)
    ensures ClosingStep(step) && Is(s, step)
  {
    if s.closer == Draining {
      step := Drain;
    } else if s.inFlight == 0 {
      step := PutsDone;
    } else {
      var t :| t in Where(s.putters, InFlight());
      step := if s.putters[t].Selecting? then SeeClose(t) else Leave(t);
    }
  }

  /** After the listener began to close, no step adds work and every closing step removes some. */
  lemma ClosingStepsDecreaseWork(s: Mux, step: Step)
    requires Inv(s) && s.closed && Is(s, step)
    ensures Work(Do(s, step)) <= Work(s)
    ensures ClosingStep(step) ==> Work(Do(s, step)) < Work(s)
  {
    var s' := Do(s, step);
    if step.EnterPut? || step.Send? || step.SeeClose? || step.TimeOut? || step.Leave? {
      CountUpdate(s.putters, step.call, s'.putters[step.call], StillSelecting());
      CountUpdate(s.putters, step.call, s'.putters[step.call], InFlight());
    }
  }

  function ClosingSteps(steps: seq<Step>): nat {
    if steps == [] then 0 else ClosingSteps(steps[..|steps| - 1]) + (if ClosingStep(steps[|steps| - 1]) then 1 else 0)
  }

  lemma {:induction false} ClosingStepsBounded(states: seq<Mux>, steps: seq<Step>, m: nat, n: nat)
    requires IsRun(states, steps) && m <= n <= |steps| && states[m].closed
    ensures ClosingSteps(steps[m..n]) + Work(states[n]) <= Work(states[m])
  {
    hide Is, Do, Inv, Work, ClosingStep;
    if m < n {
      ClosingStepsBounded(states, steps, m, n - 1);
      ClosedStays(states, steps, m, n - 1);
      RunInv(states, steps, n - 1);
      assert Next(states[n - 1], steps[n - 1], states[n]);
      ClosingStepsDecreaseWork(states[n - 1], steps[n - 1]);
      assert steps[m..n][..n - m - 1] == steps[m..n - 1];
    }
  }

  /** However the calls interleave, once `Work` closing steps were taken Close has returned; before, one more is possible. */
  lemma CloseReturns(states: seq<Mux>, steps: seq<Step>, m: nat, n: nat)
    requires IsRun(states, steps) && m <= n <= |steps| && states[m].closed
    ensures ClosingSteps(steps[m..n]) >= Work(states[m]) ==> states[n].closer == Closed
    ensures states[n].closer != Closed ==> exists step :: ClosingStep(step) && Is(states[n], step)
  {
    hide Is, Do, ClosingStep, ClosingSteps;
    ClosingStepsBounded(states, steps, m, n);
    RunInv(states, steps, n);
    ClosedStays(states, steps, m, n);
    if states[n].closer != Closed {
      var step := CloseNeverBlocks(states[n]);
    }
  }

  /** Left to itself, a Close under way returns: closing steps alone lead to its end. */
  lemma {:induction false} CloseCompletes(s: Mux) returns (states: seq<Mux>, steps: seq<Step>)
    requires Inv(s) && s.closed
    ensures |states| == |steps| + 1 && states[0] == s && states[|steps|].closer == Closed
    ensures forall i | 0 <= i < |steps| :: ClosingStep(steps[i]) && Next(states[i], steps[i], states[i + 1])
    decreases Work(s)
  {
    if s.closer == Closed {
      return [s], [];
    }
    var step := CloseNeverBlocks(s);
    var s' := Do(s, step);
    StepInv(s, step);
    ClosingStepsDecreaseWork(s, step);
    hide Is, Do, Inv, Work, ClosingStep;
    var rest, more := CloseCompletes(s');
    states, steps := [s] + rest, [step] + more;
  }
}
