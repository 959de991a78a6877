/**
 The response compression writer: it buffers the body until the encoding can be decided, decides
 once, and from then on streams to one target, the client directly or an encoder in front of
 it.  The client connection is part of the state: the header it was committed with, the bytes it
 got as they are, and the bytes the encoder was fed.  What the transport and the encoder answer
 is a parameter of each operation.
 */
module ResponseCompression {
  import opened Options
  import opened Decimal

  type Bytes = seq<bv8>

  /** The header fields that matter here; "" is absent. */
  datatype Header = Header(contentType: string, contentEncoding: string, contentLength: string)

  datatype Writer = Writer(
    encoding: string, minBytes: nat,
    header: Header, status: int,
    committed: Option<Header>, plain: Bytes, encoded: Bytes, closed: bool,
    buffer: Bytes, compressor: bool, decided: bool, failed: bool, written: bool, size: nat)

  /** The answer to one write: everything taken, or an error after `taken` bytes at most. */
  datatype Reply = Reply(taken: nat, failed: bool)

  /** What the surroundings answer during one operation. */
  datatype Env = Env(encoderAvailable: bool, drain: Reply, write: Reply, encoderFlushFails: bool, flushFails: bool)

  datatype Op =
    | SetHeader(header: Header)
    | WriteHeader(code: int)
    | Write(data: Bytes, sniffed: string, env: Env)
    | WriteHeaderNow(env: Env)
    | Flush(env: Env)
    | Finish(env: Env)

  function Fresh(encoding: string, minBytes: nat): Writer {
    Writer(encoding, minBytes, Header("", "", ""), 200, None, [], [], false, [], false, false, false, false, 0)
  }

  /** Media types */

  function Before(s: string, stop: char): string {
    if s == [] || s[0] == stop then [] else [s[0]] + Before(s[1..], stop)
  }

  predicate IsSpace(c: char) {
    c == ' ' || '\t' <= c <= '\r'
  }

  function TrimSpace(s: string): string {
    if s != [] && IsSpace(s[0]) then TrimSpace(s[1..])
    else if s != [] && IsSpace(s[|s| - 1]) then TrimSpace(s[..|s| - 1])
    else s
  }

  function ToLower(s: string): string {
    seq(|s|, i requires 0 <= i < |s| => if 'A' <= s[i] <= 'Z' then (s[i] as int + 32) as char else s[i])
  }

  function MediaType(contentType: string): string {
    ToLower(TrimSpace(Before(contentType, ';')))
  }

  predicate HasSuffix(s: string, suffix: string) {
    |s| >= |suffix| && s[|s| - |suffix|..] == suffix
  }

  predicate Compressible(mediaType: string) {
    || "text/" <= mediaType
    || mediaType == "application/json"
    || ("application/" <= mediaType && HasSuffix(mediaType, "+json"))
    || mediaType == "application/javascript"
    || mediaType == "image/svg+xml"
  }

  /** The decision */

  datatype Choice = Wait | Identity | Encode

  predicate Ineligible(s: Writer) {
    || s.committed.Some?
    || s.status < 200 || s.status == 204 || s.status == 304 || s.status == 206
    || s.header.contentEncoding != ""
    || !Compressible(MediaType(s.header.contentType))
  }

  predicate DeclaredShort(s: Writer) {
    var length := Atoi(s.header.contentLength);
    length.Some? && 0 <= length.value < s.minBytes
  }

  function Choose(s: Writer, force: bool, size: nat, available: bool): Choice {
    var streaming := MediaType(s.header.contentType) == "text/event-stream";
    if Ineligible(s) || (!streaming && DeclaredShort(s)) then Identity
    else if !streaming && size < s.minBytes then (if force then Identity else Wait)
    else if available then Encode
    else Identity
  }

  function Decide(s: Writer, force: bool, size: nat, available: bool): Writer {
    if s.decided then s else
      match Choose(s, force, size, available)
      case Wait => s
      case Identity => s.(decided := true)
      case Encode => Commit(s.(decided := true, compressor := true, header := s.header.(contentLength := "", contentEncoding := s.encoding)))
  }

  /** Streaming */

  function Commit(s: Writer): Writer {
    if s.committed.Some? then s else s.(committed := Some(s.header))
  }

  function Taken(data: Bytes, reply: Reply): Bytes {
    if reply.failed && reply.taken < |data| then data[..reply.taken] else data
  }

  /** One write to the chosen target. */
  function Feed(s: Writer, data: Bytes, reply: Reply): Writer {
    if s.compressor then s.(encoded := s.encoded + Taken(data, reply), failed := reply.failed)
    else Commit(s).(plain := s.plain + Taken(data, reply), failed := reply.failed)
  }

  function Drain(s: Writer, reply: Reply): Writer {
    if s.failed || s.buffer == [] then s else Feed(s, s.buffer, reply).(buffer := [])
  }

  function Sniff(s: Writer, data: Bytes, sniffed: string): Writer {
    if s.header.contentType == "" && data != [] then s.(header := s.header.(contentType := sniffed)) else s
  }

  function DecideForWrite(s: Writer, data: Bytes, sniffed: string, available: bool): Writer {
    if s.decided then s else Decide(Sniff(s, data, sniffed), false, |s.buffer| + |data|, available)
  }

  function AfterWrite(s: Writer, data: Bytes, sniffed: string, env: Env): Writer {
    if s.failed then s else
      var d := DecideForWrite(s.(written := true), data, sniffed, env.encoderAvailable);
      if !d.decided then d.(buffer := d.buffer + data, size := d.size + |data|)
      else AfterDecided(d, data, env)
  }

  function AfterDecided(d: Writer, data: Bytes, env: Env): Writer {
    var e := Drain(d, env.drain);
    if e.failed then e else Feed(e, data, env.write).(size := e.size + |Taken(data, env.write)|)
  }

  function DecideAndDrain(s: Writer, env: Env): Writer {
    Drain(Decide(s, true, |s.buffer|, env.encoderAvailable), env.drain)
  }

  function AfterFlush(s: Writer, env: Env): Writer {
    if s.failed then s else
      var d := DecideAndDrain(s.(written := true), env);
      if d.failed then d
      else if d.compressor && env.encoderFlushFails then d.(failed := true)
      else Commit(d).(failed := env.flushFails)
  }

  function AfterFinish(s: Writer, env: Env): Writer {
    var d := DecideAndDrain(s, env);
    if d.compressor then d.(closed := true, compressor := false, failed := true) else d
  }

  function After(s: Writer, op: Op): Writer {
    match op
    case SetHeader(header) => s.(header := header)
    case WriteHeader(code) => if s.written || s.committed.Some? || code <= 0 then s else s.(status := code)
    case Write(data, sniffed, env) => AfterWrite(s, data, sniffed, env)
    case WriteHeaderNow(env) => Commit(DecideAndDrain(s.(written := true), env))
    case Flush(env) => AfterFlush(s, env)
    case Finish(env) => AfterFinish(s, env)
  }

  function AfterAll(s: Writer, ops: seq<Op>): Writer {
    if ops == [] then s else After(AfterAll(s, ops[..|ops| - 1]), ops[|ops| - 1])
  }

  /** The writer object */
  class ResponseCompressionWriter {
    const encoding: string
    const minBytes: nat
    var header: Header
    var status: int
    var committed: Option<Header>
    var plain: Bytes
    var encoded: Bytes
    var closed: bool
    var buffer: Bytes
    var compressor: bool
    var decided: bool
    var failed: bool
    var written: bool
    var size: nat

    function View(): Writer
      reads this
    {
      Writer(encoding, minBytes, header, status, committed, plain, encoded, closed, buffer, compressor, decided, failed, written, size)
    }

    constructor (encoding: string, minBytes: nat)
      ensures View() == Fresh(encoding, minBytes)
    {
      this.encoding, this.minBytes := encoding, minBytes;
      header, status, committed := Header("", "", ""), 200, None;
      plain, encoded, closed := [], [], false;
      buffer, compressor, decided, failed, written, size := [], false, false, false, false, 0;
    }

    method CommitHeader()
      modifies this
      ensures View() == Commit(old(View()))
    {
      if committed.None? {
        committed := Some(header);
      }
    }

    method MakeDecision(force: bool, bytes: nat, available: bool)
      modifies this
      ensures View() == Decide(old(View()), force, bytes, available)
      ensures size == old(size)
    {
      hide MediaType, Ineligible, DeclaredShort;
      if decided {
        return;
      }
      if Ineligible(View()) {
        decided := true;
        return;
      }
      if MediaType(header.contentType) != "text/event-stream" {
        if DeclaredShort(View()) {
          decided := true;
          return;
        }
        if bytes < minBytes {
          decided := force;
          return;
        }
      }
      decided := true;
      if !available {
        return;
      }
      compressor := true;
      header := header.(contentLength := "");
      header := header.(contentEncoding := encoding);
      CommitHeader();
    }

    method WriteTarget(data: Bytes, reply: Reply) returns (n: nat)
      modifies this
      ensures View() == Feed(old(View()), data, reply)
      ensures n == |Taken(data, reply)| && size == old(size)
    {
      var accepted := Taken(data, reply);
      if compressor {
        encoded := encoded + accepted;
      } else {
        CommitHeader();
        plain := plain + accepted;
      }
      failed := reply.failed;
      n := |accepted|;
    }

    method DrainBuffer(reply: Reply)
      modifies this
      ensures View() == Drain(old(View()), reply)
      ensures size == old(size)
    {
      if failed || |buffer| == 0 {
        return;
      }
      var n := WriteTarget(buffer, reply);
      buffer := [];
    }

    /** While undecided, a write sniffs the type if none is set and takes the decision if it can. */
    method DecideFirst(data: Bytes, sniffed: string, available: bool)
      modifies this
      ensures View() == DecideForWrite(old(View()), data, sniffed, available)
      ensures size == old(size)
    {
      hide Decide;
      if !decided {
        if header.contentType == "" && |data| > 0 {
          header := header.(contentType := sniffed);
        }
        MakeDecision(false, |buffer| + |data|, available);
      }
    }

    method WriteBytes(data: Bytes, sniffed: string, env: Env) returns (n: nat)
      modifies this
      ensures View() == After(old(View()), Write(data, sniffed, env))
      ensures n == size - old(size)
    {
      hide DecideForWrite, AfterDecided;
      if failed {
        return 0;
      }
      written := true;
      DecideFirst(data, sniffed, env.encoderAvailable);
      if !decided {
        buffer := buffer + data;
        size := size + |data|;
        return |data|;
      }
      n := Stream(data, env);
    }

    method Stream(data: Bytes, env: Env) returns (n: nat)
      modifies this
      ensures View() == AfterDecided(old(View()), data, env)
      ensures n == size - old(size)
    {
      hide Drain, Feed, Taken;
      DrainBuffer(env.drain);
      if failed {
        return 0;
      }
      n := WriteTarget(data, env.write);
      size := size + n;
    }

    method SendHeader(env: Env)
      modifies this
      ensures View() == After(old(View()), WriteHeaderNow(env))
    {
      hide Decide, Drain;
      written := true;
      MakeDecision(true, |buffer|, env.encoderAvailable);
      DrainBuffer(env.drain);
      CommitHeader();
    }

    method FlushError(env: Env) returns (ok: bool)
      modifies this
      ensures View() == After(old(View()), Flush(env))
      ensures ok == !failed
    {
      hide Decide, Drain;
      if failed {
        return false;
      }
      written := true;
      MakeDecision(true, |buffer|, env.encoderAvailable);
      DrainBuffer(env.drain);
      if failed {
        return false;
      }
      if compressor && env.encoderFlushFails {
        failed := true;
        return false;
      }
      CommitHeader();
      failed := env.flushFails;
      return !failed;
    }

    method FinishResponse(env: Env)
      modifies this
      ensures View() == After(old(View()), Finish(env))
    {
      hide Decide, Drain;
      MakeDecision(true, |buffer|, env.encoderAvailable);
      DrainBuffer(env.drain);
      if compressor {
        closed := true;
        compressor := false;
        failed := true;
      }
    }
  }

  /** What holds at every point of every response */

  /** The encoder is or was the target. */
  predicate UsedEncoder(s: Writer) {
    s.compressor || s.closed
  }

  /** What the single target was fed. */
  function Body(s: Writer): Bytes {
    if UsedEncoder(s) then s.encoded else s.plain
  }

  predicate Inv(s: Writer) {
    && !(s.compressor && s.closed)
    && (s.closed ==> s.failed)
    && (s.decided ==> s.buffer == [])
    && (!s.decided ==> s.committed.None? && s.plain == [] && !s.failed)
    && (UsedEncoder(s) ==> s.decided && s.plain == [] && Declared(s))
    && (!UsedEncoder(s) ==> s.encoded == [])
  }

  /** The client was told about the encoding, and of no length, when the header went out. */
  predicate Declared(s: Writer) {
    s.committed.Some? && s.committed.value.contentEncoding == s.encoding && s.committed.value.contentLength == ""
  }

  function Offered(op: Op): Bytes {
    if op.Write? then op.data else []
  }

  function AllOffered(ops: seq<Op>): Bytes {
    if ops == [] then [] else AllOffered(ops[..|ops| - 1]) + Offered(ops[|ops| - 1])
  }

  /** How one operation moves the stream: it goes on if it was not broken, and only in order. */
  ghost predicate Streams(s: Writer, offered: Bytes, s': Writer) {
    && s'.encoding == s.encoding && s'.minBytes == s.minBytes
    && (s.decided ==> s'.decided && UsedEncoder(s') == UsedEncoder(s))
    && (s.committed.Some? ==> s'.committed == s.committed)
    && (s.failed ==> s'.failed && Body(s') == Body(s) && s'.buffer == s.buffer)
    && Body(s') + s'.buffer <= Body(s) + s.buffer + offered
    && (!s'.failed ==> Body(s') + s'.buffer == Body(s) + s.buffer + offered)
  }

  lemma DecideKeeps(s: Writer, force: bool, size: nat, available: bool)
    requires s.decided ==> s.buffer == []
    requires Inv(s)
    ensures var d := Decide(s, force, size, available);
      && Streams(s, [], d)
      && d.buffer == s.buffer && d.failed == s.failed
      && (d.decided ==> InvBeforeDrain(d)) && (!d.decided ==> Inv(d))
      && (force ==> d.decided)
  {
    hide Ineligible, DeclaredShort, MediaType;
    var d := Decide(s, force, size, available);
    assert Body(s) + s.buffer + [] == Body(s) + s.buffer;
  }

  /** The state between the decision and the drain that follows it. */
  predicate InvBeforeDrain(s: Writer) {
    s.decided && Inv(s.(buffer := [])) && (s.failed ==> s.buffer == [])
  }

  lemma DrainKeeps(d: Writer, reply: Reply)
    requires InvBeforeDrain(d)
    ensures var e := Drain(d, reply);
      && Inv(e) && e.decided && Streams(d, [], e) && (!reply.failed ==> e.failed == d.failed)
  {
    var all := Body(d) + d.buffer;
    assert all + [] == all;
    if !d.failed && d.buffer != [] {
      FeedKeeps(d.(buffer := []), d.buffer, reply);
      assert Body(d) + [] + d.buffer == all;
    }
  }

  lemma FeedKeeps(s: Writer, data: Bytes, reply: Reply)
    requires Inv(s) && s.decided && !s.failed
    ensures var e := Feed(s, data, reply);
      && Inv(e) && e.decided && e.failed == reply.failed && e.buffer == []
      && Streams(s, data, e)
  {
    var e := Feed(s, data, reply);
    var taken := Taken(data, reply);
    assert Body(e) + e.buffer == Body(e) == Body(s) + taken;
    assert Body(s) + s.buffer == Body(s);
    assert taken <= data;
  }

  lemma StreamsCompose(a: Writer, x: Bytes, b: Writer, y: Bytes, c: Writer)
    requires Streams(a, x, b) && Streams(b, y, c)
    requires b.failed ==> y == []
    ensures Streams(a, x + y, c)
  {
    var from := Body(a) + a.buffer;
    assert from + x + y == from + (x + y);
    if b.failed {
      assert x + y == x;
    } else {
      assert Body(b) + b.buffer + y == from + (x + y);
    }
  }

  lemma DecideAndDrainKeeps(s: Writer, env: Env)
    requires Inv(s)
    ensures var e := DecideAndDrain(s, env);
      && Inv(e) && e.decided && Streams(s, [], e) && (!env.drain.failed ==> e.failed == s.failed)
  {
    hide Decide, Drain, Streams;
    DecideKeeps(s, true, |s.buffer|, env.encoderAvailable);
    var d := Decide(s, true, |s.buffer|, env.encoderAvailable);
    DrainKeeps(d, env.drain);
    StreamsCompose(s, [], d, [], Drain(d, env.drain));
  }

  predicate Faultless(env: Env) {
    !env.drain.failed && !env.write.failed && !env.encoderFlushFails && !env.flushFails
  }

  lemma WriteKeeps(s: Writer, data: Bytes, sniffed: string, env: Env)
    requires Inv(s)
    ensures var s' := AfterWrite(s, data, sniffed, env);
      && Inv(s') && (Faultless(env) ==> s'.failed == s.failed)
      && Streams(s, data, s')
  {
    hide Decide, Drain, Feed;
    var w := s.(written := true);
    if s.failed {
      assert Body(s) + s.buffer <= Body(s) + s.buffer + data;
    } else {
      var d := DecideForWrite(w, data, sniffed, env.encoderAvailable);
      SniffKeeps(w, data, sniffed, env.encoderAvailable);
      if !d.decided {
        assert Body(d) + (d.buffer + data) == Body(s) + s.buffer + data;
      } else {
        DrainKeeps(d, env.drain);
        var e := Drain(d, env.drain);
        StreamsCompose(w, [], d, [], e);
        if !e.failed {
          FeedKeeps(e, data, env.write);
          StreamsCompose(w, [], e, data, Feed(e, data, env.write));
          assert [] + data == data;
        } else {
          assert Body(s) + s.buffer + [] == Body(s) + s.buffer;
          assert Body(s) + s.buffer <= Body(s) + s.buffer + data;
        }
      }
    }
  }

  lemma SniffKeeps(s: Writer, data: Bytes, sniffed: string, available: bool)
    requires Inv(s) && !s.failed
    ensures var d := DecideForWrite(s, data, sniffed, available);
      && Streams(s, [], d) && !d.failed && d.buffer == s.buffer
      && (d.decided ==> InvBeforeDrain(d)) && (!d.decided ==> Inv(d))
  {
    hide Decide;
    if s.decided {
      assert Body(s) + s.buffer + [] == Body(s) + s.buffer;
    } else {
      DecideKeeps(Sniff(s, data, sniffed), false, |s.buffer| + |data|, available);
    }
  }

  /** A fault the surroundings may report during `op`. */
  predicate NoFault(op: Op) {
    match op
    case SetHeader(_) => true
    case WriteHeader(_) => true
    case _ => Faultless(op.env)
  }

  lemma HeaderNowKeeps(s: Writer, env: Env)
    requires Inv(s)
    ensures var s' := After(s, WriteHeaderNow(env));
      Inv(s') && Streams(s, [], s') && (Faultless(env) ==> s'.failed == s.failed)
  {
    hide DecideAndDrain;
    DecideAndDrainKeeps(s.(written := true), env);
  }

  lemma FlushKeeps(s: Writer, env: Env)
    requires Inv(s)
    ensures var s' := AfterFlush(s, env);
      Inv(s') && Streams(s, [], s') && (Faultless(env) ==> s'.failed == s.failed)
  {
    hide DecideAndDrain;
    assert Body(s) + s.buffer + [] == Body(s) + s.buffer;
    DecideAndDrainKeeps(s.(written := true), env);
  }

  lemma FinishKeeps(s: Writer, env: Env)
    requires Inv(s)
    ensures var s' := AfterFinish(s, env);
      && Inv(s') && Streams(s, [], s') && s'.decided && !s'.compressor
      && (Faultless(env) ==> Body(s') == Body(s) + s.buffer || s.failed)
  {
    hide DecideAndDrain;
    assert Body(s) + s.buffer + [] == Body(s) + s.buffer;
    DecideAndDrainKeeps(s, env);
  }

  /** Every operation keeps the invariant and moves the stream in order. */
  lemma StepKeeps(s: Writer, op: Op)
    requires Inv(s)
    ensures Inv(After(s, op)) && Streams(s, Offered(op), After(s, op))
    ensures NoFault(op) && !op.Finish? ==> After(s, op).failed == s.failed
  {
    hide AfterFlush, AfterFinish, AfterWrite;
    match op
    case SetHeader(header) => assert Body(s) + s.buffer + [] == Body(s) + s.buffer;
    case WriteHeader(code) => assert Body(s) + s.buffer + [] == Body(s) + s.buffer;
    case Write(data, sniffed, env) => WriteKeeps(s, data, sniffed, env);
    case WriteHeaderNow(env) => HeaderNowKeeps(s, env);
    case Flush(env) => FlushKeeps(s, env);
    case Finish(env) => FinishKeeps(s, env);
  }

  lemma {:induction false} RunKeeps(encoding: string, minBytes: nat, ops: seq<Op>)
    ensures var s := AfterAll(Fresh(encoding, minBytes), ops);
      && Inv(s) && s.encoding == encoding && s.minBytes == minBytes
      && Body(s) + s.buffer <= AllOffered(ops)
      && (!s.failed ==> Body(s) + s.buffer == AllOffered(ops))
  {
    hide After, Inv;
    var s := AfterAll(Fresh(encoding, minBytes), ops);
    if ops == [] {
      FreshInv(encoding, minBytes);
    } else {
      var n := |ops| - 1;
      RunKeeps(encoding, minBytes, ops[..n]);
      var b := AfterAll(Fresh(encoding, minBytes), ops[..n]);
      StepKeeps(b, ops[n]);
      var before, last := AllOffered(ops[..n]), Offered(ops[n]);
      assert Body(b) + b.buffer + last <= before + last || b.failed;
      if b.failed {
        assert Body(s) + s.buffer <= before <= before + last;
      }
    }
  }

  lemma FreshInv(encoding: string, minBytes: nat)
    ensures Inv(Fresh(encoding, minBytes))
  {}

  lemma {:induction false} NoFaultRun(encoding: string, minBytes: nat, ops: seq<Op>)
    requires forall i :: 0 <= i < |ops| ==> NoFault(ops[i]) && !ops[i].Finish?
    ensures !AfterAll(Fresh(encoding, minBytes), ops).failed
  {
    hide After, Inv, NoFault;
    if ops != [] {
      var n := |ops| - 1;
      NoFaultRun(encoding, minBytes, ops[..n]);
      RunKeeps(encoding, minBytes, ops[..n]);
      StepKeeps(AfterAll(Fresh(encoding, minBytes), ops[..n]), ops[n]);
    }
  }

  /**
   Any handler, then finish, with no transport error: the one target chosen got exactly the
   bytes written, in order, and the other target nothing.
   */
  lemma FinishDelivers(encoding: string, minBytes: nat, ops: seq<Op>, env: Env)
    requires forall i :: 0 <= i < |ops| ==> NoFault(ops[i]) && !ops[i].Finish?
    requires Faultless(env)
    ensures var s := After(AfterAll(Fresh(encoding, minBytes), ops), Finish(env));
      && s.decided && s.buffer == []
      && (if s.closed then s.encoded == AllOffered(ops) && s.plain == [] && Declared(s)
          else s.plain == AllOffered(ops) && s.encoded == [])
  {
    hide AfterAll, After, Inv, AllOffered, Body, Declared, Fresh;
    NoFaultRun(encoding, minBytes, ops);
    RunKeeps(encoding, minBytes, ops);
    FinishSends(AfterAll(Fresh(encoding, minBytes), ops), env, AllOffered(ops));
  }

  lemma FinishSends(s: Writer, env: Env, offered: Bytes)
    requires Inv(s) && !s.failed && Faultless(env) && Body(s) + s.buffer == offered
    ensures var t := After(s, Finish(env));
      && t.decided && t.buffer == []
      && (if t.closed then t.encoded == offered && t.plain == [] && Declared(t) else t.plain == offered && t.encoded == [])
  {
    hide AfterFinish;
    FinishKeeps(s, env);
  }

  /** Even when writes fail, the client sees a prefix of what was written and nothing else. */
  lemma OnlyPrefixReaches(encoding: string, minBytes: nat, ops: seq<Op>)
    ensures var s := AfterAll(Fresh(encoding, minBytes), ops);
      Body(s) <= AllOffered(ops) && (s.plain == [] || s.encoded == [])
  {
    hide After;
    RunKeeps(encoding, minBytes, ops);
  }

  /** The decision, the committed header and, once broken or closed, the body never change. */
  lemma {:induction false} NeverRevoked(s: Writer, ops: seq<Op>)
    requires Inv(s)
    ensures var t := AfterAll(s, ops);
      && Inv(t) && t.encoding == s.encoding
      && (s.decided ==> t.decided && UsedEncoder(t) == UsedEncoder(s))
      && (s.committed.Some? ==> t.committed == s.committed)
      && (s.failed ==> t.failed && Body(t) == Body(s))
  {
    hide After, Inv, UsedEncoder;
    if ops != [] {
      var n := |ops| - 1;
      NeverRevoked(s, ops[..n]);
      StepKeeps(AfterAll(s, ops[..n]), ops[n]);
    }
  }

  /** After an encoded response is finished nothing more reaches the client, plain or encoded. */
  lemma NothingAfterEncodedFinish(s: Writer, ops: seq<Op>)
    requires Inv(s) && s.closed
    ensures var t := AfterAll(s, ops); t.plain == [] && t.encoded == s.encoded
  {
    hide After;
    NeverRevoked(s, ops);
  }

  /** As long as the handler's own Content-Encoding was `own`, a commit says otherwise exactly for the encoder. */
  predicate Truthful(own: string, s: Writer) {
    if s.committed.None? then s.header.contentEncoding == own && !UsedEncoder(s)
    else s.decided && (UsedEncoder(s) <==> s.committed.value.contentEncoding != own)
  }

  lemma DecideTruthful(own: string, s: Writer, force: bool, size: nat, available: bool)
    requires Inv(s) && s.encoding != "" && Truthful(own, s)
    ensures Truthful(own, Decide(s, force, size, available))
  {
    hide MediaType, Compressible, DeclaredShort;
  }

  lemma FeedTruthful(own: string, s: Writer, data: Bytes, reply: Reply)
    requires Truthful(own, s) && s.decided
    ensures Truthful(own, Feed(s, data, reply)) && Feed(s, data, reply).decided
  {}

  lemma DecideAndDrainTruthful(own: string, s: Writer, env: Env)
    requires Inv(s) && s.encoding != "" && Truthful(own, s)
    ensures Truthful(own, DecideAndDrain(s, env))
  {
    hide Feed, Decide;
    var d := Decide(s, true, |s.buffer|, env.encoderAvailable);
    DecideTruthful(own, s, true, |s.buffer|, env.encoderAvailable);
    DecideKeeps(s, true, |s.buffer|, env.encoderAvailable);
    FeedTruthful(own, d, d.buffer, env.drain);
  }

  lemma WriteTruthful(own: string, s: Writer, data: Bytes, sniffed: string, env: Env)
    requires Inv(s) && s.encoding != "" && Truthful(own, s)
    ensures Truthful(own, AfterWrite(s, data, sniffed, env))
  {
    hide Feed, Decide, Streams;
    if !s.failed {
      var w := s.(written := true);
      if !s.decided {
        DecideTruthful(own, Sniff(w, data, sniffed), false, |s.buffer| + |data|, env.encoderAvailable);
      }
      var d := DecideForWrite(w, data, sniffed, env.encoderAvailable);
      if d.decided {
        FeedTruthful(own, d, d.buffer, env.drain);
        FeedTruthful(own, Drain(d, env.drain), data, env.write);
      }
    }
  }

  /** What the operation that sends the header out puts in it. */
  lemma CommitTells(s: Writer, op: Op)
    requires Inv(s) && s.encoding != "" && s.committed.None? && After(s, op).committed.Some?
    ensures After(s, op).decided
    ensures UsedEncoder(After(s, op)) <==> After(s, op).committed.value.contentEncoding != s.header.contentEncoding
  {
    hide AfterWrite, DecideAndDrain;
    var own := s.header.contentEncoding;
    assert Truthful(own, s);
    match op
    case SetHeader(header) =>
    case WriteHeader(code) =>
    case Write(data, sniffed, env) => WriteTruthful(own, s, data, sniffed, env);
    case WriteHeaderNow(env) =>
      DecideAndDrainTruthful(own, s.(written := true), env);
      DecideAndDrainKeeps(s.(written := true), env);
    case Flush(env) =>
      DecideAndDrainTruthful(own, s.(written := true), env);
      DecideAndDrainKeeps(s.(written := true), env);
    case Finish(env) => DecideAndDrainTruthful(own, s, env);
  }

  /**
   The header says the body is encoded exactly when the encoder is used: whichever operation
   commits the header, and whatever happens afterwards.
   */
  lemma EncodingDeclaredIffUsed(encoding: string, minBytes: nat, ops: seq<Op>, op: Op, later: seq<Op>)
    requires encoding != ""
    requires var s := AfterAll(Fresh(encoding, minBytes), ops); s.committed.None? && After(s, op).committed.Some?
    ensures var s := AfterAll(Fresh(encoding, minBytes), ops);
      var t := AfterAll(After(s, op), later);
      && t.committed == After(s, op).committed
      && (UsedEncoder(t) <==> t.committed.value.contentEncoding != s.header.contentEncoding)
      && (UsedEncoder(t) ==> Declared(t) && t.encoding == encoding)
  {
    hide After, UsedEncoder;
    RunKeeps(encoding, minBytes, ops);
    var s := AfterAll(Fresh(encoding, minBytes), ops);
    CommitTells(s, op);
    StepKeeps(s, op);
    NeverRevoked(After(s, op), later);
  }
}
