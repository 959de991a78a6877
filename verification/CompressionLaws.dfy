/**
 Which responses are compressed: the decision as a condition on what the handler did, its header,
 its status and the bytes it wrote before the first thing that forces a decision.
 */
module CompressionLaws {
  import opened Options
  import opened Decimal
  import opened ResponseCompression

  /** The media type of a header value */

  lemma {:induction false} BeforeStops(s: string, stop: char, rest: string)
    requires stop !in s
    ensures Before(s, stop) == s && Before(s + [stop] + rest, stop) == s
  {
    if s != [] {
      BeforeStops(s[1..], stop, rest);
      assert (s + [stop] + rest)[1..] == s[1..] + [stop] + rest;
    }
  }

  predicate Blank(s: string) {
    forall i | 0 <= i < |s| :: IsSpace(s[i])
  }

  predicate Tight(s: string) {
    s != [] && !IsSpace(s[0]) && !IsSpace(s[|s| - 1])
  }

  lemma {:induction false} TrimKeeps(left: string, s: string, right: string)
    requires Blank(left) && Tight(s) && Blank(right)
    ensures TrimSpace(left + s + right) == s
    decreases |left| + |right|
  {
    var all := left + s + right;
    if left != [] {
      assert all[1..] == left[1..] + s + right;
      TrimKeeps(left[1..], s, right);
    } else if right != [] {
      assert all[0] == s[0] && all[|all| - 1] == right[|right| - 1];
      assert all[..|all| - 1] == left + s + right[..|right| - 1];
      TrimKeeps(left, s, right[..|right| - 1]);
    } else {
      assert all == s;
    }
  }

  /** Parameters, surrounding blanks and letter case do not matter. */
  lemma MediaTypeIgnores(left: string, s: string, right: string, parameters: string)
    requires Blank(left) && Tight(s) && Blank(right) && ';' !in left + s + right
    ensures MediaType(left + s + right) == MediaType(left + s + right + ";" + parameters) == ToLower(s)
    ensures |ToLower(s)| == |s|
    ensures forall i | 0 <= i < |s| :: ToLower(s)[i] == if 'A' <= s[i] <= 'Z' then (s[i] as int + 32) as char else s[i]
  {
    hide Before, TrimSpace;
    BeforeStops(left + s + right, ';', parameters);
    TrimKeeps(left, s, right);
    assert left + s + right + ";" + parameters == (left + s + right) + [';'] + parameters;
  }

  /** The decision */

  /** The operations of a handler once it has set its header: writes, flushes and header commits, none failing. */
  predicate BodyOp(op: Op) {
    (op.Write? || op.Flush? || op.WriteHeaderNow?) && Faultless(op.env) && op.env.encoderAvailable
  }

  predicate Body(ops: seq<Op>) {
    forall i | 0 <= i < |ops| :: BodyOp(ops[i])
  }

  /** The bytes written before the first operation that forces the decision. */
  function FreeBytes(ops: seq<Op>): nat {
    if ops == [] || !ops[0].Write? then 0 else |ops[0].data| + FreeBytes(ops[1..])
  }

  /** The type the response has when the decision is taken; "" if it has none. */
  function TypeAtDecision(contentType: string, ops: seq<Op>): string {
    if contentType == "" && ops != [] && ops[0].Write? && ops[0].data != [] then ops[0].sniffed else contentType
  }

  predicate TextLike(t: string) {
    || "text/" <= t
    || t == "application/json"
    || ("application/" <= t && |t| >= 5 && t[|t| - 5..] == "+json")
    || t == "application/javascript"
    || t == "image/svg+xml"
  }

  predicate LongEnough(h: Header, minBytes: nat) {
    var length := Atoi(h.contentLength);
    length.None? || length.value < 0 || length.value >= minBytes
  }

  /** What is compressed: a status with a body, no encoding yet, a text-like type, and enough bytes unless it is an event stream. */
  predicate Compresses(status: int, h: Header, contentType: string, minBytes: nat, bytes: nat) {
    var t := MediaType(contentType);
    && status >= 200 && status != 204 && status != 206 && status != 304
    && h.contentEncoding == ""
    && TextLike(t)
    && (t == "text/event-stream" || (LongEnough(h, minBytes) && bytes >= minBytes))
  }

  lemma {:induction false} AfterAllFirst(s: Writer, op: Op, ops: seq<Op>)
    ensures AfterAll(s, [op] + ops) == AfterAll(After(s, op), ops)
    decreases |ops|
  {
    hide After;
    if ops == [] {
      assert [op] + ops == [op] && [op][..0] == [];
      assert AfterAll(s, [op]) == After(AfterAll(s, [op][..0]), op);
    } else {
      var n := |ops| - 1;
      AfterAllFirst(s, op, ops[..n]);
      assert ([op] + ops)[..n + 1] == [op] + ops[..n];
    }
  }

  /** Not decided yet and nothing sent. */
  predicate Open(s: Writer) {
    Inv(s) && !s.decided
  }

  lemma TypesAgree(t: string)
    ensures Compressible(t) <==> TextLike(t)
  {
    assert |"+json"| == 5;
  }

  /** What one decision comes to. */
  lemma ChoiceIs(s: Writer, force: bool, size: nat)
    requires Open(s)
    ensures var stream := MediaType(s.header.contentType) == "text/event-stream";
      var eligible := Compresses(s.status, s.header, s.header.contentType, s.minBytes, s.minBytes);
      Choose(s, force, size, true) ==
        if !eligible then Identity else if stream || size >= s.minBytes then Encode else if force then Identity else Wait
  {
    hide MediaType, Atoi;
    TypesAgree(MediaType(s.header.contentType));
  }

  lemma DecidedUse(s: Writer, force: bool, size: nat)
    requires Open(s)
    ensures var d := Decide(s, force, size, true);
      && (d.decided <==> Choose(s, force, size, true) != Wait)
      && (UsedEncoder(d) <==> Choose(s, force, size, true) == Encode)
  {
    hide Choose;
  }

  lemma DrainUse(d: Writer, reply: Reply)
    ensures UsedEncoder(Drain(d, reply)) == UsedEncoder(d) && Drain(d, reply).decided == d.decided
  {}

  /** A forcing operation: the decision is taken on what is buffered. */
  lemma ForcedUse(s: Writer, op: Op)
    requires Open(s) && ((op.Flush? || op.WriteHeaderNow? || op.Finish?) && Faultless(op.env) && op.env.encoderAvailable)
    ensures After(s, op).decided
    ensures UsedEncoder(After(s, op)) <==> Compresses(s.status, s.header, s.header.contentType, s.minBytes, |s.buffer|)
  {
    hide Choose, MediaType, Atoi, Decide, Drain;
    var w := if op.Finish? then s else s.(written := true);
    ChoiceIs(w, true, |w.buffer|);
    DecidedUse(w, true, |w.buffer|);
    DecideKeeps(w, true, |w.buffer|, true);
    var d := Decide(w, true, |w.buffer|, true);
    DrainKeeps(d, op.env.drain);
    hide Streams, InvBeforeDrain;
    DrainUse(d, op.env.drain);
  }

  lemma UndecidedSame(s: Writer, size: nat)
    ensures !Decide(s, false, size, true).decided ==> Decide(s, false, size, true) == s
  {}

  lemma FeedUse(d: Writer, data: Bytes, reply: Reply)
    ensures UsedEncoder(Feed(d, data, reply)) == UsedEncoder(d) && Feed(d, data, reply).decided == d.decided
  {}

  /** A write: the decision is taken if it can be, else the bytes are kept. */
  lemma WriteUse(s: Writer, op: Op)
    requires Open(s) && op.Write? && BodyOp(op) && s.header.contentType == TypeAtDecision(s.header.contentType, [op])
    ensures var s', size := After(s, op), |s.buffer| + |op.data|;
      var eligible := Compresses(s.status, s.header, s.header.contentType, s.minBytes, s.minBytes);
      if s'.decided then UsedEncoder(s') == Compresses(s.status, s.header, s.header.contentType, s.minBytes, size)
      else
        && eligible && size < s.minBytes && MediaType(s.header.contentType) != "text/event-stream"
        && Open(s') && s'.header == s.header && s'.status == s.status && s'.minBytes == s.minBytes && |s'.buffer| == size
  {
    hide Choose, MediaType, Atoi, Decide, Drain, Feed;
    var w, size := s.(written := true), |s.buffer| + |op.data|;
    assert Sniff(w, op.data, op.sniffed) == w;
    ChoiceIs(w, false, size);
    DecidedUse(w, false, size);
    DecideKeeps(w, false, size, true);
    UndecidedSame(w, size);
    var d := Decide(w, false, size, true);
    StepKeeps(s, op);
    if d.decided {
      DrainUse(d, op.env.drain);
      FeedUse(Drain(d, op.env.drain), op.data, op.env.write);
    }
  }

  lemma FinishKeepsUse(s: Writer, env: Env)
    requires Inv(s)
    ensures s.decided ==> UsedEncoder(After(s, Finish(env))) == UsedEncoder(s)
    ensures After(s, Finish(env)).closed == UsedEncoder(After(s, Finish(env)))
  {
    hide AfterFinish, Streams;
    FinishKeeps(s, env);
    if s.decided {
      StepKeeps(s, Finish(env));
      StreamsKeepUse(s, Offered(Finish(env)), After(s, Finish(env)));
    }
  }

  lemma StreamsKeepUse(s: Writer, offered: Bytes, s': Writer)
    requires Streams(s, offered, s') && s.decided
    ensures UsedEncoder(s') == UsedEncoder(s)
  {}

  /** From a state with a type, not decided yet. */
  lemma {:induction false} UseIs(s: Writer, ops: seq<Op>, env: Env)
    requires Open(s) && s.header.contentType != "" && Body(ops) && Faultless(env) && env.encoderAvailable
    ensures After(AfterAll(s, ops), Finish(env)).closed <==>
      Compresses(s.status, s.header, s.header.contentType, s.minBytes, |s.buffer| + FreeBytes(ops))
    decreases |ops|
  {
    hide After, Choose, MediaType, Atoi, Inv, UsedEncoder;
    if ops == [] {
      ForcedUse(s, Finish(env));
      FinishKeepsUse(s, env);
    } else {
      var op, rest := ops[0], ops[1..];
      assert ops == [op] + rest;
      AfterAllFirst(s, op, rest);
      var s' := After(s, op);
      StepKeeps(s, op);
      NeverRevoked(s', rest);
      FinishKeepsUse(AfterAll(s', rest), env);
      if op.Write? {
        WriteUse(s, op);
        if s'.decided {
          MoreBytes(s, |s.buffer| + |op.data|, |s.buffer| + FreeBytes(ops));
          EnoughOrDecided(s, op);
        } else {
          UseIs(s', rest, env);
        }
      } else {
        ForcedUse(s, op);
      }
    }
  }

  /** A write that is decided without the encoder is decided so whatever is written later. */
  lemma EnoughOrDecided(s: Writer, op: Op)
    requires Open(s) && op.Write? && BodyOp(op) && s.header.contentType != "" && After(s, op).decided
    ensures var size := |s.buffer| + |op.data|;
      Compresses(s.status, s.header, s.header.contentType, s.minBytes, size) <==> Compresses(s.status, s.header, s.header.contentType, s.minBytes, s.minBytes)
  {
    hide Choose, MediaType, Atoi, Decide, Drain, Feed;
    var w, size := s.(written := true), |s.buffer| + |op.data|;
    assert Sniff(w, op.data, op.sniffed) == w;
    ChoiceIs(w, false, size);
    DecidedUse(w, false, size);
    UndecidedSame(w, size);
  }

  lemma MoreBytes(s: Writer, size: nat, more: nat)
    requires size <= more
    ensures Compresses(s.status, s.header, s.header.contentType, s.minBytes, size) ==> Compresses(s.status, s.header, s.header.contentType, s.minBytes, more)
    ensures Compresses(s.status, s.header, s.header.contentType, s.minBytes, more) ==> Compresses(s.status, s.header, s.header.contentType, s.minBytes, s.minBytes)
  {
    hide MediaType, Atoi;
  }

  /** Without a type, the first operation decides against the encoder unless it is a write that gives one. */
  lemma UntypedUse(s: Writer, op: Op)
    requires Open(s) && s.header.contentType == "" && (BodyOp(op) || (op.Finish? && Faultless(op.env) && op.env.encoderAvailable))
    requires op.Write? ==> op.data == [] || op.sniffed == ""
    ensures After(s, op).decided && !UsedEncoder(After(s, op))
  {
    hide Choose, Atoi, Decide, Drain, Feed;
    NoType();
    if op.Write? {
      var w := s.(written := true);
      assert Sniff(w, op.data, op.sniffed) == w;
      ChoiceIs(w, false, |s.buffer| + |op.data|);
      DecidedUse(w, false, |s.buffer| + |op.data|);
      var d := Decide(w, false, |s.buffer| + |op.data|, true);
      DrainUse(d, op.env.drain);
      FeedUse(Drain(d, op.env.drain), op.data, op.env.write);
    } else {
      ForcedUse(s, op);
    }
  }

  lemma NoType()
    ensures MediaType("") == "" && !TextLike(MediaType(""))
  {
    assert Before("", ';') == "" && TrimSpace("") == "";
  }

  /** A first write that gives the type is as good as a header that had it. */
  lemma SniffedFirst(s: Writer, op: Op)
    requires op.Write? && op.data != [] && s.header.contentType == "" && Open(s)
    ensures After(s, op) == After(s.(header := s.header.(contentType := op.sniffed)), op)
  {
    hide Decide, Drain, Feed;
  }

  lemma TypedOpen(s: Writer, contentType: string)
    requires Open(s)
    ensures Open(s.(header := s.header.(contentType := contentType)))
  {}

  lemma UntypedCase(s: Writer, ops: seq<Op>, env: Env)
    requires Open(s) && s.header.contentType == "" && Body(ops) && Faultless(env) && env.encoderAvailable
    requires ops != [] && ops[0].Write? ==> ops[0].data == [] || ops[0].sniffed == ""
    ensures !After(AfterAll(s, ops), Finish(env)).closed
  {
    hide After, Inv, UsedEncoder;
    if ops == [] {
      UntypedUse(s, Finish(env));
      FinishKeepsUse(s, env);
    } else {
      assert ops == [ops[0]] + ops[1..];
      AfterAllFirst(s, ops[0], ops[1..]);
      UntypedUse(s, ops[0]);
      StepKeeps(s, ops[0]);
      NeverRevoked(After(s, ops[0]), ops[1..]);
      FinishKeepsUse(AfterAll(After(s, ops[0]), ops[1..]), env);
    }
  }

  /** From any state that is not decided yet. */
  lemma AnyUse(s: Writer, ops: seq<Op>, env: Env)
    requires Open(s) && Body(ops) && Faultless(env) && env.encoderAvailable
    ensures After(AfterAll(s, ops), Finish(env)).closed <==>
      Compresses(s.status, s.header, TypeAtDecision(s.header.contentType, ops), s.minBytes, |s.buffer| + FreeBytes(ops))
  {
    hide After, MediaType, Atoi, Open, Compresses;
    if s.header.contentType != "" {
      UseIs(s, ops, env);
    } else if ops != [] && ops[0].Write? && ops[0].data != [] && ops[0].sniffed != "" {
      var typed := s.(header := s.header.(contentType := ops[0].sniffed));
      assert ops == [ops[0]] + ops[1..];
      SniffedFirst(s, ops[0]);
      AfterAllFirst(s, ops[0], ops[1..]);
      AfterAllFirst(typed, ops[0], ops[1..]);
      TypedOpen(s, ops[0].sniffed);
      UseIs(typed, ops, env);
      OtherType(s.status, s.header, typed.header, ops[0].sniffed, s.minBytes, |s.buffer| + FreeBytes(ops));
    } else {
      NotCompressed(s.status, s.header, s.minBytes, |s.buffer| + FreeBytes(ops));
      UntypedCase(s, ops, env);
    }
  }

  lemma OtherType(status: int, h: Header, h': Header, contentType: string, minBytes: nat, bytes: nat)
    requires h' == h.(contentType := contentType)
    ensures Compresses(status, h, contentType, minBytes, bytes) == Compresses(status, h', contentType, minBytes, bytes)
  {}

  lemma NotCompressed(status: int, h: Header, minBytes: nat, bytes: nat)
    ensures !Compresses(status, h, "", minBytes, bytes)
  {
    NoType();
  }

  /** The writer once the handler has set its header and status. */
  function Prepared(encoding: string, minBytes: nat, h: Header, code: int): Writer {
    After(After(Fresh(encoding, minBytes), SetHeader(h)), WriteHeader(code))
  }

  lemma PreparedIs(encoding: string, minBytes: nat, h: Header, code: int)
    ensures var s := Prepared(encoding, minBytes, h, code);
      Open(s) && s.header == h && s.minBytes == minBytes && s.buffer == [] && s.status == if code <= 0 then 200 else code
  {}

  /**
   A handler sets header and status, writes, flushes, and finishes, with nothing failing and an
   encoder at hand: the response is compressed if and only if its status allows a body, it has no
   encoding yet, its type is text-like, and it is an event stream or, by its declared length and by
   the bytes written before a decision is forced, at least the minimum.
   */
  lemma CompressedIff(encoding: string, minBytes: nat, h: Header, code: int, ops: seq<Op>, env: Env)
    requires Body(ops) && Faultless(env) && env.encoderAvailable
    ensures var s := After(AfterAll(Prepared(encoding, minBytes, h, code), ops), Finish(env));
      var t := MediaType(TypeAtDecision(h.contentType, ops));
      var length := Atoi(h.contentLength);
      s.closed <==>
        && (code <= 0 || (code >= 200 && code != 204 && code != 206 && code != 304))
        && h.contentEncoding == ""
        && ("text/" <= t || t == "application/json" || ("application/" <= t && |t| >= 5 && t[|t| - 5..] == "+json")
            || t == "application/javascript" || t == "image/svg+xml")
        && (t == "text/event-stream"
            || ((length.None? || length.value < 0 || length.value >= minBytes) && FreeBytes(ops) >= minBytes))
  {
    hide After, MediaType, Atoi, Prepared, Open, TypeAtDecision;
    PreparedIs(encoding, minBytes, h, code);
    AnyUse(Prepared(encoding, minBytes, h, code), ops, env);
  }

  /** What the parts of an operation leave alone */

  lemma DecideParts(s: Writer, force: bool, size: nat, available: bool)
    ensures var d := Decide(s, force, size, available);
      && d.size == s.size && d.status == s.status && d.written == s.written && d.failed == s.failed && d.buffer == s.buffer
      && (!available && !UsedEncoder(s) ==> !UsedEncoder(d))
  {
    hide Ineligible, DeclaredShort, MediaType;
  }

  lemma DrainParts(d: Writer, reply: Reply)
    ensures var e := Drain(d, reply);
      && e.size == d.size && e.status == d.status && e.written == d.written && UsedEncoder(e) == UsedEncoder(d)
      && (!reply.failed ==> e.failed == d.failed)
  {}

  lemma FeedParts(d: Writer, data: Bytes, reply: Reply)
    ensures var e := Feed(d, data, reply);
      && e.size == d.size && e.status == d.status && e.written == d.written && UsedEncoder(e) == UsedEncoder(d) && e.failed == reply.failed
  {}

  lemma NeverEncodes(s: Writer, op: Op)
    requires !UsedEncoder(s) && (!op.SetHeader? && !op.WriteHeader? ==> !op.env.encoderAvailable)
    ensures !UsedEncoder(After(s, op))
  {
    hide Decide, Drain, Feed, Choose;
    match op
    case SetHeader(_) =>
    case WriteHeader(_) =>
    case Write(data, sniffed, env) =>
      var w := s.(written := true);
      DecideParts(Sniff(w, data, sniffed), false, |s.buffer| + |data|, false);
      var d := DecideForWrite(w, data, sniffed, false);
      DrainParts(d, env.drain);
      FeedParts(Drain(d, env.drain), data, env.write);
    case WriteHeaderNow(env) =>
      DecideParts(s.(written := true), true, |s.buffer|, false);
      DrainParts(Decide(s.(written := true), true, |s.buffer|, false), env.drain);
    case Flush(env) =>
      DecideParts(s.(written := true), true, |s.buffer|, false);
      DrainParts(Decide(s.(written := true), true, |s.buffer|, false), env.drain);
    case Finish(env) =>
      DecideParts(s, true, |s.buffer|, false);
      DrainParts(Decide(s, true, |s.buffer|, false), env.drain);
  }

  /** Without an encoder at hand nothing is ever compressed. */
  lemma {:induction false} NoEncoderNoCompression(encoding: string, minBytes: nat, ops: seq<Op>)
    requires forall i | 0 <= i < |ops| && !ops[i].SetHeader? && !ops[i].WriteHeader? :: !ops[i].env.encoderAvailable
    ensures !UsedEncoder(AfterAll(Fresh(encoding, minBytes), ops))
  {
    hide After;
    if ops != [] {
      var n := |ops| - 1;
      NoEncoderNoCompression(encoding, minBytes, ops[..n]);
      NeverEncodes(AfterAll(Fresh(encoding, minBytes), ops[..n]), ops[n]);
    }
  }

  lemma WriteParts(s: Writer, op: Op)
    requires op.Write? && !s.failed
    ensures After(s, op).status == s.status && After(s, op).written
    ensures NoFault(op) ==> After(s, op).size == s.size + |op.data|
  {
    hide Decide, Drain, Feed, Choose;
    var w := s.(written := true);
    var d := DecideForWrite(w, op.data, op.sniffed, op.env.encoderAvailable);
    DecideParts(Sniff(w, op.data, op.sniffed), false, |s.buffer| + |op.data|, op.env.encoderAvailable);
    DrainParts(d, op.env.drain);
    FeedParts(Drain(d, op.env.drain), op.data, op.env.write);
  }

  /** The first write or commit fixes the status; until then the last positive one counts. */
  lemma StatusIsFixed(s: Writer, op: Op, code: int)
    requires Inv(s) && !s.failed && (op.Write? || op.Flush? || op.WriteHeaderNow?)
    ensures After(After(s, op), WriteHeader(code)) == After(s, op)
    ensures After(s, op).status == s.status
    ensures !s.written && s.committed.None? && code > 0 ==> After(s, WriteHeader(code)).status == code
  {
    hide Decide, Drain, Feed, Choose;
    var w := s.(written := true);
    if op.Write? {
      WriteParts(s, op);
    } else {
      DecideParts(w, true, |w.buffer|, op.env.encoderAvailable);
      DrainParts(Decide(w, true, |w.buffer|, op.env.encoderAvailable), op.env.drain);
    }
  }

  lemma SizeGrows(s: Writer, op: Op)
    requires !s.failed && NoFault(op)
    ensures After(s, op).size == s.size + |Offered(op)|
  {
    hide Decide, Drain, Feed, Choose;
    if op.Write? {
      hide After;
      WriteParts(s, op);
    } else if op.Flush? || op.WriteHeaderNow? {
      var w := s.(written := true);
      DecideParts(w, true, |w.buffer|, op.env.encoderAvailable);
      DrainParts(Decide(w, true, |w.buffer|, op.env.encoderAvailable), op.env.drain);
    } else if op.Finish? {
      DecideParts(s, true, |s.buffer|, op.env.encoderAvailable);
      DrainParts(Decide(s, true, |s.buffer|, op.env.encoderAvailable), op.env.drain);
    }
  }

  /** Without a transport error the reported size is the number of bytes written. */
  lemma {:induction false} SizeCounts(encoding: string, minBytes: nat, ops: seq<Op>)
    requires forall i | 0 <= i < |ops| :: NoFault(ops[i]) && !ops[i].Finish?
    ensures AfterAll(Fresh(encoding, minBytes), ops).size == |AllOffered(ops)|
  {
    hide After;
    if ops != [] {
      var n := |ops| - 1;
      SizeCounts(encoding, minBytes, ops[..n]);
      NoFaultRun(encoding, minBytes, ops[..n]);
      RunKeeps(encoding, minBytes, ops[..n]);
      SizeGrows(AfterAll(Fresh(encoding, minBytes), ops[..n]), ops[n]);
    }
  }
}
