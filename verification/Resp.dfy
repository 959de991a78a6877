/**
 The reader and writer of the Redis serialization protocol: arrays and bulk strings.  A character
 stands for one byte.  The buffered reader is the unread input plus the sizes of the fragments in
 which it hands out a line; nothing may depend on those sizes.
 */
module Resp {
  import opened Options
  import opened Decimal

  const MAX_ARRAY: nat := 1024
  const MAX_BULK: nat := 0x1_0000
  const MAX_FRAME: nat := 0x1_0000
  const MAX_LINE: nat := 0x1_0000

  datatype Failure = Protocol | TooLarge | Ended

  datatype Result<T> = Ok(value: T, rest: string) | Err(error: Failure)

  /** Whole-input meaning of the readers */

  function IndexOf(s: string, c: char): (i: nat)
    ensures i <= |s| && (i < |s| ==> s[i] == c) && forall j :: 0 <= j < i ==> s[j] != c
  {
    if s == [] || s[0] == c then 0 else 1 + IndexOf(s[1..], c)
  }

  function StripCR(s: string): string {
    if s != [] && s[|s| - 1] == '\r' then s[..|s| - 1] else s
  }

  function ParseLine(input: string): Result<string> {
    var i := IndexOf(input, '\n');
    if i == |input| then Err(if |input| > MAX_LINE + 2 then Protocol else Ended)
    else if |StripCR(input[..i])| > MAX_LINE then Err(Protocol)
    else Ok(StripCR(input[..i]), input[i + 1..])
  }

  /** `budget` is None when the caller sets no byte budget. */
  predicate Over(n: int, budget: Option<nat>) {
    budget.Some? && n > budget.value
  }

  function ParseBulk(input: string, budget: Option<nat>): Result<string> {
    match ParseLine(input)
    case Err(e) => Err(e)
    case Ok(line, rest) =>
      match Atoi(line)
      case None => Err(Protocol)
      case Some(length) =>
        if length < -1 then Err(Protocol)
        else if length < 0 then Ok("", rest)
        else if length > MAX_BULK || Over(length, budget) then Err(TooLarge)
        else if |rest| < length + 2 then Err(Ended)
        else if rest[length..length + 2] != "\r\n" then Err(Protocol)
        else Ok(rest[..length], rest[length + 2..])
  }

  function ParseString(input: string, budget: Option<nat>): Result<string> {
    if input == [] then Err(Ended)
    else if input[0] == '$' then ParseBulk(input[1..], budget)
    else if input[0] == '+' || input[0] == ':' then
      match ParseLine(input[1..])
      case Err(e) => Err(e)
      case Ok(line, rest) => if Over(|line|, budget) then Err(Protocol) else Ok(line, rest)
    else Err(Protocol)
  }

  function ParseArgs(input: string, count: nat, budget: nat): Result<seq<string>>
    decreases count
  {
    if count == 0 then Ok([], input) else
      match ParseString(input, Some(budget))
      case Err(e) => Err(e)
      case Ok(value, rest) =>
        assert |value| <= budget by {
          ParseStringWithin(input, budget);
        }
        match ParseArgs(rest, count - 1, budget - |value|)
        case Err(e) => Err(e)
        case Ok(values, left) => Ok([value] + values, left)
  }

  function ParseArray(input: string): Result<seq<string>> {
    if input == [] then Err(Ended)
    else if input[0] != '*' then Err(Protocol)
    else
      match ParseLine(input[1..])
      case Err(e) => Err(e)
      case Ok(line, rest) =>
        match Atoi(line)
        case None => Err(Protocol)
        case Some(count) => if count < 0 || count > MAX_ARRAY then Err(Protocol) else ParseArgs(rest, count, MAX_FRAME)
  }

  lemma ParseStringWithin(input: string, budget: nat)
    ensures var r := ParseString(input, Some(budget)); r.Ok? ==> |r.value| <= budget
  {
    hide Atoi, ParseLine;
  }

  /** The buffered reader */

  datatype Slice = Found | Full | Eof

  class Reader {
    var rest: string

    constructor (input: string)
      ensures rest == input
    {
      rest := input;
    }

    method ReadByte() returns (b: Option<char>)
      modifies this
      ensures b == if old(rest) == [] then None else Some(old(rest)[0])
      ensures rest == if old(rest) == [] then [] else old(rest)[1..]
    {
      if |rest| == 0 {
        return None;
      }
      b := Some(rest[0]);
      rest := rest[1..];
    }

    /** Everything up to a newline, or a fragment of `capacity` bytes when the newline is further away. */
    method ReadSlice(capacity: nat) returns (fragment: string, status: Slice)
      modifies this
      ensures old(rest) == fragment + rest
      ensures status.Found? ==> |fragment| > 0 && |fragment| - 1 == IndexOf(old(rest), '\n')
      ensures !status.Found? ==> IndexOf(old(rest), '\n') >= |fragment|
      ensures status.Full? ==> |fragment| == capacity
      ensures status.Eof? ==> rest == []
    {
      var i := IndexOf(rest, '\n');
      var n := i + 1;
      if i < |rest| && i < capacity {
        status := Found;
      } else if |rest| < capacity {
        n, status := |rest|, Eof;
      } else {
        n, status := capacity, Full;
      }
      fragment := rest[..n];
      rest := rest[n..];
    }

    method ReadFull(n: nat) returns (data: Option<string>)
      modifies this
      ensures data == if |old(rest)| < n then None else Some(old(rest)[..n])
      ensures data.Some? ==> rest == old(rest)[n..]
    {
      if |rest| < n {
        rest := [];
        return None;
      }
      data := Some(rest[..n]);
      rest := rest[n..];
    }
  }

  /** `r` is what `parsed` says, and after success exactly the rest is still unread. */
  ghost predicate Reads<T>(parsed: Result<T>, r: Outcome<T>, rest: string) {
    match parsed
    case Err(e) => r == Failed(e)
    case Ok(value, left) => r == Read(value) && rest == left
  }

  datatype Outcome<T> = Read(value: T) | Failed(error: Failure)

  lemma {:induction false} IndexOfSplit(a: string, b: string, c: char)
    ensures IndexOf(a + b, c) == if IndexOf(a, c) < |a| then IndexOf(a, c) else |a| + IndexOf(b, c)
  {
    if a == [] {
      assert a + b == b;
    } else if a[0] != c {
      IndexOfSplit(a[1..], b, c);
      assert (a + b)[1..] == a[1..] + b;
    }
  }

  /** The newline that ends `fragment` ends the line. */
  lemma LineEnds(input: string, buf: string, fragment: string, rest: string)
    requires input == buf + (fragment + rest)
    requires IndexOf(buf, '\n') == |buf|
    requires |fragment| > 0 && IndexOf(fragment + rest, '\n') == |fragment| - 1
    ensures var line := StripCR((buf + fragment)[..|buf + fragment| - 1]);
      && ParseLine(input) == (if |line| > MAX_LINE then Err(Protocol) else Ok(line, rest))
      && (|buf + fragment| > MAX_LINE + 2 ==> |line| > MAX_LINE)
  {
    IndexOfSplit(buf, fragment + rest, '\n');
    var n := |buf + fragment|;
    assert input[..n - 1] == (buf + fragment)[..n - 1];
    assert input[n..] == rest;
  }

  /** Without a newline in `fragment` the line goes on. */
  lemma LineGoesOn(input: string, buf: string, fragment: string, rest: string)
    requires input == buf + (fragment + rest)
    requires IndexOf(buf, '\n') == |buf|
    requires IndexOf(fragment + rest, '\n') >= |fragment|
    ensures IndexOf(buf + fragment, '\n') == |buf + fragment|
    ensures input == buf + fragment + rest
    ensures |buf + fragment| > MAX_LINE + 2 ==> ParseLine(input) == Err(Protocol)
    ensures |buf + fragment| <= MAX_LINE + 2 && rest == [] ==> ParseLine(input) == Err(Ended)
  {
    hide IndexOf, StripCR, ParseLine;
    IndexOfSplit(fragment, rest, '\n');
    IndexOfSplit(buf, fragment, '\n');
    assert input == (buf + fragment) + rest;
    IndexOfSplit(buf + fragment, rest, '\n');
    LongLine(input, |buf + fragment|);
    if rest == [] {
      assert input == buf + fragment;
    }
  }

  lemma LongLine(input: string, n: nat)
    requires n <= IndexOf(input, '\n')
    ensures n > MAX_LINE + 2 ==> ParseLine(input) == Err(Protocol)
    ensures n == |input| <= MAX_LINE + 2 ==> ParseLine(input) == Err(Ended)
  {
    hide IndexOf;
  }

  /** The line read does not depend on `capacity`, the sizes of the fragments it arrives in. */
  method ReadLine(reader: Reader, capacity: nat -> nat) returns (r: Outcome<string>)
    requires forall i: nat :: capacity(i) > 0
    modifies reader
    ensures Reads(ParseLine(old(reader.rest)), r, reader.rest)
  {
    hide IndexOf, StripCR, ParseLine;
    var buf: string := [];
    var round := 0;
    ghost var input := reader.rest;
    assert input == buf + input;
    while true
      invariant input == buf + reader.rest
      invariant IndexOf(buf, '\n') == |buf|
      decreases |reader.rest|
    {
      var fragment, status := reader.ReadSlice(capacity(round));
      if status.Found? {
        LineEnds(input, buf, fragment, reader.rest);
      } else {
        LineGoesOn(input, buf, fragment, reader.rest);
      }
      buf := buf + fragment;
      if |buf| > MAX_LINE + 2 {
        return Failed(Protocol);
      }
      if status.Found? {
        var line := StripCR(buf[..|buf| - 1]);
        if |line| > MAX_LINE {
          return Failed(Protocol);
        }
        return Read(line);
      }
      if status.Eof? {
        return Failed(Ended);
      }
      round := round + 1;
    }
  }

  method ReadBulkString(reader: Reader, budget: Option<nat>, capacity: nat -> nat) returns (r: Outcome<string>)
    requires forall i: nat :: capacity(i) > 0
    modifies reader
    ensures Reads(ParseBulk(old(reader.rest), budget), r, reader.rest)
  {
    hide ParseLine, Atoi;
    var line := ReadLine(reader, capacity);
    if line.Failed? {
      return line;
    }
    ghost var start := reader.rest;
    var length := Atoi(line.value);
    if length.None? || length.value < -1 {
      return Failed(Protocol);
    }
    if length.value < 0 {
      return Read("");
    }
    if length.value > MAX_BULK || Over(length.value, budget) {
      return Failed(TooLarge);
    }
    var buf := reader.ReadFull(length.value + 2);
    if buf.None? {
      return Failed(Ended);
    }
    var n := length.value;
    assert start[n..n + 2] == [buf.value[n], buf.value[n + 1]];
    if buf.value[n] != '\r' || buf.value[n + 1] != '\n' {
      return Failed(Protocol);
    }
    assert start[..n] == buf.value[..n];
    return Read(buf.value[..n]);
  }

  method ReadString(reader: Reader, budget: Option<nat>, capacity: nat -> nat) returns (r: Outcome<string>)
    requires forall i: nat :: capacity(i) > 0
    modifies reader
    ensures Reads(ParseString(old(reader.rest), budget), r, reader.rest)
  {
    hide ParseLine, ParseBulk;
    var prefix := reader.ReadByte();
    if prefix.None? {
      return Failed(Ended);
    }
    if prefix.value == '$' {
      r := ReadBulkString(reader, budget, capacity);
    } else if prefix.value == '+' || prefix.value == ':' {
      r := ReadLine(reader, capacity);
      if r.Read? && Over(|r.value|, budget) {
        return Failed(Protocol);
      }
    } else {
      return Failed(Protocol);
    }
  }

  method ReadArray(reader: Reader, capacity: nat -> nat) returns (r: Outcome<seq<string>>)
    requires forall i: nat :: capacity(i) > 0
    modifies reader
    ensures Reads(ParseArray(old(reader.rest)), r, reader.rest)
  {
    hide ParseLine, Atoi, ParseString;
    var prefix := reader.ReadByte();
    if prefix.None? {
      return Failed(Ended);
    }
    if prefix.value != '*' {
      return Failed(Protocol);
    }
    var line := ReadLine(reader, capacity);
    if line.Failed? {
      return Failed(line.error);
    }
    var count := Atoi(line.value);
    if count.None? || count.value < 0 || count.value > MAX_ARRAY {
      return Failed(Protocol);
    }
    ghost var start := reader.rest;
    var args: seq<string> := [];
    var remaining: nat := MAX_FRAME;
    assert forall rs: seq<string> :: [] + rs == rs;
    while |args| < count.value
      invariant |args| <= count.value && remaining <= MAX_FRAME
      invariant ParseArgs(start, count.value, MAX_FRAME) == Prepend(args, ParseArgs(reader.rest, count.value - |args|, remaining))
      decreases count.value - |args|
    {
      ParseStringWithin(reader.rest, remaining);
      PrependOne(args, reader.rest, count.value - |args|, remaining);
      var value := ReadString(reader, Some(remaining), capacity);
      if value.Failed? {
        return Failed(value.error);
      }
      args := args + [value.value];
      remaining := remaining - |value.value|;
    }
    assert args + [] == args;
    return Read(args);
  }

  function Prepend(args: seq<string>, r: Result<seq<string>>): Result<seq<string>> {
    match r
    case Err(e) => Err(e)
    case Ok(values, rest) => Ok(args + values, rest)
  }

  /** One turn of the argument loop. */
  lemma PrependOne(args: seq<string>, input: string, count: nat, budget: nat)
    requires count > 0
    ensures var first := ParseString(input, Some(budget));
      (first.Ok? ==> |first.value| <= budget) &&
      Prepend(args, ParseArgs(input, count, budget)) ==
        if first.Err? then Err(first.error)
        else Prepend(args + [first.value], ParseArgs(first.rest, count - 1, budget - |first.value|))
  {
    hide ParseString;
    ParseStringWithin(input, budget);
    var first := ParseString(input, Some(budget));
    if first.Ok? {
      var more := ParseArgs(first.rest, count - 1, budget - |first.value|);
      if more.Ok? {
        assert args + ([first.value] + more.value) == args + [first.value] + more.value;
      }
    }
  }

  /** The writers */

  function EncodeBulk(payload: Option<string>): string {
    if payload.None? then "$-1\r\n" else "$" + Itoa(|payload.value|) + "\r\n" + payload.value + "\r\n"
  }

  function EncodeBulks(items: seq<Option<string>>): string {
    if items == [] then "" else EncodeBulk(items[0]) + EncodeBulks(items[1..])
  }

  function EncodeArray(items: seq<Option<string>>): string {
    "*" + Itoa(|items|) + "\r\n" + EncodeBulks(items)
  }

  class Writer {
    var written: string

    constructor ()
      ensures written == ""
    {
      written := "";
    }

    method WriteString(s: string)
      modifies this
      ensures written == old(written) + s
    {
      written := written + s;
    }
  }

  method WriteBulkString(writer: Writer?, payload: Option<string>) returns (ok: bool)
    modifies writer
    ensures ok == (writer != null)
    ensures writer != null ==> writer.written == old(writer.written) + EncodeBulk(payload)
  {
    if writer == null {
      return false;
    }
    if payload.None? {
      writer.WriteString("$-1\r\n");
      return true;
    }
    writer.WriteString("$" + Itoa(|payload.value|) + "\r\n");
    writer.WriteString(payload.value);
    writer.WriteString("\r\n");
    assert "$" + Itoa(|payload.value|) + "\r\n" + payload.value + "\r\n" == EncodeBulk(payload);
    return true;
  }

  lemma {:induction false} EncodeBulksPush(items: seq<Option<string>>, item: Option<string>)
    ensures EncodeBulks(items + [item]) == EncodeBulks(items) + EncodeBulk(item)
  {
    hide EncodeBulk;
    if items == [] {
      assert (items + [item])[1..] == [];
    } else {
      EncodeBulksPush(items[1..], item);
      assert (items + [item])[1..] == items[1..] + [item];
    }
  }

  method WriteArray(writer: Writer?, items: seq<Option<string>>) returns (ok: bool)
    modifies writer
    ensures ok == (writer != null)
    ensures writer != null ==> writer.written == old(writer.written) + EncodeArray(items)
  {
    hide EncodeBulk;
    if writer == null {
      return false;
    }
    writer.WriteString("*" + Itoa(|items|) + "\r\n");
    for i := 0 to |items|
      invariant writer.written == old(writer.written) + ("*" + Itoa(|items|) + "\r\n" + EncodeBulks(items[..i]))
    {
      var done := WriteBulkString(writer, items[i]);
      EncodeBulksPush(items[..i], items[i]);
      assert items[..i] + [items[i]] == items[..i + 1];
    }
    assert items[..|items|] == items;
    return true;
  }

  /** Reading what was written */

  function TotalLength(values: seq<string>): nat {
    if values == [] then 0 else |values[0]| + TotalLength(values[1..])
  }

  /** A nil payload reads as the empty string. */
  function Payload(item: Option<string>): string {
    if item.Some? then item.value else ""
  }

  function Payloads(items: seq<Option<string>>): seq<string> {
    if items == [] then [] else [Payload(items[0])] + Payloads(items[1..])
  }

  lemma {:induction false} DigitsShort(n: nat)
    ensures |Digits(n)| <= n / 10 + 1
  {
    if n >= 10 {
      DigitsShort(n / 10);
    }
  }

  lemma Slices(text: string, crlf: string, tail: string)
    requires |crlf| == 2
    ensures (text + crlf + tail)[..|text| + 1] == text + [crlf[0]]
    ensures (text + crlf + tail)[|text| + 2..] == tail
  {}

  lemma TerminatorAt(text: string, crlf: string, tail: string)
    requires IndexOf(text, '\n') == |text| && |crlf| == 2 && crlf[0] != '\n' && crlf[1] == '\n'
    ensures IndexOf(text + crlf + tail, '\n') == |text| + 1
  {
    hide IndexOf;
    assert text + crlf + tail == text + (crlf + tail);
    IndexOfSplit(text, crlf + tail, '\n');
    assert (crlf + tail)[0] == crlf[0] && (crlf + tail)[1] == crlf[1];
  }

  /** A text without newlines and its terminator. */
  lemma LineOf(text: string, tail: string)
    requires IndexOf(text, '\n') == |text|
    ensures ParseLine(text + "\r\n" + tail) == if |text| > MAX_LINE then Err(Protocol) else Ok(text, tail)
  {
    hide IndexOf;
    var crlf := "\r\n";
    TerminatorAt(text, crlf, tail);
    Slices(text, crlf, tail);
    assert StripCR(text + [crlf[0]]) == text;
  }

  lemma RegroupArray(prefix: string, number: string, crlf: string, bulks: string, tail: string)
    requires |prefix| == 1
    ensures (prefix + number + crlf + bulks + tail)[1..] == number + crlf + (bulks + tail)
  {}

  lemma {:induction false} NoNewline(text: string)
    requires '\n' !in text
    ensures IndexOf(text, '\n') == |text|
  {
    if text != [] {
      NoNewline(text[1..]);
    }
  }

  /** A simple string or integer is its line, and what follows is left, unless it exceeds the budget or the line limit. */
  lemma SimpleStringReads(prefix: char, text: string, tail: string, budget: Option<nat>)
    requires (prefix == '+' || prefix == ':') && '\n' !in text
    ensures ParseString([prefix] + text + "\r\n" + tail, budget) ==
      if |text| > MAX_LINE || (budget.Some? && |text| > budget.value) then Err(Protocol) else Ok(text, tail)
  {
    hide ParseLine, ParseBulk;
    NoNewline(text);
    LineOf(text, tail);
    RegroupArray([prefix], text, "\r\n", "", tail);
    assert [prefix] + text + "\r\n" + "" + tail == [prefix] + text + "\r\n" + tail;
    assert "" + tail == tail;
  }

  /** A number on a line of its own, as a length or a count, comes back unless it is out of range. */
  lemma NumberLine(n: nat, tail: string)
    ensures var r := ParseLine(Itoa(n) + "\r\n" + tail);
      && (n <= MAX_LINE ==> r.Ok?)
      && (r.Err? ==> r.error == Protocol)
      && (r.Ok? ==> r.rest == tail && Atoi(r.value) == if n <= MAX_INT then Some(n) else None)
  {
    hide ParseLine, IndexOf;
    DigitsShort(n);
    var s := Digits(n);
    assert forall i | 0 <= i < |s| :: IsDigit(s[i]);
    LineOf(s, tail);
    ValueOfDigits(n);
  }

  lemma {:induction false} DigitsAreNoNewline(n: nat)
    ensures '\n' !in Digits(n)
  {
    assert forall i | 0 <= i < |Digits(n)| :: IsDigit(Digits(n)[i]);
  }

  /** A number of 64 bits on a line of its own. */
  lemma IntLine(n: int, tail: string)
    requires MIN_INT <= n <= MAX_INT
    ensures var r := ParseLine(Itoa(n) + "\r\n" + tail); if |Itoa(n)| <= MAX_LINE then r == Ok(Itoa(n), tail) && Atoi(r.value) == Some(n) else r.Err?
  {
    hide ParseLine, IndexOf, Atoi;
    DigitsAreNoNewline(if n < 0 then -n else n);
    NoNewline(Itoa(n));
    LineOf(Itoa(n), tail);
    AtoiItoa(n);
  }

  /** What a bulk string with a length in front of it reads as. */
  lemma BulkReads(n: int, rest: string, budget: Option<nat>)
    requires MIN_INT <= n <= MAX_INT && |Itoa(n)| <= MAX_LINE
    ensures ParseString("$" + Itoa(n) + "\r\n" + rest, budget) ==
      if n < -1 then Err(Protocol)
      else if n == -1 then Ok("", rest)
      else if n > 65_536 || (budget.Some? && n > budget.value) then Err(TooLarge)
      else if |rest| < n + 2 then Err(Ended)
      else if rest[n] != '\r' || rest[n + 1] != '\n' then Err(Protocol)
      else Ok(rest[..n], rest[n + 2..])
  {
    hide ParseLine, Atoi, Itoa;
    IntLine(n, rest);
    RegroupArray("$", Itoa(n), "\r\n", "", rest);
    assert "$" + Itoa(n) + "\r\n" + "" + rest == "$" + Itoa(n) + "\r\n" + rest;
    assert "" + rest == rest;
    if n >= 0 && |rest| >= n + 2 {
      assert rest[n..n + 2] == [rest[n], rest[n + 1]];
    }
  }

  lemma Regroup(prefix: string, number: string, crlf: string, value: string, tail: string)
    requires |prefix| == 1
    ensures (prefix + number + crlf + value + crlf + tail)[1..] == number + crlf + (value + crlf + tail)
  {}

  lemma BulkBody(value: string, tail: string, budget: nat)
    requires budget <= MAX_BULK
    ensures var r := ParseBulk(Itoa(|value|) + "\r\n" + (value + "\r\n" + tail), Some(budget));
      if |value| <= budget then r == Ok(value, tail) else r.Err?
  {
    hide Itoa, Atoi, ParseLine;
    var n, crlf := |value|, "\r\n";
    var body := value + crlf + tail;
    NumberLine(n, body);
    assert |crlf| == 2;
    assert body[..n] == value;
    assert body[n..n + 2] == crlf;
    assert body[n + 2..] == tail;
  }

  lemma BulkRoundTrip(item: Option<string>, tail: string, budget: nat)
    requires budget <= MAX_BULK
    ensures var r := ParseString(EncodeBulk(item) + tail, Some(budget));
      if |Payload(item)| <= budget then r == Ok(Payload(item), tail) else r.Err?
  {
    hide Itoa, ParseLine, Atoi;
    var wire := EncodeBulk(item) + tail;
    if item.None? {
      NilLine(tail);
      assert wire[1..] == "-1\r\n" + tail;
    } else {
      hide ParseBulk;
      Regroup("$", Itoa(|item.value|), "\r\n", item.value, tail);
      BulkBody(item.value, tail, budget);
    }
  }

  lemma NilLine(tail: string)
    ensures ParseLine("-1\r\n" + tail) == Ok("-1", tail) && Atoi("-1") == Some(-1)
  {
    var text, crlf := "-1", "\r\n";
    LineOf(text, tail);
    assert "-1\r\n" + tail == text + crlf + tail;
    AtoiItoa(-1);
    assert Itoa(-1) == "-1";
  }

  lemma {:induction false} ArgsRoundTrip(items: seq<Option<string>>, tail: string, budget: nat)
    requires budget <= MAX_BULK
    ensures var r := ParseArgs(EncodeBulks(items) + tail, |items|, budget);
      if TotalLength(Payloads(items)) <= budget then r == Ok(Payloads(items), tail) else r.Err?
  {
    hide ParseString, EncodeBulk;
    if items == [] {
      assert EncodeBulks(items) + tail == tail;
    } else {
      var first, more := items[0], EncodeBulks(items[1..]) + tail;
      assert EncodeBulks(items) + tail == EncodeBulk(first) + more;
      BulkRoundTrip(first, more, budget);
      if |Payload(first)| <= budget {
        ArgsRoundTrip(items[1..], tail, budget - |Payload(first)|);
        assert Payloads(items)[1..] == Payloads(items[1..]);
      }
    }
  }

  /**
   Reading a written array followed by anything returns the payloads and leaves exactly what
   followed, if and only if there are at most 1024 payloads of at most 64 KiB together.
   */
  lemma ArrayRoundTrip(items: seq<Option<string>>, tail: string)
    ensures var r := ParseArray(EncodeArray(items) + tail);
      if |items| <= MAX_ARRAY && TotalLength(Payloads(items)) <= MAX_FRAME then r == Ok(Payloads(items), tail) else r.Err?
  {
    hide Itoa, ParseArgs, Atoi, ParseLine;
    var body := EncodeBulks(items) + tail;
    RegroupArray("*", Itoa(|items|), "\r\n", EncodeBulks(items), tail);
    NumberLine(|items|, body);
    ArgsRoundTrip(items, tail, MAX_FRAME);
  }

  /** Any input */

  lemma {:induction false} ArgsBounded(input: string, count: nat, budget: nat)
    ensures var r := ParseArgs(input, count, budget); r.Ok? ==> |r.value| == count && TotalLength(r.value) <= budget
    decreases count
  {
    hide ParseString;
    if count > 0 {
      ParseStringWithin(input, budget);
      var first := ParseString(input, Some(budget));
      if first.Ok? {
        ArgsBounded(first.rest, count - 1, budget - |first.value|);
        var more := ParseArgs(first.rest, count - 1, budget - |first.value|);
        if more.Ok? {
          assert ([first.value] + more.value)[1..] == more.value;
        }
      }
    }
  }

  /** Whatever is sent, a request that is read has at most 1024 arguments and 64 KiB. */
  lemma ArrayBounded(input: string)
    ensures var r := ParseArray(input); r.Ok? ==> |r.value| <= MAX_ARRAY && TotalLength(r.value) <= MAX_FRAME
  {
    hide ParseArgs, Atoi, ParseLine;
    if input != [] {
      var line := ParseLine(input[1..]);
      if line.Ok? && Atoi(line.value).Some? && 0 <= Atoi(line.value).value {
        ArgsBounded(line.rest, Atoi(line.value).value, MAX_FRAME);
      }
    }
  }

  function Extend<T>(r: Result<T>, more: string): Result<T> {
    match r
    case Err(e) => Err(e)
    case Ok(value, rest) => Ok(value, rest + more)
  }

  lemma LineFramed(input: string, more: string)
    requires ParseLine(input).Ok?
    ensures ParseLine(input + more) == Extend(ParseLine(input), more)
  {
    var i := IndexOf(input, '\n');
    IndexOfSplit(input, more, '\n');
    assert (input + more)[..i] == input[..i];
    assert (input + more)[i + 1..] == input[i + 1..] + more;
  }

  lemma StringFramed(input: string, more: string, budget: Option<nat>)
    requires ParseString(input, budget).Ok?
    ensures ParseString(input + more, budget) == Extend(ParseString(input, budget), more)
  {
    hide ParseLine, Atoi;
    assert (input + more)[1..] == input[1..] + more;
    LineFramed(input[1..], more);
    if input[0] == '$' {
      var line := ParseLine(input[1..]);
      var n := Atoi(line.value).value;
      if n >= 0 {
        assert (line.rest + more)[n..n + 2] == line.rest[n..n + 2];
        assert (line.rest + more)[..n] == line.rest[..n];
        assert (line.rest + more)[n + 2..] == line.rest[n + 2..] + more;
      }
    }
  }

  lemma {:induction false} ArgsFramed(input: string, count: nat, budget: nat, more: string)
    requires ParseArgs(input, count, budget).Ok?
    ensures ParseArgs(input + more, count, budget) == Extend(ParseArgs(input, count, budget), more)
    decreases count
  {
    hide ParseString;
    if count > 0 {
      StringFramed(input, more, Some(budget));
      ParseStringWithin(input, budget);
      var first := ParseString(input, Some(budget));
      ArgsFramed(first.rest, count - 1, budget - |first.value|, more);
    }
  }

  /** A request that was read would have been read the same whatever follows it on the connection. */
  lemma ArrayFramed(input: string, more: string)
    requires ParseArray(input).Ok?
    ensures ParseArray(input + more) == Extend(ParseArray(input), more)
  {
    hide ParseLine, Atoi, ParseArgs;
    assert (input + more)[1..] == input[1..] + more;
    LineFramed(input[1..], more);
    var line := ParseLine(input[1..]);
    ArgsFramed(line.rest, Atoi(line.value).value, MAX_FRAME, more);
  }

  /** When a line is read at all: a newline exists and the line without its terminator is at most 64 KiB. */
  lemma LineReadIff(input: string)
    ensures ParseLine(input).Ok? <==>
      exists i :: 0 <= i < |input| && input[i] == '\n' && '\n' !in input[..i] && |StripCR(input[..i])| <= MAX_LINE
  {
    var i := IndexOf(input, '\n');
    if i < |input| {
      assert '\n' !in input[..i];
    }
    if j :| 0 <= j < |input| && input[j] == '\n' && '\n' !in input[..j] {
      assert forall k | 0 <= k < j :: input[k] in input[..j];
    }
  }
}
