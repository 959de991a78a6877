/**
 The Codex reasoning replay history of one agent: a flat list of items in which turn markers
 separate completed turns.  Appending adds a turn unless its identifier is already stored, and
 trimming drops whole turns from the front.  An item comes with what the JSON library reports
 about it: `turn` is the trimmed identifier when the item is a turn marker.
 */
module CodexReplay {
  import opened Options

  const MAX_TURNS: nat := 256
  const MAX_BYTES: nat := 0x100_0000
  const LEGACY_ID: string := "cpa-legacy-flat-v1"
  const LEGACY_MARKER: Item := Item("{\"type\":\"cpa_codex_replay_turn\",\"id\":\"cpa-legacy-flat-v1\"}", Some(LEGACY_ID))

  datatype Item = Item(raw: string, turn: Option<string>)

  predicate IsMarker(item: Item) {
    item.turn.Some?
  }

  function Bytes(items: seq<Item>): nat {
    if items == [] then 0 else |items[0].raw| + Bytes(items[1..])
  }

  function Markers(items: seq<Item>): nat {
    if items == [] then 0 else (if IsMarker(items[0]) then 1 else 0) + Markers(items[1..])
  }

  /** The first item opens a turn whether or not it is a marker. */
  function Turns(items: seq<Item>): nat {
    1 + if items == [] then 0 else Markers(items[1..])
  }

  predicate Fits(items: seq<Item>) {
    Turns(items) <= MAX_TURNS && Bytes(items) <= MAX_BYTES
  }

  /** A turn may start at `k`. */
  predicate Boundary(items: seq<Item>, k: nat) {
    k == 0 || (k < |items| && IsMarker(items[k]))
  }

  /** Index of the first marker at or after `k`; the length when there is none. */
  function NextMarker(items: seq<Item>, k: nat): (n: nat)
    requires k <= |items|
    ensures k <= n <= |items| && (n < |items| ==> IsMarker(items[n]))
    ensures forall i :: k <= i < n ==> !IsMarker(items[i])
    decreases |items| - k
  {
    if k == |items| || IsMarker(items[k]) then k else NextMarker(items, k + 1)
  }

  function Trim(items: seq<Item>): seq<Item> {
    if Fits(items) then items else
      assert items != [];
      Trim(items[NextMarker(items, 1)..])
  }

  function WithLegacyMarker(items: seq<Item>): seq<Item> {
    if items != [] && !IsMarker(items[0]) then [LEGACY_MARKER] + items else items
  }

  predicate HasTurn(items: seq<Item>, id: string) {
    exists i :: 0 <= i < |items| && items[i].turn == Some(id)
  }

  function TurnId(turn: seq<Item>): string {
    if turn != [] && IsMarker(turn[0]) then turn[0].turn.value else ""
  }

  function Append(existing: seq<Item>, turn: seq<Item>): seq<Item> {
    var history := WithLegacyMarker(existing);
    if TurnId(turn) != "" && HasTurn(history, TurnId(turn)) then Trim(history) else Trim(history + turn)
  }

  /** The loops */

  method TrimItems(items: seq<Item>) returns (r: seq<Item>)
    ensures r == Trim(items)
  {
    r := items;
    while true
      invariant Trim(r) == Trim(items)
      decreases |r|
    {
      var turns, bytes, second := Measure(r);
      if turns <= MAX_TURNS && bytes <= MAX_BYTES {
        return;
      }
      assert r != [];
      if turns <= 1 {
        assert r[|r|..] == [];
        return [];
      }
      r := r[second..];
    }
  }

  /** One scan: the number of turns, the number of bytes and where the second turn starts. */
  method Measure(items: seq<Item>) returns (turns: nat, bytes: nat, second: nat)
    ensures turns == Turns(items) && bytes == Bytes(items)
    ensures items != [] ==> second == NextMarker(items, 1)
    ensures items != [] ==> (turns > 1 <==> second < |items|)
  {
    turns, bytes, second := 1, 0, |items|;
    for index := 0 to |items|
      invariant bytes + Bytes(items[index..]) == Bytes(items)
      invariant index == 0 ==> turns == 1
      invariant index > 0 ==> turns + Markers(items[index..]) == Turns(items)
      invariant turns == 1 ==> second == |items| && (index > 0 ==> NextMarker(items, 1) == NextMarker(items, index))
      invariant turns > 1 ==> second == NextMarker(items, 1) < |items|
    {
      bytes := bytes + |items[index].raw|;
      assert items[index..][1..] == items[index + 1..];
      if index > 0 && IsMarker(items[index]) {
        if turns == 1 {
          second := index;
        }
        turns := turns + 1;
      }
    }
  }

  method AppendTurn(existing: seq<Item>, turn: seq<Item>) returns (r: seq<Item>)
    ensures r == Append(existing, turn)
  {
    var history := existing;
    if history != [] && !IsMarker(history[0]) {
      history := [LEGACY_MARKER] + history;
    }
    var id := if turn != [] && IsMarker(turn[0]) then turn[0].turn.value else "";
    if id != "" {
      for i := 0 to |history|
        invariant forall j :: 0 <= j < i ==> history[j].turn != Some(id)
      {
        if history[i].turn == Some(id) {
          r := TrimItems(history);
          return;
        }
      }
    }
    r := TrimItems(history + turn);
  }

  /** Trimming */

  lemma {:induction false} MeasuresSplit(a: seq<Item>, b: seq<Item>)
    ensures Bytes(a + b) == Bytes(a) + Bytes(b) && Markers(a + b) == Markers(a) + Markers(b)
  {
    if a == [] {
      assert a + b == b;
    } else {
      MeasuresSplit(a[1..], b);
      assert (a + b)[1..] == a[1..] + b;
    }
  }

  lemma TurnsSplit(a: seq<Item>, b: seq<Item>)
    requires a != []
    ensures Turns(a + b) == Turns(a) + Markers(b)
  {
    MeasuresSplit(a[1..], b);
    assert (a + b)[1..] == a[1..] + b;
  }

  /** Dropping from either end never breaks a cap. */
  lemma FitsPart(a: seq<Item>, b: seq<Item>)
    requires Fits(a + b)
    ensures Fits(a) && Fits(b)
  {
    MeasuresSplit(a, b);
    if a == [] {
      assert a + b == b;
    } else {
      TurnsSplit(a, b);
      assert b != [] ==> b == [b[0]] + b[1..];
    }
  }

  /** The longest suffix that starts a turn and fits; nothing when no such suffix exists. */
  ghost predicate LongestFrom(items: seq<Item>, r: seq<Item>, k: nat) {
    && k <= |items| && r == items[k..]
    && (if k == |items| then true else Boundary(items, k) && Fits(items[k..]))
    && forall j | 0 <= j < k && Boundary(items, j) :: !Fits(items[j..])
  }

  lemma {:induction false} TrimIsLongest(items: seq<Item>) returns (k: nat)
    ensures LongestFrom(items, Trim(items), k)
    ensures Fits(Trim(items))
    decreases |items|
  {
    hide Fits;
    assert items[0..] == items;
    if Fits(items) {
      k := 0;
    } else {
      EmptyFits();
      var n := NextMarker(items, 1);
      var t := TrimIsLongest(items[n..]);
      k := n + t;
      assert items[k..] == items[n..][t..];
      forall j | 0 <= j < k && Boundary(items, j) ensures !Fits(items[j..]) {
        if j >= n {
          assert items[j..] == items[n..][j - n..];
          assert Boundary(items[n..], j - n);
        } else {
          assert j == 0;
        }
      }
    }
  }

  lemma EmptyFits()
    ensures Fits([])
  {}

  /** Any boundary that fits bounds how much is dropped: the suffix from there survives. */
  lemma TrimKeeps(items: seq<Item>, j: nat) returns (k: nat)
    requires j < |items| && Boundary(items, j) && Fits(items[j..])
    ensures k <= j && Trim(items) == items[k..]
  {
    k := TrimIsLongest(items);
  }

  lemma TrimIdempotent(items: seq<Item>)
    ensures Trim(Trim(items)) == Trim(items)
  {
    var k := TrimIsLongest(items);
  }

  /** A completed turn as the normalizer leaves it: within the caps, one marker, in front. */
  predicate SingleTurn(turn: seq<Item>) {
    && turn != [] && Fits(turn)
    && TurnId(turn) != ""
    && forall i :: 1 <= i < |turn| ==> !IsMarker(turn[i])
  }

  lemma SingleTurnIds(turn: seq<Item>, id: string)
    requires SingleTurn(turn)
    ensures HasTurn(turn, id) <==> id == TurnId(turn)
  {
    assert turn[0].turn == Some(TurnId(turn));
  }

  /** Turns that cannot be kept may be dropped before trimming. */
  lemma {:induction false} TrimSkips(z: seq<Item>, k: nat)
    requires k <= |z| && (k == |z| || Boundary(z, k))
    requires forall j | 0 <= j < k && Boundary(z, j) :: !Fits(z[j..])
    ensures Trim(z) == Trim(z[k..])
    decreases k
  {
    hide Fits;
    assert z[0..] == z;
    if k > 0 {
      assert Boundary(z, 0);
      EmptyFits();
      var n := NextMarker(z, 1);
      var rest := z[n..];
      forall j | 0 <= j < k - n && Boundary(rest, j) ensures !Fits(rest[j..]) {
        assert rest[j..] == z[n + j..];
        assert Boundary(z, n + j);
      }
      TrimSkips(rest, k - n);
      assert rest[k - n..] == z[k..];
    }
  }

  /** Trimming first makes no difference to trimming after more turns have been added. */
  lemma TrimAbsorbs(x: seq<Item>, y: seq<Item>)
    requires y != [] && IsMarker(y[0])
    ensures Trim(Trim(x) + y) == Trim(x + y)
  {
    hide Fits, Trim;
    var z := x + y;
    var k := TrimIsLongest(x);
    assert z[k..] == x[k..] + y;
    forall j | 0 <= j < k && Boundary(z, j) ensures !Fits(z[j..]) {
      assert Boundary(x, j);
      assert z[j..] == x[j..] + y;
      if Fits(z[j..]) {
        FitsPart(x[j..], y);
      }
    }
    TrimSkips(z, k);
  }

  lemma Contains(a: seq<Item>, b: seq<Item>, id: string)
    ensures HasTurn(a + b, id) <==> HasTurn(a, id) || HasTurn(b, id)
  {
    if HasTurn(a, id) {
      var i :| 0 <= i < |a| && a[i].turn == Some(id);
      assert (a + b)[i].turn == Some(id);
    }
    if HasTurn(b, id) {
      var i :| 0 <= i < |b| && b[i].turn == Some(id);
      assert (a + b)[|a| + i].turn == Some(id);
    }
  }

  /** A new turn ends up whole at the tail of the stored history, and what precedes it is a tail of what was there. */
  lemma NewTurnIsTail(existing: seq<Item>, turn: seq<Item>) returns (k: nat)
    requires SingleTurn(turn) && !HasTurn(WithLegacyMarker(existing), TurnId(turn))
    ensures k <= |WithLegacyMarker(existing)|
    ensures Append(existing, turn) == WithLegacyMarker(existing)[k..] + turn
  {
    hide Fits;
    var history := WithLegacyMarker(existing);
    assert (history + turn)[|history|..] == turn;
    assert Boundary(history + turn, |history|);
    k := TrimKeeps(history + turn, |history|);
  }

  /** What is stored always starts with a marker, so the legacy marker is added at most once. */
  predicate Marked(items: seq<Item>) {
    items != [] ==> IsMarker(items[0])
  }

  lemma TrimMarked(items: seq<Item>)
    requires Marked(items)
    ensures Marked(Trim(items))
  {
    hide Fits;
    var k := TrimIsLongest(items);
  }

  lemma AppendMarked(existing: seq<Item>, turn: seq<Item>)
    requires Marked(turn)
    ensures Marked(Append(existing, turn)) && Fits(Append(existing, turn))
  {
    hide Fits;
    var history := WithLegacyMarker(existing);
    TrimMarked(history);
    TrimMarked(history + turn);
    var k := TrimIsLongest(history);
    k := TrimIsLongest(history + turn);
  }

  /** The turn is recorded, and no stretch of the history from a turn boundary to its end that still holds it fits. */
  ghost predicate DropsStored(existing: seq<Item>, id: string) {
    var history := WithLegacyMarker(existing);
    && HasTurn(history, id)
    && forall i, j | 0 <= j <= i < |history| && history[i].turn == Some(id) && Boundary(history, j) :: !Fits(history[j..])
  }

  /** That is when trimming loses the turn. */
  lemma TrimLosesTurn(existing: seq<Item>, id: string)
    ensures var history := WithLegacyMarker(existing);
      DropsStored(existing, id) <==> HasTurn(history, id) && !HasTurn(Trim(history), id)
  {
    hide Fits, WithLegacyMarker, Trim;
    var history := WithLegacyMarker(existing);
    var k := TrimIsLongest(history);
    assert forall i | 0 <= i < |history| - k :: history[k..][i] == history[k + i];
    if HasTurn(history[k..], id) {
      var i :| 0 <= i < |history[k..]| && history[k..][i].turn == Some(id);
      assert history[k + i].turn == Some(id);
    } else {
      assert forall i | k <= i < |history| :: history[i] == history[k..][i - k];
    }
  }

  /** Appending the same turn twice is appending it once, except when its stored copy was over the caps. */
  lemma AppendTwice(existing: seq<Item>, turn: seq<Item>)
    requires SingleTurn(turn)
    ensures Append(Append(existing, turn), turn) == Append(existing, turn) <==> !DropsStored(existing, TurnId(turn))
  {
    hide Fits;
    var id := TurnId(turn);
    var history := WithLegacyMarker(existing);
    var once := Append(existing, turn);
    TrimLosesTurn(existing, id);
    hide DropsStored;
    AppendMarked(existing, turn);
    assert WithLegacyMarker(once) == once;
    if HasTurn(history, id) {
      TrimIdempotent(history);
      if !HasTurn(once, id) {
        var k := NewTurnIsTail(once, turn);
        Contains(once[k..], turn, id);
        SingleTurnIds(turn, id);
      }
    } else {
      var k := NewTurnIsTail(existing, turn);
      Contains(history[k..], turn, id);
      SingleTurnIds(turn, id);
      TrimIdempotent(history + turn);
    }
  }

  /** In particular on every history within the caps, for identifiers other than the reserved one. */
  lemma AppendTwiceWithinCaps(existing: seq<Item>, turn: seq<Item>)
    requires SingleTurn(turn) && Fits(existing) && TurnId(turn) != LEGACY_ID
    ensures Append(Append(existing, turn), turn) == Append(existing, turn)
  {
    hide Fits;
    var id := TurnId(turn);
    var history := WithLegacyMarker(existing);
    if HasTurn(history, id) && !Fits(history) {
      var i :| 0 <= i < |history| && history[i].turn == Some(id);
      assert history[1..] == existing;
      var n := NextMarker(history, 1);
      assert history[n..] == existing[n - 1..];
      assert existing == existing[..n - 1] + existing[n - 1..];
      FitsPart(existing[..n - 1], existing[n - 1..]);
      assert history[n..][i - n].turn == Some(id);
      assert HasTurn(Trim(history), id);
    }
    TrimLosesTurn(existing, id);
    hide DropsStored;
    AppendTwice(existing, turn);
  }

  /** The reserved identifier really is an exception: a flat history close to the byte cap loses its marker. */
  lemma ReservedIdNotIdempotent(flat: Item, turn: seq<Item>)
    requires !IsMarker(flat) && |flat.raw| == MAX_BYTES
    requires SingleTurn(turn) && TurnId(turn) == LEGACY_ID
    ensures Fits([flat])
    ensures Append(Append([flat], turn), turn) != Append([flat], turn)
  {
    var history := [LEGACY_MARKER, flat];
    assert WithLegacyMarker([flat]) == history;
    assert history[0].turn == Some(LEGACY_ID);
    assert Bytes([flat]) == MAX_BYTES && history[1..] == [flat];
    assert Bytes(history) > MAX_BYTES;
    assert NextMarker(history, 1) == 2;
    assert history[2..] == [];
    EmptyFits();
    assert Trim(history) == [];
    TrimLosesTurn([flat], LEGACY_ID);
    hide DropsStored;
    AppendTwice([flat], turn);
  }

  /** Many appends */

  function Concat(turns: seq<seq<Item>>): seq<Item> {
    if turns == [] then [] else Concat(turns[..|turns| - 1]) + turns[|turns| - 1]
  }

  function AppendAll(existing: seq<Item>, turns: seq<seq<Item>>): seq<Item> {
    if turns == [] then existing else Append(AppendAll(existing, turns[..|turns| - 1]), turns[|turns| - 1])
  }

  ghost predicate NewTurns(history: seq<Item>, turns: seq<seq<Item>>) {
    && (forall i :: 0 <= i < |turns| ==> SingleTurn(turns[i]) && !HasTurn(history, TurnId(turns[i])))
    && (forall i, j :: 0 <= i < j < |turns| ==> TurnId(turns[i]) != TurnId(turns[j]))
  }

  lemma {:induction false} ConcatIds(turns: seq<seq<Item>>, id: string)
    requires forall i :: 0 <= i < |turns| ==> SingleTurn(turns[i])
    ensures HasTurn(Concat(turns), id) ==> exists i :: 0 <= i < |turns| && TurnId(turns[i]) == id
  {
    hide SingleTurn;
    if turns != [] {
      var n := |turns| - 1;
      ConcatIds(turns[..n], id);
      Contains(Concat(turns[..n]), turns[n], id);
      SingleTurnIds(turns[n], id);
    }
  }

  /** One more new turn on a history trimmed already. */
  lemma AppendToTrimmed(x: seq<Item>, turn: seq<Item>)
    requires SingleTurn(turn) && Marked(x) && !HasTurn(x, TurnId(turn))
    ensures Append(Trim(x), turn) == Trim(x + turn)
  {
    hide Fits, Trim;
    TrimMarked(x);
    TrimLosesIds(x, TurnId(turn));
    TrimAbsorbs(x, turn);
  }

  /** Distinct new turns, however many, add up to one concatenation trimmed once. */
  lemma {:induction false} AppendAllIsConcat(existing: seq<Item>, turns: seq<seq<Item>>)
    requires turns != [] && NewTurns(WithLegacyMarker(existing), turns)
    ensures AppendAll(existing, turns) == Trim(WithLegacyMarker(existing) + Concat(turns))
    decreases |turns|
  {
    hide Fits, Trim, SingleTurn, TurnId, HasTurn;
    var n := |turns| - 1;
    var before, turn := turns[..n], turns[n];
    var history := WithLegacyMarker(existing);
    if n == 0 {
      assert before == [];
      assert Concat(turns) == [] + turn == turn;
      AppendNew(existing, turn);
    } else {
      AppendAllIsConcat(existing, before);
      var x := history + Concat(before);
      ConcatIds(before, TurnId(turn));
      Contains(history, Concat(before), TurnId(turn));
      ConcatMarked(history, before);
      AppendToTrimmed(x, turn);
      assert x + turn == history + (Concat(before) + turn);
    }
  }

  lemma AppendNew(existing: seq<Item>, turn: seq<Item>)
    requires !HasTurn(WithLegacyMarker(existing), TurnId(turn))
    ensures Append(existing, turn) == Trim(WithLegacyMarker(existing) + turn)
  {}

  lemma {:induction false} ConcatMarked(history: seq<Item>, turns: seq<seq<Item>>)
    requires Marked(history) && forall i :: 0 <= i < |turns| ==> SingleTurn(turns[i])
    ensures Marked(history + Concat(turns))
  {
    hide Fits;
    if turns != [] {
      ConcatMarked(history, turns[..|turns| - 1]);
    }
  }

  lemma TrimLosesIds(items: seq<Item>, id: string)
    requires !HasTurn(items, id)
    ensures !HasTurn(Trim(items), id)
  {
    hide Fits;
    var k := TrimIsLongest(items);
    assert items == items[..k] + items[k..];
    Contains(items[..k], items[k..], id);
  }
}
