/**
 What becomes of blank containers, which the meaning of a document leaves out: normalizing resets
 the legacy settings of a struct that is blank in the current spelling, a migration moves a blank
 legacy container as a whole, and flattening rejects a shared container that is no container.
 */
module ConfigBlanks {
  import opened Options
  import opened ConfigTree
  import opened ConfigLayout
  import opened ConfigMeaning
  import opened ConfigLaws
  import KeyGroups

  /** What is absent stays absent where nothing is set, and what is present where nothing is removed */

  lemma MoveStepAbsent(root: Node, m: Move, migrate: bool, x: Path)
    requires m.legacy != [] && x != [] && Incomparable(m.current, x) && Get(root, x).None?
    ensures Get(MoveStep(root, m, migrate), x).None?
  {
    var v := LegacyGet(root, m.legacy);
    if v.Some? {
      AbsentStays(root, m.legacy, x);
      GetSetOther(Remove(root, m.legacy), m.current, v.value, x);
    }
  }

  lemma {:induction false} MovePassAbsent(root: Node, ms: seq<Move>, migrate: bool, x: Path)
    requires Proper(ms) && x != [] && Get(root, x).None?
    requires forall i | 0 <= i < |ms| :: Incomparable(ms[i].current, x)
    ensures Get(MovePass(root, ms, migrate), x).None?
    decreases ms
  {
    hide MoveStep;
    if ms != [] {
      assert forall i | 0 <= i < |ms[1..]| :: ms[1..][i] == ms[i + 1];
      MoveStepAbsent(root, ms[0], migrate, x);
      MovePassAbsent(MoveStep(root, ms[0], migrate), ms[1..], migrate, x);
    }
  }

  lemma SetKeepsPresent(root: Node, p: Path, v: Node, x: Path)
    requires Get(root, p).None? && Get(root, x).Some?
    ensures Get(Set(root, p, v), x).Some?
  {
    if p <= x {
      GetThrough(root, p, x);
    } else if x < p {
      FilledAbove(root, p, v, x);
    } else {
      GetSetOther(root, p, v, x);
    }
  }

  lemma MoveStepPresent(root: Node, m: Move, migrate: bool, x: Path)
    requires m.legacy != [] && Incomparable(m.legacy, x) && Get(root, x).Some?
    ensures Get(MoveStep(root, m, migrate), x).Some?
  {
    var v, removed := LegacyGet(root, m.legacy), Remove(root, m.legacy);
    GetRemoveOther(root, m.legacy, x);
    if v.Some? && Get(root, m.current).None? && m.current != [] {
      AbsentStays(root, m.legacy, m.current);
      SetKeepsPresent(removed, m.current, v.value, x);
    }
  }

  lemma {:induction false} MovePassPresent(root: Node, ms: seq<Move>, migrate: bool, x: Path)
    requires Proper(ms) && Get(root, x).Some?
    requires forall i | 0 <= i < |ms| :: Incomparable(ms[i].legacy, x)
    ensures Get(MovePass(root, ms, migrate), x).Some?
    decreases ms
  {
    hide MoveStep;
    if ms != [] {
      assert forall i | 0 <= i < |ms[1..]| :: ms[1..][i] == ms[i + 1];
      MoveStepPresent(root, ms[0], migrate, x);
      MovePassPresent(MoveStep(root, ms[0], migrate), ms[1..], migrate, x);
    }
  }

  lemma GroupsApart(f: Family, x: Path)
    requires Incomparable(API_KEYS, x)
    ensures Incomparable(GroupPath(f), x)
  {
    assert x[0] == API_KEYS[0] ==> API_KEYS <= x;
  }

  lemma {:induction false} FamilyMovesAbsent(root: Node, fs: seq<Family>, migrate: bool, x: Path)
    requires forall i | 0 <= i < |fs| :: fs[i].legacy != []
    requires Incomparable(API_KEYS, x) && Get(root, x).None?
    ensures Get(FamilyMoves(root, fs, migrate), x).None?
    decreases fs
  {
    if fs != [] {
      assert forall i | 0 <= i < |fs[1..]| :: fs[1..][i] == fs[i + 1];
      var f, v := fs[0], Get(root, fs[0].legacy);
      if v.Some? {
        GroupsApart(f, x);
        GetSetOther(root, GroupPath(f), GroupNode(v.value, f.name), x);
        AbsentStays(root, f.legacy, x);
        AbsentStays(Set(root, GroupPath(f), GroupNode(v.value, f.name)), f.legacy, x);
      }
      FamilyMovesAbsent(FamilyStep(root, f, migrate), fs[1..], migrate, x);
    }
  }

  lemma {:induction false} FamilyMovesPresent(root: Node, fs: seq<Family>, migrate: bool, x: Path)
    requires forall i | 0 <= i < |fs| :: fs[i].legacy != [] && Incomparable(fs[i].legacy, x)
    requires Incomparable(API_KEYS, x) && Get(root, x).Some?
    ensures Get(FamilyMoves(root, fs, migrate), x).Some?
    decreases fs
  {
    if fs != [] {
      assert forall i | 0 <= i < |fs[1..]| :: fs[1..][i] == fs[i + 1];
      var f, v := fs[0], Get(root, fs[0].legacy);
      if v.Some? {
        GroupsApart(f, x);
        GetSetOther(root, GroupPath(f), GroupNode(v.value, f.name), x);
        GetRemoveOther(root, f.legacy, x);
        GetRemoveOther(Set(root, GroupPath(f), GroupNode(v.value, f.name)), f.legacy, x);
      }
      FamilyMovesPresent(FamilyStep(root, f, migrate), fs[1..], migrate, x);
    }
  }

  /** Turning a null into an empty mapping fills nothing in and leaves what is blank blank. */
  lemma {:induction false} EmptyNullsKeep(root: Node, ms: seq<Move>, migrate: bool, x: Path)
    requires x != []
    ensures Get(root, x).None? ==> Get(EmptyNulls(root, ms, migrate), x).None?
    ensures Blank(Get(root, x)) ==> Blank(Get(EmptyNulls(root, ms, migrate), x))
    decreases ms
  {
    if ms != [] {
      var y := ms[0].legacy;
      if Get(root, y) == Some(Null) {
        NullEmptied(root, y, x);
      }
      EmptyNullsKeep(
        if Get(root, y) == Some(Null) && (migrate || Get(root, ms[0].current).Some?) then Set(root, y, Map(map[])) else root, ms[1..], migrate, x);
    }
  }

  lemma NullEmptied(root: Node, y: Path, x: Path)
    requires Get(root, y) == Some(Null)
    ensures Get(root, x).None? ==> Get(Set(root, y, Map(map[])), x).None?
    ensures Blank(Get(root, x)) ==> Blank(Get(Set(root, y, Map(map[])), x))
  {
    GetSetSame(root, y, Map(map[]));
    if y <= x {
      GetThrough(root, y, x);
      GetThrough(Set(root, y, Map(map[])), y, x);
    } else if x < y {
      GetThrough(root, x, y);
      PresentBelow(root, x, y);
    } else {
      GetSetOther(root, y, Map(map[]), x);
    }
  }

  /** A struct that is blank in the current spelling */

  /**
   Normalizing resets the legacy settings of a struct that is blank in the current spelling: none of
   them is left in the legacy spelling, whether the document is migrated or not.
   */
  lemma NormalizeResets(t: Table, s: set<Path>, d: Node, migrate: bool, j: nat, k: nat)
    requires TableOk(t, s) && Flatten(t, d).Ok?
    requires Covers(t, j, k) && Blank(Get(d, t.structs[j].current))
    requires forall c | c in t.structs + t.sharedStructs :: Incomparable(c.current, t.paths[k].legacy)
    ensures Normalize(t, d, migrate).Ok? && Get(Normalize(t, d, migrate).value, t.paths[k].legacy).None?
  {
    hide TableOk, Flatten, ClearPass, EmptyNulls, EmptyContainers, MovePass, FamilyMoves, Leaves;
    var l, x := Leaves(t, s), t.paths[k].legacy;
    TableIsProper(t, s);
    TableGivesRows(t, s);
    assert t.structs[0..] == t.structs;
    ClearPassGet(t, l, d, 0, k);
    var cleared, containers := ClearPass(d, t.structs, t.paths), t.structs + t.sharedStructs;
    EmptyNullsKeep(cleared, containers, migrate, x);
    var emptied := EmptyNulls(cleared, containers, migrate);
    SettingUnrelated(t, s, k);
    KeyInStruct(t, s, j, k);
    var tail := EmptyContainers(emptied, containers, migrate);
    forall i | 0 <= i < |tail| ensures Incomparable(tail[i].current, x) {
      EmptyContainersAre(emptied, containers, migrate, tail[i]);
    }
    var moves := t.aliases + t.paths + tail;
    MovePassAbsent(emptied, moves, migrate, x);
    var moved := MovePass(emptied, moves, migrate);
    FamilyMovesAbsent(moved, t.families, migrate, x);
    GetSetOther(FamilyMoves(moved, t.families, migrate), VERSION, Int(8), x);
  }

  /** No row moves anything onto, into or around a legacy setting. */
  lemma SettingUnrelated(t: Table, s: set<Path>, k: nat)
    requires TableOk(t, s) && k < |t.paths|
    ensures t.paths[k].legacy != []
    ensures forall i | 0 <= i < |t.aliases| :: Incomparable(t.aliases[i].current, t.paths[k].legacy)
    ensures forall i | 0 <= i < |t.paths| :: Incomparable(t.paths[i].current, t.paths[k].legacy)
  {
    hide ContainersOk, StructsBetween, FamiliesOk, Leaves;
    var l, x := Leaves(t, s), t.paths[k].legacy;
    TableGivesLeaves(t, s);
    assert AnchorRows(t)[k].legacy == x;
    forall i | 0 <= i < |t.aliases| ensures Incomparable(t.aliases[i].current, x) {
      SettingsApart(s, t.aliases[i].current, x);
    }
    forall i | 0 <= i < |t.paths| ensures Incomparable(t.paths[i].current, x) {
      SettingsApart(l, t.paths[i].current, x);
    }
  }

  /** A setting in a struct is neither the version nor the list of client keys. */
  lemma KeyInStruct(t: Table, s: set<Path>, j: nat, k: nat)
    requires TableOk(t, s) && Covers(t, j, k)
    ensures Incomparable(API_KEYS, t.paths[k].legacy) && Incomparable(VERSION, t.paths[k].legacy)
  {
    hide ContainersOk, StructsBetween, FamiliesOk, AliasesOk, Leaves;
    var l, x := Leaves(t, s), t.paths[k].legacy;
    TableGivesLeaves(t, s);
    TableIsProper(t, s);
    assert |x| > |t.structs[j].legacy| > 0;
    SettingsApart(l, API_KEYS, x);
    SettingsApart(l, VERSION, x);
  }

  /** A container that is blank in the legacy spelling */

  /** Nothing moves into the legacy spelling of a container, and no container lies around its current one. */
  ghost predicate Spread(t: Table, c: Move) {
    && (forall m | m in t.aliases + t.paths + t.structs + t.sharedStructs :: Incomparable(c.legacy, m.current))
    && (forall m | m in t.structs + t.sharedStructs :: Incomparable(m.legacy, c.current) && (m.legacy == c.legacy ==> m == c))
    && (forall i | 0 <= i < |t.families| :: Incomparable(t.families[i].legacy, c.current))
    && Incomparable(API_KEYS, c.legacy) && Incomparable(API_KEYS, c.current) && Incomparable(VERSION, c.legacy) && Incomparable(VERSION, c.current)
  }

  lemma {:induction false} ClearPassBlank(l: set<Path>, root: Node, structs: seq<Move>, leaves: seq<Move>, q: Path)
    requires Proper(structs) && Proper(leaves) && Within(l, leaves) && Container(l, q)
    ensures Blank(Get(ClearPass(root, structs, leaves), q)) <==> Blank(Get(root, q))
    decreases structs
  {
    hide Container, ClearLeaves, Within, Get, Blank;
    if structs != [] {
      ClearLeavesBlank(l, root, leaves, structs[0], q);
      ClearPassBlank(l, if Blank(Get(root, structs[0].current)) then ClearLeaves(root, leaves, structs[0]) else root, structs[1..], leaves, q);
    }
  }

  lemma MoveStepBlank(root: Node, m: Move, migrate: bool, q: Path)
    requires m.legacy != [] && q != [] && !(m.legacy <= q) && Incomparable(q, m.current)
    ensures Blank(Get(MoveStep(root, m, migrate), q)) <==> Blank(Get(root, q))
  {
    var v := LegacyGet(root, m.legacy);
    RemoveKeepsBlank(root, m.legacy, q);
    if v.Some? {
      GetSetOther(Remove(root, m.legacy), m.current, v.value, q);
    }
  }

  lemma {:induction false} MovePassBlank(root: Node, ms: seq<Move>, migrate: bool, q: Path)
    requires Proper(ms) && q != []
    requires forall i | 0 <= i < |ms| :: !(ms[i].legacy <= q) && Incomparable(q, ms[i].current)
    ensures Blank(Get(MovePass(root, ms, migrate), q)) <==> Blank(Get(root, q))
    decreases ms
  {
    hide MoveStep, Blank;
    if ms != [] {
      assert forall i | 0 <= i < |ms[1..]| :: ms[1..][i] == ms[i + 1];
      MoveStepBlank(root, ms[0], migrate, q);
      MovePassBlank(MoveStep(root, ms[0], migrate), ms[1..], migrate, q);
    }
  }

  lemma BlankMoves(root: Node, c: Move)
    requires c.legacy != [] && c.current != [] && c.legacy != API_KEYS && Incomparable(c.legacy, c.current) && Blank(Get(root, c.legacy))
    ensures var next := MoveStep(root, c, true); Get(next, c.legacy).None? && Get(next, c.current).Some?
  {
    var v, removed := Get(root, c.legacy), Remove(root, c.legacy);
    GetRemoveSame(root, c.legacy);
    GetRemoveOther(root, c.legacy, c.current);
    GetSetOther(removed, c.current, v.value, c.legacy);
    GetSetSame(removed, c.current, v.value);
  }

  lemma {:induction false} BlankIsMoved(root: Node, ms: seq<Move>, c: Move)
    requires Proper(ms) && c in ms && c.legacy != API_KEYS && Blank(Get(root, c.legacy))
    requires forall m | m in ms :: (m == c || !(m.legacy <= c.legacy)) && Incomparable(c.legacy, m.current) && Incomparable(m.legacy, c.current)
    ensures Get(MovePass(root, ms, true), c.legacy).None? && Get(MovePass(root, ms, true), c.current).Some?
    decreases ms
  {
    hide MoveStep, Blank;
    var next, rest := MoveStep(root, ms[0], true), ms[1..];
    assert forall i | 0 <= i < |rest| :: rest[i] == ms[i + 1] && rest[i] in ms;
    assert forall i | 0 <= i < |ms| :: ms[i] in ms;
    if ms[0] == c {
      BlankMoves(root, c);
      MovePassAbsent(next, rest, true, c.legacy);
      MovePassPresent(next, rest, true, c.current);
    } else {
      MoveStepBlank(root, ms[0], true, c.legacy);
      assert forall m | m in rest :: m in ms;
      BlankIsMoved(next, rest, c);
    }
  }

  /** Everything before the blank containers move leaves them blank. */
  lemma BlankUntilMoved(t: Table, s: set<Path>, d: Node, c: Move)
    requires TableOk(t, s) && c in t.structs + t.sharedStructs && Spread(t, c) && Blank(Get(d, c.legacy))
    ensures var emptied := EmptyNulls(ClearPass(d, t.structs, t.paths), t.structs + t.sharedStructs, true);
      Blank(Get(emptied, c.legacy)) && Blank(Get(MovePass(emptied, t.aliases + t.paths, true), c.legacy))
  {
    hide Antichain, StructsBetween, FamiliesOk, AliasesOk, ContainersOk, ClearPass, EmptyNulls, MovePass, Leaves, Blank;
    var l, q := Leaves(t, s), c.legacy;
    TableGivesLeaves(t, s);
    StructsAboveLeaves(t, s);
    ClearPassBlank(l, d, t.structs, t.paths, q);
    var cleared := ClearPass(d, t.structs, t.paths);
    EmptyNullsKeep(cleared, t.structs + t.sharedStructs, true, q);
    var ms := t.aliases + t.paths;
    forall i | 0 <= i < |ms| ensures !(ms[i].legacy <= q) && Incomparable(q, ms[i].current) {
      assert ms[i] in t.aliases + t.paths + t.structs + t.sharedStructs;
      assert ms[i].legacy in l;
    }
    MovePassBlank(EmptyNulls(cleared, t.structs + t.sharedStructs, true), ms, true, q);
  }

  /** The containers that move with a blank one are none of those around it. */
  lemma TailIsSpread(t: Table, root: Node, c: Move)
    requires ProperTable(t) && c in t.structs + t.sharedStructs && Spread(t, c) && Blank(Get(root, c.legacy))
    ensures var tail := EmptyContainers(root, t.structs + t.sharedStructs, true);
      && c in tail
      && forall m | m in tail :: (m == c || !(m.legacy <= c.legacy)) && Incomparable(c.legacy, m.current) && Incomparable(m.legacy, c.current)
  {
    hide EmptyContainers;
    var containers := t.structs + t.sharedStructs;
    EmptyContainersAre(root, containers, true, c);
    forall m | m in EmptyContainers(root, containers, true)
      ensures (m == c || !(m.legacy <= c.legacy)) && Incomparable(c.legacy, m.current) && Incomparable(m.legacy, c.current)
    {
      EmptyContainersAre(root, containers, true, m);
      assert m in t.aliases + t.paths + t.structs + t.sharedStructs;
      if m.legacy < c.legacy {
        NothingInBlank(root, m.legacy, c.legacy);
      }
    }
  }

  /** A migration takes a blank legacy container away, and its current spelling is there afterwards. */
  lemma MigrationMovesBlank(t: Table, s: set<Path>, d: Node, c: Move)
    requires TableOk(t, s) && Flatten(t, d).Ok?
    requires c in t.structs + t.sharedStructs && Spread(t, c) && Blank(Get(d, c.legacy))
    ensures Normalize(t, d, true).Ok?
    ensures Get(Normalize(t, d, true).value, c.legacy).None? && Get(Normalize(t, d, true).value, c.current).Some?
  {
    hide TableOk, Flatten, ClearPass, EmptyNulls, EmptyContainers, MovePass, FamilyMoves, Blank;
    TableIsProper(t, s);
    BlankUntilMoved(t, s, d, c);
    var containers := t.structs + t.sharedStructs;
    var emptied := EmptyNulls(ClearPass(d, t.structs, t.paths), containers, true);
    var tail := EmptyContainers(emptied, containers, true);
    TailIsSpread(t, emptied, c);
    MovePassAppend(emptied, t.aliases + t.paths, tail, true);
    BlankIsMoved(MovePass(emptied, t.aliases + t.paths, true), tail, c);
    var moved := MovePass(emptied, t.aliases + t.paths + tail, true);
    FamilyMovesAbsent(moved, t.families, true, c.legacy);
    FamilyMovesPresent(moved, t.families, true, c.current);
    var grouped := FamilyMoves(moved, t.families, true);
    GetSetOther(grouped, VERSION, Int(8), c.legacy);
    GetSetOther(grouped, VERSION, Int(8), c.current);
  }

  /** A shared container that is no container */

  predicate Scalar(v: Option<Node>) {
    v.Some? && !v.value.Null? && !v.value.Map?
  }

  lemma RemoveKeepsScalar(root: Node, p: Path, x: Path)
    requires p != [] && x != [] && !(p <= x) && Scalar(Get(root, x))
    ensures Get(Remove(root, p), x) == Get(root, x)
  {
    if x < p {
      GetThrough(root, x, p);
      DeleteFinds(root, p);
    } else {
      GetRemoveOther(root, p, x);
    }
  }

  lemma {:induction false} AliasPassKeepsScalar(root: Node, ms: seq<Move>, x: Path)
    requires Proper(ms) && x != [] && Scalar(Get(root, x))
    requires forall i | 0 <= i < |ms| :: !(ms[i].legacy <= x) && Incomparable(ms[i].current, x)
    ensures Get(AliasPass(root, ms), x) == Get(root, x)
    decreases ms
  {
    if ms != [] {
      assert forall i | 0 <= i < |ms[1..]| :: ms[1..][i] == ms[i + 1];
      var m, v := ms[0], Get(root, ms[0].legacy);
      if v.Some? {
        GetSetOther(root, m.current, v.value, x);
        RemoveKeepsScalar(if Get(root, m.current).None? then Set(root, m.current, v.value) else root, m.legacy, x);
      }
      AliasPassKeepsScalar(AliasStep(root, m), ms[1..], x);
    }
  }

  lemma {:induction false} SharedPassRejects(root: Node, ms: seq<Move>, i: nat)
    requires Proper(ms) && i < |ms| && Scalar(Get(root, ms[i].legacy))
    requires forall j | 0 <= j < |ms| :: Incomparable(ms[j].current, ms[i].legacy)
    ensures SharedPass(root, ms).Err?
    decreases ms
  {
    if i > 0 {
      var m, rest, x := ms[0], ms[1..], ms[i].legacy;
      assert forall j | 0 <= j < |rest| :: rest[j] == ms[j + 1];
      var filled := if Get(root, m.current).None? then Set(root, m.current, Map(map[])) else root;
      GetSetOther(root, m.current, Map(map[]), x);
      if Blank(Get(root, m.legacy)) {
        GetThroughBlank(root, m.legacy, x);
        RemoveKeepsScalar(filled, m.legacy, x);
        SharedPassRejects(Remove(filled, m.legacy), rest, i - 1);
      } else {
        SharedPassRejects(root, rest, i - 1);
      }
    }
  }

  lemma GetThroughBlank(root: Node, q: Path, x: Path)
    requires Blank(Get(root, q)) && Scalar(Get(root, x))
    ensures !(q <= x)
  {
    assert q <= x && |q| == |x| ==> q == x;
    if q < x {
      NothingInBlank(root, q, x);
    }
  }

  /** A document flattens only if every shared container that it gives is a mapping or null. */
  lemma SharedMustBeMapping(t: Table, s: set<Path>, d: Node, i: nat)
    requires TableOk(t, s) && i < |t.sharedStructs|
    requires forall m | m in t.aliases + t.sharedStructs :: Incomparable(m.current, t.sharedStructs[i].legacy)
    ensures Flatten(t, d).Ok? ==> !Scalar(Get(d, t.sharedStructs[i].legacy))
  {
    hide Antichain, StructsBetween, FamiliesOk, ShapeOk, AliasPass, SharedPass, StructPass, FamilyPass, PathPass;
    var x := t.sharedStructs[i].legacy;
    if d.Map? && Scalar(Get(d, x)) {
      forall j | 0 <= j < |t.aliases| ensures !(t.aliases[j].legacy <= x) && Incomparable(t.aliases[j].current, x) {
        assert t.aliases[j] in t.aliases + t.sharedStructs;
        assert t.aliases[j].legacy in s;
      }
      forall j | 0 <= j < |t.sharedStructs| ensures Incomparable(t.sharedStructs[j].current, x) {
        assert t.sharedStructs[j] in t.aliases + t.sharedStructs;
      }
      AliasPassKeepsScalar(d, t.aliases, x);
      SharedPassRejects(AliasPass(d, t.aliases), t.sharedStructs, i);
    }
  }
}
