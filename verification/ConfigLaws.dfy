/**
 Which documents flattening accepts, and what explicit empty containers do: a blank container in
 the current spelling resets the legacy settings of its struct.
 */
module ConfigLaws {
  import opened Options
  import opened ConfigTree
  import opened ConfigLayout
  import opened ConfigMeaning
  import KeyGroups
  import KeyLaws

  /** Which documents flatten */

  /** A mapping, nothing at all, or a null under routing, which both layouts share. */
  predicate Parent(v: Option<Node>, p: Path) {
    v.None? || v.value.Map? || (v.value == Null && p == ["routing"])
  }

  ghost predicate Shaped(d: Node, ms: seq<Move>) {
    forall i, k | 0 <= i < |ms| && 0 < k < |ms[i].current| :: Parent(Get(d, ms[i].current[..k]), ms[i].current[..k])
  }

  ghost predicate Accepts(groups: Option<Node>, provider: string) {
    groups.Some? ==> groups.value.List? && forall i | 0 <= i < |groups.value.items| :: KeyLaws.Acceptable(groups.value.items[i], provider)
  }

  lemma ShapedIs(t: Table, d: Node, ms: seq<Move>)
    requires Regular(t, d)
    ensures ShapeOk(t, d, ms) <==> Shaped(d, ms)
  {
    forall i, k | 0 <= i < |ms| && 0 < k < |ms[i].current|
      ensures var p := ms[i].current[..k]; ParentFine(t, Get(d, p), p) <==> Parent(Get(d, p), p)
    {
      var p := ms[i].current[..k];
      if j :| 0 <= j < |t.structs| && t.structs[j].current == p {
        assert !Blank(Get(d, t.structs[j].current));
      }
    }
  }

  /**
   A document without blank containers flattens if and only if it is a mapping with mappings above all
   current settings, of version 8 if it gives one, and with well-formed key groups.
   */
  lemma FlattensIff(t: Table, s: set<Path>, d: Node)
    requires TableOk(t, s) && Regular(t, d)
    ensures Flatten(t, d).Ok? <==>
      && d.Map?
      && Shaped(d, t.paths) && Shaped(d, t.aliases)
      && (Get(d, ["config-version"]).None? || Get(d, ["config-version"]) == Some(Int(8)))
      && forall i | 0 <= i < |t.families| :: Accepts(Get(d, ["api-keys", t.families[i].name]), t.families[i].name)
  {
    hide TableOk, ShapeOk, Shaped, FamilyPass, PathPass, AliasPass, DropGroups, Regular, KeyGroups.Expand, KeyLaws.Acceptable;
    TableIsProper(t, s);
    if d.Map? {
      FlattenRegular(t, s, d);
      ShapedIs(t, d, t.paths);
      ShapedIs(t, d, t.aliases);
      FamilyPassOk(PathPass(DropGroups(AliasPass(d, t.aliases)), t.paths), d, t.families);
      forall i | 0 <= i < |t.families|
        ensures var groups := Get(d, GroupPath(t.families[i]));
          Accepts(groups, t.families[i].name) <==> (groups.Some? ==> KeyGroups.ExpandNode(groups.value, t.families[i].name).Ok?)
      {
        var groups := Get(d, GroupPath(t.families[i]));
        if groups.Some? && groups.value.List? {
          KeyLaws.ExpandAcceptsIff(groups.value.items, t.families[i].name);
        }
      }
    } else {
      assert Flatten(t, d).Err?;
    }
  }

  /** Blank containers */

  /** The setting of row `k` belongs to the struct of row `i`, in both spellings. */
  predicate Covers(t: Table, i: nat, k: nat) {
    i < |t.structs| && k < |t.paths| && t.structs[i].legacy < t.paths[k].legacy && t.structs[i].current < t.paths[k].current
  }

  /** Row `i` finds its current container blank, and no earlier row is about the same container. */
  ghost predicate BlankRow(t: Table, root: Node, i: nat) {
    && i < |t.structs| && Blank(Get(root, t.structs[i].current))
    && forall j | 0 <= j < i :: t.structs[j].current != t.structs[i].current
  }

  ghost predicate ResetFrom(t: Table, root: Node, from: nat, k: nat) {
    exists i :: from <= i < |t.structs| && BlankRow(t, root, i) && Covers(t, i, k)
  }

  lemma NothingInBlank(root: Node, q: Path, p: Path)
    requires q < p && Blank(Get(root, q))
    ensures Get(root, p).None?
  {
    GetThrough(root, q, p);
    assert p[|q|..] != [];
  }

  /** Deleting something else makes no container blank and none that is blank otherwise. */
  lemma RemoveKeepsBlank(root: Node, p: Path, q: Path)
    requires p != [] && q != [] && !(p <= q)
    ensures Blank(Get(Remove(root, p), q)) <==> Blank(Get(root, q))
  {
    if q < p {
      if Blank(Get(root, q)) {
        NothingInBlank(root, q, p);
        DeleteFinds(root, p);
      } else {
        RemoveAbove(root, p, q);
      }
    } else {
      assert Incomparable(p, q);
      GetRemoveOther(root, p, q);
    }
  }

  /** What clearing the leaves of one container does to a setting and to a container. */
  lemma {:induction false} ClearLeavesGet(l: set<Path>, root: Node, leaves: seq<Move>, c: Move, x: Path)
    requires Antichain(l) && Within(l, leaves) && Proper(leaves) && x in l
    ensures Get(ClearLeaves(root, leaves, c), x) ==
      if exists i :: 0 <= i < |leaves| && leaves[i].legacy == x && c.legacy < leaves[i].legacy && c.current < leaves[i].current then None else Get(root, x)
    decreases leaves
  {
    if leaves != [] {
      var m, rest := leaves[0], leaves[1..];
      assert forall i | 0 <= i < |rest| :: rest[i] == leaves[i + 1];
      var next := if Under(c.legacy, m.legacy) && Under(c.current, m.current) then Remove(root, m.legacy) else root;
      ClearLeavesGet(l, next, rest, c, x);
      if Under(c.legacy, m.legacy) && Under(c.current, m.current) {
        if m.legacy == x {
          GetRemoveSame(root, x);
        } else {
          GetRemoveOther(root, m.legacy, x);
        }
      }
      if i :| 0 <= i < |leaves| && leaves[i].legacy == x && c.legacy < leaves[i].legacy && c.current < leaves[i].current {
        assert i > 0 ==> rest[i - 1] == leaves[i];
      }
    }
  }

  lemma {:induction false} ClearLeavesBlank(l: set<Path>, root: Node, leaves: seq<Move>, c: Move, q: Path)
    requires Within(l, leaves) && Proper(leaves) && Container(l, q)
    ensures Blank(Get(ClearLeaves(root, leaves, c), q)) <==> Blank(Get(root, q))
    ensures root.Map? ==> ClearLeaves(root, leaves, c).Map?
    decreases leaves
  {
    if leaves != [] {
      var m, rest := leaves[0], leaves[1..];
      assert forall i | 0 <= i < |rest| :: rest[i] == leaves[i + 1];
      RemoveKeepsBlank(root, m.legacy, q);
      ClearLeavesBlank(l, if Under(c.legacy, m.legacy) && Under(c.current, m.current) then Remove(root, m.legacy) else root, rest, c, q);
    }
  }

  /** Legacy settings are no current ones, and rows have distinct legacy settings. */
  ghost predicate RowsApart(t: Table, l: set<Path>) {
    && Antichain(l) && Within(l, t.paths) && LegacyDistinct(t.paths) && Apart(t.paths, t.paths) && ProperTable(t)
    && forall i | 0 <= i < |t.structs| :: Container(l, t.structs[i].current)
  }

  ghost function ResetOne(root: Node, t: Table, i: nat): Node
    requires i < |t.structs| && ProperTable(t)
  {
    if Blank(Get(root, t.structs[i].current)) then ClearLeaves(Remove(root, t.structs[i].current), t.paths, t.structs[i]) else root
  }

  lemma ResetOneGet(t: Table, l: set<Path>, root: Node, i: nat, k: nat)
    requires RowsApart(t, l) && i < |t.structs| && k < |t.paths|
    ensures var root' := ResetOne(root, t, i);
      && Get(root', t.paths[k].legacy) == (if Blank(Get(root, t.structs[i].current)) && Covers(t, i, k) then None else Get(root, t.paths[k].legacy))
      && Get(root', t.paths[k].current) == Get(root, t.paths[k].current)
  {
    hide ClearLeaves, Antichain;
    var c, p := t.structs[i], t.paths[k];
    if Blank(Get(root, c.current)) {
      var removed := Remove(root, c.current);
      BlankRemoved(l, root, c.current, p.legacy);
      BlankRemoved(l, root, c.current, p.current);
      ClearLeavesGet(l, removed, t.paths, c, p.legacy);
      ClearLeavesGet(l, removed, t.paths, c, p.current);
    }
  }

  lemma BlankRemoved(l: set<Path>, root: Node, c: Path, x: Path)
    requires Container(l, c) && x in l && Blank(Get(root, c))
    ensures Get(Remove(root, c), x) == Get(root, x)
  {
    if c < x {
      NothingInBlank(root, c, x);
      GetRemoveSame(root, c);
      GetThrough(Remove(root, c), c, x);
    } else {
      GetRemoveOther(root, c, x);
    }
  }

  lemma ResetOneBlank(t: Table, l: set<Path>, root: Node, i: nat, j: nat)
    requires RowsApart(t, l) && i < |t.structs| && j < |t.structs|
    ensures Blank(Get(ResetOne(root, t, i), t.structs[j].current)) <==> Blank(Get(root, t.structs[j].current)) && t.structs[j].current != t.structs[i].current
    ensures root.Map? ==> ResetOne(root, t, i).Map?
  {
    hide ClearLeaves, Antichain, Apart, LegacyDistinct;
    var c, q := t.structs[i].current, t.structs[j].current;
    if Blank(Get(root, c)) {
      var removed := Remove(root, c);
      ClearLeavesBlank(l, removed, t.paths, t.structs[i], q);
      if c <= q {
        GetRemoveSame(root, c);
        GetThrough(removed, c, q);
        if c < q {
          NothingInBlank(root, c, q);
        }
      } else {
        RemoveKeepsBlank(root, c, q);
      }
    }
  }

  /** What is blank before row `i` of the pass: what was blank at first and no earlier row took. */
  ghost predicate Pending(t: Table, first: Node, root: Node, i: nat) {
    forall j | i <= j < |t.structs| ::
      Blank(Get(root, t.structs[j].current)) <==> Blank(Get(first, t.structs[j].current)) && forall h | 0 <= h < i :: t.structs[h].current != t.structs[j].current
  }

  lemma PendingNext(t: Table, l: set<Path>, first: Node, root: Node, i: nat)
    requires RowsApart(t, l) && i < |t.structs| && Pending(t, first, root, i)
    ensures Pending(t, first, ResetOne(root, t, i), i + 1)
  {
    hide ResetOne, Antichain, Within, Apart, LegacyDistinct, Container;
    forall j | i + 1 <= j < |t.structs|
      ensures Blank(Get(ResetOne(root, t, i), t.structs[j].current)) <==>
        Blank(Get(first, t.structs[j].current)) && forall h | 0 <= h < i + 1 :: t.structs[h].current != t.structs[j].current
    {
      ResetOneBlank(t, l, root, i, j);
    }
  }

  lemma {:induction false} StructPassGet(t: Table, l: set<Path>, first: Node, root: Node, i: nat, k: nat)
    requires RowsApart(t, l) && i <= |t.structs| && k < |t.paths| && Pending(t, first, root, i)
    ensures var root' := StructPass(root, t.structs[i..], t.paths);
      && Get(root', t.paths[k].legacy) == (if ResetFrom(t, first, i, k) then None else Get(root, t.paths[k].legacy))
      && Get(root', t.paths[k].current) == Get(root, t.paths[k].current)
    decreases |t.structs| - i
  {
    hide Antichain, Within, Apart, LegacyDistinct, Container, Covers, Pending;
    if i == |t.structs| {
      assert t.structs[i..] == [];
    } else {
      assert t.structs[i..][1..] == t.structs[i + 1..] && t.structs[i..][0] == t.structs[i];
      var next := ResetOne(root, t, i);
      PendingNext(t, l, first, root, i);
      ResetOneGet(t, l, root, i, k);
      StructPassGet(t, l, first, next, i + 1, k);
      PendingAt(t, first, root, i);
      if ResetFrom(t, first, i, k) {
        var j :| i <= j < |t.structs| && BlankRow(t, first, j) && Covers(t, j, k);
        assert j > i ==> ResetFrom(t, first, i + 1, k);
      }
      if ResetFrom(t, first, i + 1, k) {
        var j :| i + 1 <= j < |t.structs| && BlankRow(t, first, j) && Covers(t, j, k);
        assert ResetFrom(t, first, i, k);
      }
    }
  }

  lemma PendingAt(t: Table, first: Node, root: Node, i: nat)
    requires i < |t.structs| && Pending(t, first, root, i)
    ensures Blank(Get(root, t.structs[i].current)) <==> BlankRow(t, first, i)
  {}

  /** Aliases beside blank containers */

  /** No alias is spelled whose target lies in a container that is blank. */
  ghost predicate NoAliasInBlank(t: Table, d: Node) {
    forall i, j | 0 <= i < |t.structs| && 0 <= j < |t.aliases| && Blank(Get(d, t.structs[i].current)) && t.structs[i].current < t.aliases[j].current ::
      Get(d, t.aliases[j].legacy).None?
  }

  lemma AliasStepBlank(root: Node, m: Move, q: Path)
    requires m.legacy != [] && m.current != [] && q != [] && !(m.legacy <= q) && !(m.current <= q)
    requires Blank(Get(root, q)) && q < m.current ==> Get(root, m.legacy).None?
    ensures Blank(Get(AliasStep(root, m), q)) <==> Blank(Get(root, q))
  {
    var v := Get(root, m.legacy);
    if v.Some? {
      var mid := if Get(root, m.current).None? then Set(root, m.current, v.value) else root;
      RemoveKeepsBlank(mid, m.legacy, q);
      if q < m.current {
        FilledAbove(root, m.current, v.value, q);
      } else {
        GetSetOther(root, m.current, v.value, q);
      }
    }
  }

  lemma {:induction false} AliasPassBlank(s: set<Path>, root: Node, ms: seq<Move>, q: Path)
    requires Antichain(s) && Within(s, ms) && LegacyDistinct(ms) && Apart(ms, ms) && Proper(ms) && Container(s, q)
    requires forall j | 0 <= j < |ms| && q < ms[j].current && Blank(Get(root, q)) :: Get(root, ms[j].legacy).None?
    ensures Blank(Get(AliasPass(root, ms), q)) <==> Blank(Get(root, q))
    decreases ms
  {
    if ms != [] {
      var root', rest := AliasStep(root, ms[0]), ms[1..];
      assert forall i | 0 <= i < |rest| :: rest[i] == ms[i + 1];
      AliasStepBlank(root, ms[0], q);
      forall j | 0 <= j < |rest| ensures Get(root', rest[j].legacy) == Get(root, rest[j].legacy) {
        AliasStepGet(s, root, ms[0], rest[j].legacy);
      }
      AliasPassBlank(s, root', rest, q);
    }
  }

  lemma AliasedBlank(t: Table, s: set<Path>, d: Node, i: nat)
    requires TableOk(t, s) && NoBlankAliases(t, d) && NoAliasInBlank(t, d) && i < |t.structs|
    ensures Blank(Get(AliasPass(d, t.aliases), t.structs[i].current)) <==> Blank(Get(d, t.structs[i].current))
  {
    hide AliasPass, Antichain, FamiliesOk, StructsBetween, Container, Leaves, NotBlankIn;
    var q := t.structs[i].current;
    if Container(s, q) {
      AliasPassBlank(s, d, t.aliases, q);
    } else {
      var j :| 0 <= j < |t.aliases| && t.aliases[j].current <= q;
      AliasPassGet(s, d, t.aliases, t.aliases[j].current);
      ResolvedBlank(t, d, AliasPass(d, t.aliases), j, q, i);
    }
  }

  lemma ResolvedBlank(t: Table, d: Node, aliased: Node, j: nat, q: Path, i: nat)
    requires j < |t.aliases| && i < |t.structs| && q == t.structs[i].current && t.aliases[j].current <= q && NoBlankAliases(t, d)
    requires Get(aliased, t.aliases[j].current) == CurrentValue(d, t.aliases, t.aliases[j].current)
    ensures Blank(Get(aliased, q)) <==> Blank(Get(d, q))
  {
    var a := t.aliases[j].current;
    GetThrough(d, a, q);
    GetThrough(aliased, a, q);
    if Get(d, a).None? && FirstAlias(d, t.aliases, a).Some? {
      var k := FirstAliasFrom(d, t.aliases, a);
      assert NotBlankIn(Get(d, t.aliases[k].legacy), q[|a|..]);
    }
  }

  ghost predicate Resets(t: Table, d: Node, k: nat) {
    ResetFrom(t, d, 0, k)
  }

  lemma ResetAgrees(t: Table, d: Node, root: Node, k: nat)
    requires forall i | 0 <= i < |t.structs| :: Blank(Get(root, t.structs[i].current)) <==> Blank(Get(d, t.structs[i].current))
    ensures ResetFrom(t, root, 0, k) <==> ResetFrom(t, d, 0, k)
    ensures Pending(t, root, root, 0)
  {
    hide Covers, Blank, Get;
    forall i | 0 <= i < |t.structs| ensures BlankRow(t, root, i) <==> BlankRow(t, d, i) {
    }
  }

  lemma TableGivesRows(t: Table, s: set<Path>)
    requires TableOk(t, s)
    ensures RowsApart(t, Leaves(t, s))
  {
    hide Leaves, Container, Antichain, StructsBetween, FamiliesOk;
    TableGivesLeaves(t, s);
    StructsAboveLeaves(t, s);
  }

  /** What is left of the document after aliases, groups and containers, before the settings move. */
  lemma ClearedGet(t: Table, s: set<Path>, d: Node, k: nat)
    requires TableOk(t, s) && NoBlankAliases(t, d) && NoAliasInBlank(t, d) && k < |t.paths|
    ensures var p, cleared := t.paths[k], StructPass(DropGroups(AliasPass(d, t.aliases)), t.structs, t.paths);
      && Get(cleared, p.current) == CurrentLeaf(d, t.aliases, p.current)
      && Get(cleared, p.legacy) == (if Resets(t, d, k) then None else LegacyGet(d, p.legacy))
      && (Resets(t, d, k) ==> Get(cleared, p.current).None?)
  {
    hide AliasPass, StructPass, Antichain, Container, Leaves, StructsBetween, ContainersOk, FamiliesOk, ResetFrom, NoAliasInBlank, NoBlankAliases, CurrentLeaf;
    var l, aliased := Leaves(t, s), AliasPass(d, t.aliases);
    var dropped, p := DropGroups(aliased), t.paths[k];
    TableGivesRows(t, s);
    TableGivesLeaves(t, s);
    forall i | 0 <= i < |t.structs| ensures Blank(Get(dropped, t.structs[i].current)) <==> Blank(Get(d, t.structs[i].current)) {
      AliasedBlank(t, s, d, i);
      DroppedBlank(l, aliased, t.structs[i].current);
    }
    ResetAgrees(t, d, dropped, k);
    assert t.structs[0..] == t.structs;
    StructPassGet(t, l, dropped, dropped, 0, k);
    DropGroupsGet(l, aliased, p.current);
    DropGroupsGet(l, aliased, p.legacy);
    AliasedLeaf(t, s, d, k);
    assert AnchorRows(t)[k].legacy == p.legacy;
    AliasPassGet(s, d, t.aliases, p.legacy);
    NoAlias(d, t.aliases, p.legacy);
    if Resets(t, d, k) {
      CoveredIsAbsent(t, dropped, k);
    }
  }

  lemma DroppedBlank(l: set<Path>, root: Node, q: Path)
    requires Container(l, q) && API_KEYS in l
    ensures Blank(Get(DropGroups(root), q)) <==> Blank(Get(root, q))
  {
    RemoveKeepsBlank(root, API_KEYS, q);
  }

  lemma CoveredIsAbsent(t: Table, root: Node, k: nat)
    requires k < |t.paths| && ResetFrom(t, root, 0, k)
    ensures Get(root, t.paths[k].current).None?
  {
    var i :| 0 <= i < |t.structs| && BlankRow(t, root, i) && Covers(t, i, k);
    NothingInBlank(root, t.structs[i].current, t.paths[k].current);
  }

  /**
   Flattening gives every setting its effective value, unless its struct is explicitly blank in the
   current spelling: then the setting is reset.  Of several struct rows with the same current
   container only the first resets its settings.
   */
  lemma FlattenResets(t: Table, s: set<Path>, d: Node, k: nat)
    requires TableOk(t, s) && Flatten(t, d).Ok? && k < |t.paths|
    requires NoBlankAliases(t, d) && NoAliasInBlank(t, d) && forall i | 0 <= i < |t.sharedStructs| :: Solid(Get(d, t.sharedStructs[i].legacy))
    ensures Get(Flatten(t, d).value, t.paths[k].legacy) == if Resets(t, d, k) then None else Effective(t, d, t.paths[k])
  {
    hide ShapeOk, FamilyPass, PathPass, AliasPass, StructPass, StructsBetween, Leaves, Antichain, CurrentLeaf, NoBlankAliases, NoAliasInBlank, Resets, Container;
    var m, l := t.paths[k], Leaves(t, s);
    TableGivesLeaves(t, s);
    var aliased := AliasPass(d, t.aliases);
    SharedStaySolid(t, s, d);
    SharedPassIdle(aliased, t.sharedStructs);
    var cleared := StructPass(DropGroups(aliased), t.structs, t.paths);
    ClearedGet(t, s, d, k);
    FamilyPassFrame(l, PathPass(cleared, t.paths), d, t.families, m.legacy);
    PathPassGet(l, cleared, t.paths, k);
  }

  lemma SharedStaySolid(t: Table, s: set<Path>, d: Node)
    requires TableOk(t, s) && forall i | 0 <= i < |t.sharedStructs| :: Solid(Get(d, t.sharedStructs[i].legacy))
    ensures forall i | 0 <= i < |t.sharedStructs| :: Solid(Get(AliasPass(d, t.aliases), t.sharedStructs[i].legacy))
  {
    hide AliasPass, Antichain, FamiliesOk, StructsBetween, Container, Leaves;
    AliasPassIsCalm(s, d, t.aliases) by {
      NoEmptySetting(s);
    }
  }

  /** The first thing normalizing does with blank containers: every row resets its settings. */
  lemma {:induction false} ClearPassGet(t: Table, l: set<Path>, root: Node, i: nat, k: nat)
    requires RowsApart(t, l) && i <= |t.structs| && k < |t.paths|
    ensures Get(ClearPass(root, t.structs[i..], t.paths), t.paths[k].legacy) ==
      if exists j :: i <= j < |t.structs| && Blank(Get(root, t.structs[j].current)) && Covers(t, j, k) then None else Get(root, t.paths[k].legacy)
    decreases |t.structs| - i
  {
    hide ClearLeaves, Antichain, Within, Apart, LegacyDistinct, Container, Covers, Get, Blank;
    if i == |t.structs| {
      assert t.structs[i..] == [];
    } else {
      assert t.structs[i..][1..] == t.structs[i + 1..] && t.structs[i..][0] == t.structs[i];
      var c := t.structs[i];
      var next := if Blank(Get(root, c.current)) then ClearLeaves(root, t.paths, c) else root;
      ClearPassGet(t, l, next, i + 1, k);
      ClearOne(t, l, root, i, k);
      forall j | 0 <= j < |t.structs| ensures Blank(Get(next, t.structs[j].current)) <==> Blank(Get(root, t.structs[j].current)) {
        ClearLeavesBlank(l, root, t.paths, c, t.structs[j].current);
      }
    }
  }

  lemma ClearOne(t: Table, l: set<Path>, root: Node, i: nat, k: nat)
    requires RowsApart(t, l) && i < |t.structs| && k < |t.paths|
    ensures Get(ClearLeaves(root, t.paths, t.structs[i]), t.paths[k].legacy) == if Covers(t, i, k) then None else Get(root, t.paths[k].legacy)
  {
    hide ClearLeaves, Antichain;
    ClearLeavesGet(l, root, t.paths, t.structs[i], t.paths[k].legacy);
  }

  /** The legacy containers that move as a whole are the blank ones, if there is somewhere to move them. */
  lemma {:induction false} EmptyContainersAre(root: Node, ms: seq<Move>, migrate: bool, m: Move)
    requires Proper(ms)
    ensures m in EmptyContainers(root, ms, migrate) <==> m in ms && Blank(Get(root, m.legacy)) && (migrate || Get(root, m.current).Some?)
    decreases ms
  {
    if ms != [] {
      EmptyContainersAre(root, ms[1..], migrate, m);
      assert ms == [ms[0]] + ms[1..];
    }
  }

  lemma {:induction false} EmptyNullsSpare(root: Node, ms: seq<Move>, migrate: bool, x: Path)
    requires forall j | 0 <= j < |ms| :: Incomparable(ms[j].legacy, x)
    ensures Get(EmptyNulls(root, ms, migrate), x) == Get(root, x)
    decreases ms
  {
    if ms != [] {
      assert forall j | 0 <= j < |ms[1..]| :: ms[1..][j] == ms[j + 1];
      var next := if Get(root, ms[0].legacy) == Some(Null) && (migrate || Get(root, ms[0].current).Some?) then Set(root, ms[0].legacy, Map(map[])) else root;
      GetSetOther(root, ms[0].legacy, Map(map[]), x);
      EmptyNullsSpare(next, ms[1..], migrate, x);
    }
  }

  /** A null legacy container becomes an empty mapping, if it is going to move. */
  lemma {:induction false} EmptyNullsGet(root: Node, ms: seq<Move>, migrate: bool, i: nat)
    requires i < |ms| && Get(root, ms[i].legacy) == Some(Null)
    requires forall j | 0 <= j < |ms| && j != i :: Incomparable(ms[j].legacy, ms[i].legacy)
    requires forall j | 0 <= j < |ms| :: Incomparable(ms[j].legacy, ms[i].current)
    ensures Get(EmptyNulls(root, ms, migrate), ms[i].legacy) == Some(if migrate || Get(root, ms[i].current).Some? then Map(map[]) else Null)
    decreases ms
  {
    var m, rest := ms[0], ms[1..];
    assert forall j | 0 <= j < |rest| :: rest[j] == ms[j + 1];
    var next := if Get(root, m.legacy) == Some(Null) && (migrate || Get(root, m.current).Some?) then Set(root, m.legacy, Map(map[])) else root;
    GetSetOther(root, m.legacy, Map(map[]), ms[i].current);
    if i == 0 {
      GetSetSame(root, m.legacy, Map(map[]));
      EmptyNullsSpare(next, rest, migrate, m.legacy);
    } else {
      GetSetOther(root, m.legacy, Map(map[]), ms[i].legacy);
      EmptyNullsGet(next, rest, migrate, i - 1);
    }
  }

  lemma PresentStays(root: Node, p: Path, x: Path)
    requires Get(root, p).None? && Get(root, x).Some?
    ensures Get(Set(root, p, Map(map[])), x).Some?
  {
    if p <= x {
      GetThrough(root, p, x);
    } else if x < p {
      FilledAbove(root, p, Map(map[]), x);
    } else {
      GetSetOther(root, p, Map(map[]), x);
    }
  }

  lemma AbsentStays(root: Node, p: Path, x: Path)
    requires p != [] && x != [] && Get(root, x).None?
    ensures Get(Remove(root, p), x).None?
  {
    if p <= x {
      GetRemoveSame(root, p);
      GetThrough(Remove(root, p), p, x);
    } else if x < p {
      GetThrough(root, x, p);
      DeleteFinds(root, p);
    } else {
      GetRemoveOther(root, p, x);
    }
  }

  lemma {:induction false} SharedPassSpares(root: Node, ms: seq<Move>, legacy: Path, current: Path)
    requires Proper(ms) && SharedPass(root, ms).Ok? && Get(root, legacy).None? && Get(root, current).Some? && legacy != []
    requires forall j | 0 <= j < |ms| :: Incomparable(ms[j].legacy, current) && Incomparable(legacy, ms[j].current)
    ensures Get(SharedPass(root, ms).value, legacy).None? && Get(SharedPass(root, ms).value, current).Some?
    decreases ms
  {
    if ms != [] {
      var m, rest := ms[0], ms[1..];
      assert forall j | 0 <= j < |rest| :: rest[j] == ms[j + 1];
      var filled := if Get(root, m.current).None? then Set(root, m.current, Map(map[])) else root;
      var next := if Blank(Get(root, m.legacy)) then Remove(filled, m.legacy) else root;
      GetSetOther(root, m.current, Map(map[]), legacy);
      if Get(root, m.current).None? {
        PresentStays(root, m.current, current);
      }
      GetRemoveOther(filled, m.legacy, current);
      AbsentStays(filled, m.legacy, legacy);
      SharedPassSpares(next, rest, legacy, current);
    }
  }

  /** What flattening does with one shared container. */
  function SharedStep(root: Node, m: Move): Node
    requires m.legacy != []
  {
    if Blank(Get(root, m.legacy)) then Remove(if Get(root, m.current).None? then Set(root, m.current, Map(map[])) else root, m.legacy) else root
  }

  /** Moving another shared container leaves a blank one blank. */
  lemma SharedStepBlank(root: Node, m: Move, x: Path)
    requires m.legacy != [] && x != [] && m.legacy != x && Incomparable(x, m.current) && Blank(Get(root, x))
    ensures Blank(Get(SharedStep(root, m), x))
  {
    if Blank(Get(root, m.legacy)) {
      if m.legacy < x {
        NothingInBlank(root, m.legacy, x);
      }
      assert m.legacy <= x && |m.legacy| == |x| ==> m.legacy == x;
      GetSetOther(root, m.current, Map(map[]), x);
      RemoveKeepsBlank(if Get(root, m.current).None? then Set(root, m.current, Map(map[])) else root, m.legacy, x);
    }
  }

  lemma SharedStepMoves(root: Node, m: Move)
    requires m.legacy != [] && Incomparable(m.legacy, m.current) && Blank(Get(root, m.legacy))
    ensures Get(SharedStep(root, m), m.legacy).None? && Get(SharedStep(root, m), m.current).Some?
  {
    var filled := if Get(root, m.current).None? then Set(root, m.current, Map(map[])) else root;
    GetSetSame(root, m.current, Map(map[]));
    GetRemoveSame(filled, m.legacy);
    GetRemoveOther(filled, m.legacy, m.current);
  }

  /** A blank shared container makes way for its current spelling, which is there afterwards. */
  lemma {:induction false} SharedPassMoves(root: Node, ms: seq<Move>, i: nat)
    requires Proper(ms) && SharedPass(root, ms).Ok? && i < |ms| && Blank(Get(root, ms[i].legacy)) && LegacyDistinct(ms)
    requires forall j, k | 0 <= j < |ms| && 0 <= k < |ms| :: Incomparable(ms[j].legacy, ms[k].current)
    ensures Get(SharedPass(root, ms).value, ms[i].legacy).None? && Get(SharedPass(root, ms).value, ms[i].current).Some?
    decreases ms
  {
    var next, rest := SharedStep(root, ms[0]), ms[1..];
    assert forall j | 0 <= j < |rest| :: rest[j] == ms[j + 1];
    assert SharedPass(root, ms) == SharedPass(next, rest);
    hide SharedStep, SharedPass, Blank;
    if i == 0 {
      SharedStepMoves(root, ms[0]);
      SharedPassSpares(next, rest, ms[0].legacy, ms[0].current);
    } else {
      SharedStepBlank(root, ms[0], ms[i].legacy);
      SharedPassMoves(next, rest, i - 1);
    }
  }

  /** One spelling is left */

  lemma OneMoveSpares(t: Table, s: set<Path>, root: Node, k: nat, migrate: bool, j: nat)
    requires TableOk(t, s) && j < k < |t.paths|
    ensures var root', p := MoveStep(root, t.paths[k], migrate), t.paths[j];
      LegacyGet(root', p.legacy) == LegacyGet(root, p.legacy) && Get(root', p.current) == Get(root, p.current)
  {
    hide ContainersOk, FamiliesOk, StructsBetween, AliasesOk, Antichain, MoveStep, Leaves;
    TableGivesLeaves(t, s);
    MoveStepGet(Leaves(t, s), root, t.paths[k], migrate, t.paths[j].legacy);
    MoveStepGet(Leaves(t, s), root, t.paths[k], migrate, t.paths[j].current);
  }

  lemma {:induction false} LaterMovesSpare(t: Table, s: set<Path>, root: Node, k: nat, migrate: bool, j: nat)
    requires TableOk(t, s) && j < k <= |t.paths|
    ensures var root', p := MovePass(root, t.paths[k..], migrate), t.paths[j];
      LegacyGet(root', p.legacy) == LegacyGet(root, p.legacy) && Get(root', p.current) == Get(root, p.current)
    decreases |t.paths| - k
  {
    hide TableOk, MoveStep, Get, LegacyGet;
    TableIsProper(t, s);
    if k == |t.paths| {
      assert t.paths[k..] == [];
    } else {
      assert t.paths[k..][1..] == t.paths[k + 1..];
      OneMoveSpares(t, s, root, k, migrate, j);
      LaterMovesSpare(t, s, MoveStep(root, t.paths[k], migrate), k + 1, migrate, j);
    }
  }

  lemma {:induction false} MovesLeaveOne(t: Table, s: set<Path>, root: Node, k: nat, migrate: bool, j: nat)
    requires TableOk(t, s) && k <= j < |t.paths|
    ensures var root', p := MovePass(root, t.paths[k..], migrate), t.paths[j];
      && LegacyGet(root', p.legacy) == (if migrate || Get(root, p.current).Some? then None else LegacyGet(root, p.legacy))
      && Get(root', p.current) == (if migrate && Get(root, p.current).None? then LegacyGet(root, p.legacy) else Get(root, p.current))
    decreases |t.paths| - k
  {
    hide ContainersOk, FamiliesOk, StructsBetween, AliasesOk, Antichain, MoveStep, Leaves;
    var l, m, p := Leaves(t, s), t.paths[k], t.paths[j];
    TableGivesLeaves(t, s);
    assert t.paths[k..][1..] == t.paths[k + 1..];
    var next := MoveStep(root, m, migrate);
    MoveStepGet(l, root, m, migrate, p.legacy);
    MoveStepGet(l, root, m, migrate, p.current);
    if j == k {
      LaterMovesSpare(t, s, next, k + 1, migrate, j);
    } else {
      MovesLeaveOne(t, s, next, k + 1, migrate, j);
    }
  }

  lemma TailSpares(t: Table, s: set<Path>, moved: Node, migrate: bool, k: nat)
    requires TableOk(t, s) && k < |t.paths|
    ensures var grouped, p := FamilyMoves(moved, t.families, migrate), t.paths[k];
      && Get(grouped, p.current) == Get(moved, p.current) && Get(Set(grouped, VERSION, Int(8)), p.current) == Get(moved, p.current)
      && (LegacyGet(moved, p.legacy).None? ==> LegacyGet(grouped, p.legacy).None? && LegacyGet(Set(grouped, VERSION, Int(8)), p.legacy).None?)
  {
    hide ContainersOk, StructsBetween, FamilyMoves, Leaves, AliasesOk, Antichain;
    var l, p, grouped := Leaves(t, s), t.paths[k], FamilyMoves(moved, t.families, migrate);
    TableGivesLeaves(t, s);
    FamilyMovesFrame(l, moved, t.families, migrate, p.current);
    FamilyMovesFrame(l, moved, t.families, migrate, p.legacy);
    SettingsApart(l, VERSION, p.current);
    SettingsApart(l, VERSION, p.legacy);
    GetSetOther(grouped, VERSION, Int(8), p.current);
    GetSetOther(grouped, VERSION, Int(8), p.legacy);
  }

  lemma MigratedAliases(t: Table, s: set<Path>, d: Node)
    requires TableOk(t, s)
    ensures forall i | 0 <= i < |t.aliases| :: Get(Rewritten(t, d, true), t.aliases[i].legacy).None?
  {
    hide ContainersOk, StructsBetween, MovePass, FamilyMoves, Leaves, Antichain;
    var l, aliased := Leaves(t, s), MovePass(d, t.aliases, true);
    TableGivesLeaves(t, s);
    assert t.aliases[0..] == t.aliases;
    AliasMovesKeep(s, d, t.aliases, 0, true, VERSION);
    forall i | 0 <= i < |t.aliases| ensures Get(Rewritten(t, d, true), t.aliases[i].legacy).None? {
      var x := t.aliases[i].legacy;
      assert LegacyGet(aliased, x) == Get(aliased, x);
      MovePassFrame(l, aliased, t.paths, true, x);
      FamilyMovesFrame(s, Moved(t, d, true), t.families, true, x);
      SettingsApart(s, VERSION, x);
      GetSetOther(FamilyMoves(Moved(t, d, true), t.families, true), VERSION, Int(8), x);
    }
  }

  lemma LeafUntouched(t: Table, s: set<Path>, d: Node, k: nat)
    requires TableOk(t, s) && k < |t.paths|
    ensures Get(MovePass(d, t.aliases, false), t.paths[k].current) == Get(d, t.paths[k].current)
  {
    hide ContainersOk, StructsBetween, MovePass, FamilyMoves, Antichain, FamiliesOk;
    var a := Anchor(t.aliases, t.paths[k].current);
    assert AnchorRows(t)[k].current == a;
    RowsWithin(t, s, k);
    RemovalsSpare(s, d, t.aliases, a);
    GetThrough(d, a, t.paths[k].current);
    GetThrough(MovePass(d, t.aliases, false), a, t.paths[k].current);
  }

  /**
   Normalizing leaves no setting in two spellings; a migration leaves none in the legacy spelling or an
   alias, and marks the document as version 8.
   */
  lemma NormalizeLeavesOne(t: Table, s: set<Path>, d: Node, migrate: bool, k: nat)
    requires TableOk(t, s) && Regular(t, d) && Flatten(t, d).Ok? && k < |t.paths|
    ensures Normalize(t, d, migrate).Ok?
    ensures var n, p := Normalize(t, d, migrate).value, t.paths[k];
      && (migrate || Get(n, p.current).Some? ==> LegacyGet(n, p.legacy).None?)
      && (!migrate ==> Get(n, p.current) == Get(d, p.current))
      && (migrate ==> Get(n, VERSION) == Some(Int(8)) && forall i | 0 <= i < |t.aliases| :: Get(n, t.aliases[i].legacy).None?)
  {
    hide ContainersOk, FamiliesOk, StructsBetween, Antichain, MovePass, FamilyMoves, Leaves, Flatten, Normalize, Regular;
    NormalizeRegular(t, d, migrate);
    var l, p := Leaves(t, s), t.paths[k];
    TableGivesLeaves(t, s);
    var aliased := MovePass(d, t.aliases, migrate);
    assert t.paths[0..] == t.paths;
    MovesLeaveOne(t, s, aliased, 0, migrate, k);
    var moved := MovePass(aliased, t.paths, migrate);
    TailSpares(t, s, moved, migrate, k);
    if migrate {
      MigratedAliases(t, s, d);
      GetSetSame(FamilyMoves(moved, t.families, migrate), VERSION, Int(8));
    } else {
      LeafUntouched(t, s, d, k);
    }
  }
}
