/** The conditions that the preservation theorem puts on a path table, met by rows of the program's own table. */
module ConfigSample {
  import opened Options
  import opened ConfigTree
  import opened ConfigLayout
  import opened ConfigMeaning
  import opened ConfigLaws
  import KeyGroups

  /** What the legacy paths, aliases and anchors of the sample are. */
  const SETTINGS: seq<Path> := [
    VERSION, API_KEYS, ["access", "api-keys"],
    ["codex", "cache-affinity", "strategy"], ["upstream", "codex", "cache-affinity"],
    ["xai", "inject-x-search"], ["upstream", "xai", "inject-x-search"],
    ["oauth", "providers", "codex", "cache-affinity"], ["oauth", "providers", "xai", "inject-x-search"],
    ["providers", "codex", "optimize-multi-agent-v2"], ["client", "codex", "optimize-multi-agent-v2"],
    ["gemini-api-key"]]

  /** The one leaf in the struct that an alias moves as a whole. */
  const STRATEGY: Path := ["upstream", "codex", "cache-affinity", "strategy"]

  /**
   Rows of every kind: settings with and without an alias, a setting in a struct that an alias moves
   as a whole, an alias of a setting that never moves, struct containers, a key family.
   */
  const SAMPLE: Table := Table(
    [Move(SETTINGS[1], SETTINGS[2]), Move(SETTINGS[3], STRATEGY), Move(SETTINGS[5], SETTINGS[6])],
    [Move(SETTINGS[7], SETTINGS[4]), Move(SETTINGS[8], SETTINGS[6]), Move(SETTINGS[9], SETTINGS[10])],
    [Move(["codex"], ["oauth", "providers", "codex"]), Move(["codex", "cache-affinity"], SETTINGS[4]), Move(["xai"], ["upstream", "xai"])],
    [Move(["oauth", "providers", "xai"], ["upstream", "xai"])],
    [Family(SETTINGS[11], "gemini")])

  ghost predicate PairwiseApart(p: seq<Path>) {
    && (forall i | 0 <= i < |p| :: p[i] != [])
    && (forall i, j | 0 <= i < j < |p| :: Incomparable(p[i], p[j]))
  }

  function Elements(p: seq<Path>): set<Path> {
    set i | 0 <= i < |p| :: p[i]
  }

  lemma ElementsApart(p: seq<Path>)
    requires PairwiseApart(p)
    ensures Antichain(Elements(p))
    ensures NoTwoEqual(p)
  {
    forall x, y | x in Elements(p) && y in Elements(p) && x != y ensures Incomparable(x, y) {
      var i :| 0 <= i < |p| && p[i] == x;
      var j :| 0 <= j < |p| && p[j] == y;
      assert i < j || j < i;
    }
  }

  /** What is below one of two unrelated paths is unrelated to the other. */
  lemma BelowApart(a: Path, b: Path, c: Path)
    requires Incomparable(a, b) && a <= c
    ensures Incomparable(c, b)
  {
    assert b <= c ==> a <= b || b <= a;
  }

  /** The rows of the sample, over any twelve unrelated settings. */
  ghost predicate Rows(t: Table, p: seq<Path>, leaf: Path) {
    && |p| == 12 && p[0] == VERSION && p[1] == API_KEYS
    && t.paths == [Move(p[1], p[2]), Move(p[3], leaf), Move(p[5], p[6])]
    && t.aliases == [Move(p[7], p[4]), Move(p[8], p[6]), Move(p[9], p[10])]
    && |t.families| == 1 && t.families[0].legacy == p[11]
    && |leaf| == |p[4]| + 1 && p[4] < leaf
  }

  lemma AnchorNone(aliases: seq<Move>, c: Path)
    requires |aliases| == 3 && Incomparable(c, aliases[0].current) && Incomparable(c, aliases[1].current) && Incomparable(c, aliases[2].current)
    ensures Anchor(aliases, c) == c
  {
    var a := Anchor(aliases, c);
  }

  lemma AnchorSecond(aliases: seq<Move>)
    requires |aliases| == 3 && Incomparable(aliases[1].current, aliases[0].current)
    ensures Anchor(aliases, aliases[1].current) == aliases[1].current
  {
    assert aliases[1..][0] == aliases[1];
  }

  lemma AnchorFirst(aliases: seq<Move>, c: Path)
    requires aliases != [] && aliases[0].current <= c
    ensures Anchor(aliases, c) == aliases[0].current
  {}

  lemma ApartAt(p: seq<Path>, i: nat, j: nat)
    requires PairwiseApart(p) && i < |p| && j < |p| && i != j
    ensures Incomparable(p[i], p[j])
  {
    assert i < j ==> Incomparable(p[i], p[j]);
    assert j < i ==> Incomparable(p[j], p[i]);
  }

  lemma RowAnchors(t: Table, p: seq<Path>, leaf: Path)
    requires Rows(t, p, leaf) && PairwiseApart(p)
    ensures AnchorRows(t) == [Move(p[1], p[2]), Move(p[3], p[4]), Move(p[5], p[6])]
  {
    hide PairwiseApart, Anchor, Incomparable;
    ApartAt(p, 2, 4);
    ApartAt(p, 2, 6);
    ApartAt(p, 2, 10);
    ApartAt(p, 6, 4);
    AnchorNone(t.aliases, p[2]);
    AnchorSecond(t.aliases);
    AnchorFirst(t.aliases, leaf);
  }

  ghost predicate NoTwoEqual(p: seq<Path>) {
    forall i, j | 0 <= i < j < |p| :: p[i] != p[j]
  }

  lemma RowRoles(t: Table, p: seq<Path>, leaf: Path, rows: seq<Move>)
    requires Rows(t, p, leaf) && NoTwoEqual(p) && rows == [Move(p[1], p[2]), Move(p[3], p[4]), Move(p[5], p[6])]
    ensures Apart(rows, rows) && Apart(t.aliases, rows) && Apart(t.paths, t.aliases)
    ensures LegacyDistinct(t.aliases) && Apart(t.aliases, t.aliases) && LegacyDistinct(t.paths) && NotLegacy(t.paths, VERSION)
    ensures forall i, j | 0 <= i < |t.aliases| && 0 <= j < |t.paths| :: t.aliases[i].legacy != t.paths[j].legacy
  {
  }

  lemma RowReserved(t: Table, p: seq<Path>, leaf: Path, k: nat)
    requires Rows(t, p, leaf) && NoTwoEqual(p) && AnchorRows(t) == [Move(p[1], p[2]), Move(p[3], p[4]), Move(p[5], p[6])]
    requires k == 0 || k == 1 || k == 11
    ensures Reserved(t, p[k]) && (k == 11 ==> NotLegacy(t.paths, p[k]) && p[k] != VERSION && p[k] != API_KEYS)
  {
  }

  lemma RowLeaves(t: Table, p: seq<Path>, leaf: Path)
    requires Rows(t, p, leaf) && PairwiseApart(p)
    ensures CurrentsApart(t.paths)
  {
    hide PairwiseApart, Incomparable;
    ApartAt(p, 4, 2);
    ApartAt(p, 4, 6);
    ApartAt(p, 2, 6);
    BelowApart(p[4], p[2], leaf);
    BelowApart(p[4], p[6], leaf);
    ApartFlips(leaf, p[2]);
  }

  lemma ApartFlips(p: Path, q: Path)
    ensures Incomparable(p, q) <==> Incomparable(q, p)
  {}

  lemma RowBetween(t: Table, p: seq<Path>, leaf: Path)
    requires Rows(t, p, leaf) && IsStruct(t, p[4])
    requires AnchorRows(t) == [Move(p[1], p[2]), Move(p[3], p[4]), Move(p[5], p[6])]
    ensures StructsBetween(t)
  {
    hide IsStruct, Anchor;
    assert leaf[..|p[4]|] == p[4];
    forall i, k | 0 <= i < |t.paths| && |Anchor(t.aliases, t.paths[i].current)| <= k < |t.paths[i].current|
      ensures IsStruct(t, t.paths[i].current[..k])
    {
      assert AnchorRows(t)[i].current == Anchor(t.aliases, t.paths[i].current);
      assert i == 1;
    }
  }

  /** The conditions on a table come down to settings that are unrelated and containers that lie above them. */
  lemma RowsOk(t: Table, p: seq<Path>, leaf: Path)
    requires Rows(t, p, leaf) && PairwiseApart(p) && ProperTable(t)
    requires ContainersOk(t, Elements(p)) && IsStruct(t, p[4])
    ensures TableOk(t, Elements(p))
  {
    hide Antichain, ContainersOk, ProperTable, IsStruct, PairwiseApart, NoTwoEqual, StructsBetween, CurrentsApart, Apart, LegacyDistinct, NotLegacy, Reserved;
    var s := Elements(p);
    assert forall i | 0 <= i < 12 :: p[i] in s;
    RowAnchors(t, p, leaf);
    ElementsApart(p);
    RowLeaves(t, p, leaf);
    RowBetween(t, p, leaf);
    RowRoles(t, p, leaf, AnchorRows(t));
    RowReserved(t, p, leaf, 0);
    RowReserved(t, p, leaf, 1);
    RowReserved(t, p, leaf, 11);
    assert VERSION != API_KEYS by {
      assert VERSION[0][0] == 'c' && API_KEYS[0][0] == 'a';
    }
  }

  lemma SampleHeads()
    ensures forall i, j | 0 <= i < j < 12 && !(i == 4 && j == 6) && !(i == 7 && j == 8) :: SETTINGS[i][0] != SETTINGS[j][0]
  {
    assert SETTINGS[0][0] == "config-version" && |SETTINGS[0][0]| == 14 && SETTINGS[0][0][0] == 'c';
    assert SETTINGS[1][0] == "api-keys" && |SETTINGS[1][0]| == 8 && SETTINGS[1][0][0] == 'a';
    assert SETTINGS[2][0] == "access" && |SETTINGS[2][0]| == 6 && SETTINGS[2][0][0] == 'a';
    assert SETTINGS[3][0] == "codex" && |SETTINGS[3][0]| == 5 && SETTINGS[3][0][0] == 'c';
    assert SETTINGS[4][0] == "upstream" && |SETTINGS[4][0]| == 8 && SETTINGS[4][0][0] == 'u';
    assert SETTINGS[5][0] == "xai" && |SETTINGS[5][0]| == 3;
    assert SETTINGS[6][0] == "upstream" && |SETTINGS[6][0]| == 8 && SETTINGS[6][0][0] == 'u';
    assert SETTINGS[7][0] == "oauth" && |SETTINGS[7][0]| == 5 && SETTINGS[7][0][0] == 'o';
    assert SETTINGS[8][0] == "oauth" && |SETTINGS[8][0]| == 5 && SETTINGS[8][0][0] == 'o';
    assert SETTINGS[9][0] == "providers" && |SETTINGS[9][0]| == 9;
    assert SETTINGS[10][0] == "client" && |SETTINGS[10][0]| == 6 && SETTINGS[10][0][0] == 'c';
    assert SETTINGS[11][0] == "gemini-api-key" && |SETTINGS[11][0]| == 14 && SETTINGS[11][0][0] == 'g';
  }

  lemma DifferAt(p: Path, q: Path, i: nat)
    requires i < |p| && i < |q| && p[i] != q[i]
    ensures Incomparable(p, q)
  {}

  lemma SampleApart()
    ensures PairwiseApart(SETTINGS)
  {
    var p := SETTINGS;
    assert |"codex"| == 5 && |"xai"| == 3;
    assert p[4][1] == "codex" && p[6][1] == "xai" && p[7][2] == "codex" && p[8][2] == "xai";
    assert forall i | 0 <= i < 12 :: p[i] != [];
    SampleHeads();
    forall i, j | 0 <= i < j < |p| ensures Incomparable(p[i], p[j]) {
      DifferAt(p[i], p[j], if i == 4 && j == 6 then 1 else if i == 7 && j == 8 then 2 else 0);
    }
  }

  lemma ContainerAt(s: set<Path>, p: Path, k: nat, a: Path)
    requires Antichain(s) && p in s && 0 < k < |p| && a == p[..k]
    ensures Container(s, a)
  {
    ParentIsContainer(s, p, k);
  }

  /** The conditions of the preservation theorems, met by rows of the program's own table. */
  lemma SampleIsOk()
    ensures TableOk(SAMPLE, Elements(SETTINGS))
  {
    hide Container, TableOk, Antichain, PairwiseApart;
    SampleApart();
    SampleContainers();
    assert ProperTable(SAMPLE);
    assert IsStruct(SAMPLE, SETTINGS[4]) by {
      assert SAMPLE.structs[1].current == SETTINGS[4];
    }
    RowsOk(SAMPLE, SETTINGS, STRATEGY);
  }

  lemma SampleStructs(s: set<Path>)
    requires s == Elements(SETTINGS) && Antichain(s)
    ensures Container(s, ["codex"]) && Container(s, ["codex", "cache-affinity"]) && Container(s, ["xai"])
    ensures Container(s, ["oauth", "providers", "codex"]) && Container(s, ["upstream", "xai"]) && Container(s, ["oauth", "providers", "xai"])
  {
    hide Container, Antichain;
    var p := SETTINGS;
    assert forall i | 0 <= i < 12 :: p[i] in s;
    ContainerAt(s, p[3], 1, ["codex"]);
    ContainerAt(s, p[3], 2, ["codex", "cache-affinity"]);
    ContainerAt(s, p[5], 1, ["xai"]);
    ContainerAt(s, p[7], 3, ["oauth", "providers", "codex"]);
    ContainerAt(s, p[6], 2, ["upstream", "xai"]);
    ContainerAt(s, p[8], 3, ["oauth", "providers", "xai"]);
  }

  lemma SampleContainers()
    ensures ContainersOk(SAMPLE, Elements(SETTINGS))
  {
    hide Container, Antichain, PairwiseApart, Leaves, Anchor, Elements;
    var p, s := SETTINGS, Elements(SETTINGS);
    SampleApart();
    ElementsApart(p);
    SampleStructs(s);
    assert Within(s, AnchorRows(SAMPLE)) by {
      RowAnchors(SAMPLE, p, STRATEGY);
      SampleMembers();
    }
    ContainerOfLeaves(SAMPLE, s, ["oauth", "providers", "codex"]);
    ContainerOfLeaves(SAMPLE, s, ["upstream", "xai"]);
    assert HasAlias(SAMPLE, p[4]) by {
      assert SAMPLE.aliases[0].current == p[4];
    }
    SampleMembers();
    AnchorIsContainer(SAMPLE, s, p[4], 1);
  }

  lemma SampleMembers()
    ensures forall i | 0 <= i < 12 :: SETTINGS[i] in Elements(SETTINGS)
  {}

  /** An anchor above a leaf is a container for the settings proper. */
  lemma AnchorIsContainer(t: Table, s: set<Path>, a: Path, k: nat)
    requires Antichain(s) && a in s && Within(s, AnchorRows(t)) && k < |t.paths| && a < t.paths[k].current
    requires forall i | 0 <= i < |t.paths| :: t.paths[i].current != a
    ensures Container(Leaves(t, s), a)
  {
    assert AboveLeaf(t, a);
    forall i | 0 <= i < |t.paths| ensures !(t.paths[i].current <= a) {
      var b := AnchorRows(t)[i].current;
      assert b in s && b <= t.paths[i].current;
      hide Anchor, AboveLeaf;
      assert b == a || Incomparable(b, a);
    }
    forall x | x in s && !AboveLeaf(t, x) ensures !(x <= a) {
      assert Incomparable(x, a);
    }
  }

  ghost predicate OnlyKeys(d: Node) {
    d.Map? && forall p: Path | p != [] && p[0] != "gemini-api-key" :: Get(d, p).None?
  }

  lemma SampleRegular(d: Node)
    requires OnlyKeys(d)
    ensures Regular(SAMPLE, d) && ShapeOk(SAMPLE, d, SAMPLE.paths) && ShapeOk(SAMPLE, d, SAMPLE.aliases) && VersionOk(d)
    ensures Get(d, GroupPath(SAMPLE.families[0])).None?
  {
    hide Get;
    SampleHeads();
    assert |"gemini-api-key"| == 14 && |"codex"| == 5 && |"xai"| == 3 && |"oauth"| == 5 && |"upstream"| == 8;
  }

  lemma SampleDocument(s: set<Path>, d: Node)
    requires TableOk(SAMPLE, s)
    requires d == Map(map["gemini-api-key" := List([Text("key")])])
    ensures ProperTable(SAMPLE) && Regular(SAMPLE, d) && Flatten(SAMPLE, d).Ok?
  {
    hide TableOk, Flatten, FamilyPass, PathPass, AliasPass, DropGroups, Regular, ShapeOk, VersionOk;
    TableIsProper(SAMPLE, s);
    assert OnlyKeys(d);
    SampleRegular(d);
    FlattenRegular(SAMPLE, s, d);
    FamilyPassOk(PathPass(DropGroups(AliasPass(d, SAMPLE.aliases)), SAMPLE.paths), d, SAMPLE.families);
  }

  /** A key list with a bare string in it flattens in the legacy layout, and no longer does once migrated. */
  lemma BareKeyBreaksMigration(d: Node)
    requires d == Map(map["gemini-api-key" := List([Text("key")])])
    ensures ProperTable(SAMPLE) && Flatten(SAMPLE, d).Ok?
    ensures Normalize(SAMPLE, d, true).Ok? && Flatten(SAMPLE, Normalize(SAMPLE, d, true).value).Err?
  {
    var keys, s := List([Text("key")]), Elements(SETTINGS);
    hide TableOk, Flatten, Normalize;
    SampleIsOk();
    assert ProperTable(SAMPLE) by {
      TableIsProper(SAMPLE, s);
    }
    SampleDocument(s, d);
    MigrationFlattensIff(SAMPLE, s, d, true);
    assert SAMPLE.families[0].legacy == ["gemini-api-key"];
    assert Get(d, SAMPLE.families[0].legacy) == Some(keys) by {
      assert ["gemini-api-key"][1..] == [];
    }
    assert Get(d, GroupPath(SAMPLE.families[0])).None?;
    assert "gemini" != KeyGroups.COMPAT;
    assert !KeyGroups.Groupable(keys.items[0], "gemini");
    assert KeyList(keys)[0] == keys.items[0];
  }

  /** A document that spells nothing but `o`, and spells it as a number. */
  ghost predicate Spells(d: Node, o: Path) {
    d.Map? && Get(d, o) == Some(Int(5)) && forall x | Incomparable(x, o) :: Get(d, x).None?
  }

  function Document(o: Path): Node {
    Set(Map(map[]), o, Int(5))
  }

  lemma DocumentSpells(o: Path)
    requires o != []
    ensures Spells(Document(o), o)
  {
    GetSetSame(Map(map[]), o, Int(5));
    forall x | Incomparable(x, o) ensures Get(Document(o), x).None? {
      GetSetOther(Map(map[]), o, Int(5), x);
    }
  }

  lemma SpellsIt(d: Node, o: Path)
    requires Spells(d, o)
    ensures d.Map? && Get(d, o) == Some(Int(5))
  {}

  lemma UnspelledAt(d: Node, o: Path, x: Path, i: nat)
    requires Spells(d, o) && i < |x| && i < |o| && x[i] != o[i]
    ensures Get(d, x).None?
  {
    DifferAt(x, o, i);
  }

  lemma UnspelledShape(t: Table, d: Node, o: Path, ms: seq<Move>)
    requires Spells(d, o) && o != [] && forall i | 0 <= i < |ms| :: ms[i].current != [] && ms[i].current[0] != o[0]
    ensures ShapeOk(t, d, ms)
  {
    forall i, k | 0 <= i < |ms| && 0 < k < |ms[i].current|
      ensures ParentFine(t, Get(d, ms[i].current[..k]), ms[i].current[..k])
    {
      UnspelledAt(d, o, ms[i].current[..k], 0);
    }
  }

  lemma SampleCurrentHeads()
    ensures forall i | 0 <= i < 3 :: SAMPLE.paths[i].current[0] != SETTINGS[7][0] && SAMPLE.aliases[i].current[0] != SETTINGS[7][0]
  {
    SampleHeads();
    assert STRATEGY[0] == SETTINGS[4][0];
  }

  lemma SettingsUnspelled(d: Node, p: seq<Path>)
    requires |p| == 12 && PairwiseApart(p) && Spells(d, p[7])
    ensures forall i | 0 <= i < 12 && i != 7 :: Get(d, p[i]).None?
  {
    hide Get, PairwiseApart, Incomparable;
    forall i | 0 <= i < 12 && i != 7 ensures Get(d, p[i]).None? {
      ApartAt(p, i, 7);
    }
  }

  lemma StructsUnspelled(d: Node)
    requires Spells(d, SETTINGS[7])
    ensures Get(d, ["codex"]).None? && Get(d, ["codex", "cache-affinity"]).None? && Get(d, ["xai"]).None? && Get(d, ["upstream", "xai"]).None?
    ensures Get(d, ["oauth", "providers", "xai"]).None? && Get(d, GroupPath(SAMPLE.families[0])).None?
    ensures Filled(Get(d, ["oauth", "providers", "codex"]))
  {
    hide Get, Spells;
    var o := SETTINGS[7];
    assert |"codex"| == 5 && |"xai"| == 3 && "codex"[0] == 'c' && "oauth"[0] == 'o' && "upstream"[0] == 'u' && "api-keys"[0] == 'a';
    UnspelledAt(d, o, ["codex"], 0);
    UnspelledAt(d, o, ["codex", "cache-affinity"], 0);
    UnspelledAt(d, o, ["xai"], 0);
    UnspelledAt(d, o, ["upstream", "xai"], 0);
    UnspelledAt(d, o, ["oauth", "providers", "xai"], 2);
    UnspelledAt(d, o, GroupPath(SAMPLE.families[0]), 0);
    SpellsIt(d, o);
    PresentBelow(d, ["oauth", "providers", "codex"], o);
  }

  /** A number is not blank, and has nothing below it. */
  lemma NumberNotBlank(p: Path)
    ensures NotBlankIn(Some(Int(5)), p) && NotBlankIn(None, p)
  {}

  lemma ScalarAliases(t: Table, p: seq<Path>, leaf: Path, d: Node)
    requires Rows(t, p, leaf) && PairwiseApart(p) && Spells(d, p[7])
    ensures NoBlankAliases(t, d)
  {
    hide Get, Spells, NotBlankIn, PairwiseApart;
    SettingsUnspelled(d, p);
    SpellsIt(d, p[7]);
    forall i, j | 0 <= i < |t.aliases| && 0 <= j < |t.structs| && t.aliases[i].current <= t.structs[j].current
      ensures NotBlankIn(Get(d, t.aliases[i].legacy), t.structs[j].current[|t.aliases[i].current|..])
    {
      NumberNotBlank(t.structs[j].current[|t.aliases[i].current|..]);
    }
  }

  lemma ScalarRegular(d: Node)
    requires Spells(d, SETTINGS[7])
    ensures Regular(SAMPLE, d)
  {
    hide Get, Spells, NoBlankAliases, PairwiseApart;
    SampleApart();
    ScalarAliases(SAMPLE, SETTINGS, STRATEGY, d);
    StructsUnspelled(d);
    SettingsUnspelled(d, SETTINGS);
  }

  /** In the rows of the sample, the scalar at the first alias has no legacy setting to take its place. */
  lemma ScalarStays(t: Table, p: seq<Path>, leaf: Path, d: Node)
    requires Rows(t, p, leaf) && PairwiseApart(p) && Spells(d, p[7])
    ensures !ScalarsOverlaid(t, d)
  {
    hide PairwiseApart, Incomparable;
    var a := p[4];
    SettingsUnspelled(d, p);
    AnchorFirst(t.aliases, leaf);
    assert leaf[..|a|] == a && a[|a|..] == [];
    assert t.aliases[0] == Move(p[7], a);
    assert FirstAlias(d, t.aliases, a) == Some(Int(5));
    assert Resolved(t, d, a, a) == Some(Int(5));
    assert !LegacyBelow(t, d, a) by {
      ApartAt(p, 4, 2);
      ApartAt(p, 4, 6);
      NotBelow(a, p[2]);
      NotBelow(a, p[6]);
    }
    assert t.paths[1].current[..|a|] == a;
  }

  lemma NotBelow(a: Path, b: Path)
    requires Incomparable(a, b)
    ensures !(a < b)
  {}

  /** A number that an alias spells in the place of a struct flattens, and no longer does once migrated. */
  lemma ScalarBreaksMigration() returns (d: Node)
    ensures d == Document(["oauth", "providers", "codex", "cache-affinity"])
    ensures ProperTable(SAMPLE) && Flatten(SAMPLE, d).Ok?
    ensures Normalize(SAMPLE, d, true).Ok? && Flatten(SAMPLE, Normalize(SAMPLE, d, true).value).Err?
  {
    hide TableOk, Flatten, Normalize, FamilyPass, PathPass, AliasPass, DropGroups, Regular, ShapeOk, Spells, ScalarsOverlaid, Get, Document;
    var s, o := Elements(SETTINGS), SETTINGS[7];
    d := Document(o);
    DocumentSpells(o);
    SampleIsOk();
    TableIsProper(SAMPLE, s);
    ScalarRegular(d);
    SampleCurrentHeads();
    UnspelledShape(SAMPLE, d, o, SAMPLE.paths);
    UnspelledShape(SAMPLE, d, o, SAMPLE.aliases);
    SampleApart();
    SettingsUnspelled(d, SETTINGS);
    StructsUnspelled(d);
    SpellsIt(d, o);
    FlattenRegular(SAMPLE, s, d);
    FamilyPassOk(PathPass(DropGroups(AliasPass(d, SAMPLE.aliases)), SAMPLE.paths), d, SAMPLE.families);
    MigrationFlattensIff(SAMPLE, s, d, true);
    ScalarStays(SAMPLE, SETTINGS, STRATEGY, d);
  }

  /** Two structs that share one current container */

  const CLAUDE_SETTINGS: seq<Path> := [
    VERSION, API_KEYS,
    ["claude-code", "disable-cloaking-model-list"], ["upstream", "claude", "disable-cloaking-model-list"],
    ["claude", "model-level-cooling"], ["upstream", "claude", "model-level-cooling"]]

  const CLAUDE: Table := Table(
    [Move(CLAUDE_SETTINGS[2], CLAUDE_SETTINGS[3]), Move(CLAUDE_SETTINGS[4], CLAUDE_SETTINGS[5])],
    [],
    [Move(["claude-code"], ["upstream", "claude"]), Move(["claude"], ["upstream", "claude"])],
    [], [])

  lemma ClaudeApart()
    ensures PairwiseApart(CLAUDE_SETTINGS)
  {
    var p := CLAUDE_SETTINGS;
    assert p[0][0] == "config-version" && |p[0][0]| == 14;
    assert p[1][0] == "api-keys" && |p[1][0]| == 8 && p[1][0][0] == 'a';
    assert p[2][0] == "claude-code" && |p[2][0]| == 11;
    assert p[3][0] == "upstream" && |p[3][0]| == 8 && p[3][0][0] == 'u' && |p[3][2]| == 27;
    assert p[4][0] == "claude" && |p[4][0]| == 6;
    assert p[5][0] == "upstream" && |p[5][0]| == 8 && p[5][0][0] == 'u' && |p[5][2]| == 19;
    forall i, j | 0 <= i < j < |p| ensures Incomparable(p[i], p[j]) {
      DifferAt(p[i], p[j], if i == 3 && j == 5 then 2 else 0);
    }
  }

  /** Rows without aliases over unrelated settings. */
  lemma PlainRowsOk(t: Table, p: seq<Path>)
    requires |p| == 6 && PairwiseApart(p) && p[0] == VERSION && p[1] == API_KEYS
    requires t.paths == [Move(p[2], p[3]), Move(p[4], p[5])] && t.aliases == [] && t.sharedStructs == [] && t.families == []
    requires ProperTable(t) && ContainersOk(t, Elements(p))
    ensures TableOk(t, Elements(p))
  {
    hide Antichain, ContainersOk, ProperTable;
    ElementsApart(p);
    assert forall i | 0 <= i < 6 :: p[i] in Elements(p);
    assert AnchorRows(t) == t.paths;
    ApartAt(p, 3, 5);
    hide PairwiseApart;
  }

  lemma ClaudeIsOk()
    ensures TableOk(CLAUDE, Elements(CLAUDE_SETTINGS))
  {
    hide Container, TableOk, Antichain, PairwiseApart, Leaves;
    var p, s := CLAUDE_SETTINGS, Elements(CLAUDE_SETTINGS);
    ClaudeApart();
    ElementsApart(p);
    assert forall i | 0 <= i < 6 :: p[i] in s;
    ContainerAt(s, p[2], 1, ["claude-code"]);
    ContainerAt(s, p[4], 1, ["claude"]);
    ContainerAt(s, p[3], 2, ["upstream", "claude"]);
    assert AnchorRows(CLAUDE) == CLAUDE.paths;
    ContainerOfLeaves(CLAUDE, s, ["upstream", "claude"]);
    PlainRowsOk(CLAUDE, p);
  }

  function TwoSpellings(legacy: Path, container: Path): Node {
    Set(Set(Map(map[]), legacy, Int(1)), container, Null)
  }

  lemma TwoSpellingsAre(legacy: Path, container: Path)
    requires Incomparable(legacy, container) && container != []
    ensures var d := TwoSpellings(legacy, container);
      && d.Map? && Get(d, legacy) == Some(Int(1)) && Get(d, container) == Some(Null)
      && forall x | Incomparable(x, legacy) && Incomparable(x, container) :: Get(d, x).None?
  {
    var first := Set(Map(map[]), legacy, Int(1));
    GetSetSame(Map(map[]), legacy, Int(1));
    GetSetSame(first, container, Null);
    GetSetOther(first, container, Null, legacy);
    forall x | Incomparable(x, legacy) && Incomparable(x, container) ensures Get(TwoSpellings(legacy, container), x).None? {
      GetSetOther(Map(map[]), legacy, Int(1), x);
      GetSetOther(first, container, Null, x);
    }
  }

  /** `upstream.claude: null` does not reset `claude.model-level-cooling`: an earlier struct row has taken the container away. */
  lemma SecondStructNotReset() returns (d: Node)
    ensures d == TwoSpellings(["claude", "model-level-cooling"], ["upstream", "claude"])
    ensures ProperTable(CLAUDE) && Flatten(CLAUDE, d).Ok?
    ensures Blank(Get(d, CLAUDE.structs[1].current)) && CLAUDE.structs[1].legacy < ["claude", "model-level-cooling"]
    ensures Get(Flatten(CLAUDE, d).value, ["claude", "model-level-cooling"]) == Some(Int(1))
  {
    hide TableOk, Get, Set, TwoSpellings, Flatten;
    var s, c, leaf := Elements(CLAUDE_SETTINGS), ["upstream", "claude"], ["claude", "model-level-cooling"];
    assert "upstream"[0] == 'u' && "claude"[0] == 'c' && "api-keys"[0] == 'a' && |"claude"| == 6 && |"claude-code"| == 11 && |"config-version"| == 14;
    DifferAt(leaf, c, 0);
    TwoSpellingsAre(leaf, c);
    d := TwoSpellings(leaf, c);
    ClaudeIsOk();
    TableIsProper(CLAUDE, s);
    DifferAt(VERSION, leaf, 0);
    DifferAt(VERSION, c, 0);
    DifferAt(API_KEYS, leaf, 0);
    DifferAt(API_KEYS, c, 0);
    ClaudeFlattens(d);
    FlattenResets(CLAUDE, s, d, 1);
    assert !(CLAUDE.structs[0].legacy < CLAUDE.paths[1].legacy);
    assert !Resets(CLAUDE, d, 1);
    assert CurrentLeaf(d, [], CLAUDE.paths[1].current).None? by {
      NothingInBlank(d, c, CLAUDE.paths[1].current);
      LeafWithoutAlias(d, [], CLAUDE.paths[1].current);
    }
  }

  lemma ClaudeFlattens(d: Node)
    requires d.Map? && Get(d, ["upstream", "claude"]) == Some(Null) && Get(d, VERSION).None? && ProperTable(CLAUDE)
    ensures Flatten(CLAUDE, d).Ok?
  {
    hide Get, PathPass, StructPass, DropGroups;
    var c := ["upstream", "claude"];
    PresentBelow(d, ["upstream"], c);
    forall i, k | 0 <= i < 2 && 0 < k < |CLAUDE.paths[i].current|
      ensures ParentFine(CLAUDE, Get(d, CLAUDE.paths[i].current[..k]), CLAUDE.paths[i].current[..k])
    {
      var q := CLAUDE.paths[i].current[..k];
      if k == 1 {
        assert q == ["upstream"];
      } else {
        assert q == c && CLAUDE.structs[0].current == q;
      }
    }
  }
}
