/**
 What a document means, whichever layout it uses, and the proof that flattening computes that
 meaning and that normalizing the layout preserves it.
 */
module ConfigMeaning {
  import opened Options
  import opened ConfigTree
  import opened ConfigLayout
  import KeyGroups

  /** Tables whose settings do not overlap */

  /** No setting lies above another. */
  ghost predicate Antichain(s: set<Path>) {
    [] !in s && forall p, q | p in s && q in s && p != q :: Incomparable(p, q)
  }

  ghost predicate Within(s: set<Path>, ms: seq<Move>) {
    forall i | 0 <= i < |ms| :: ms[i].legacy in s && ms[i].current in s
  }

  ghost predicate LegacyDistinct(ms: seq<Move>) {
    forall i, j | 0 <= i < j < |ms| :: ms[i].legacy != ms[j].legacy
  }

  ghost predicate CurrentDistinct(ms: seq<Move>) {
    forall i, j | 0 <= i < j < |ms| :: ms[i].current != ms[j].current
  }

  ghost predicate Apart(ms: seq<Move>, ns: seq<Move>) {
    forall i, j | 0 <= i < |ms| && 0 <= j < |ns| :: ms[i].legacy != ns[j].current
  }

  ghost predicate NotLegacy(ms: seq<Move>, x: Path) {
    forall i | 0 <= i < |ms| :: ms[i].legacy != x
  }

  ghost predicate NotCurrent(ms: seq<Move>, x: Path) {
    forall i | 0 <= i < |ms| :: ms[i].current != x
  }

  /** The alias spellings */

  /** The first alias of `c`, in table order, that the document spells. */
  function FirstAlias(root: Node, ms: seq<Move>, c: Path): Option<Node>
    decreases ms
  {
    if ms == [] then None
    else if ms[0].current == c && Get(root, ms[0].legacy).Some? then Get(root, ms[0].legacy)
    else FirstAlias(root, ms[1..], c)
  }

  /** The current spelling wins by presence, then the aliases in table order. */
  function CurrentValue(root: Node, aliases: seq<Move>, c: Path): Option<Node> {
    if Get(root, c).Some? then Get(root, c) else FirstAlias(root, aliases, c)
  }

  /** The path at or above `c` that an alias row moves as a whole; `c` itself if there is none. */
  function Anchor(aliases: seq<Move>, c: Path): (a: Path)
    ensures a <= c && (a == c || exists i :: 0 <= i < |aliases| && aliases[i].current == a)
    decreases aliases
  {
    if aliases == [] then c
    else if aliases[0].current <= c then assert aliases[0] in aliases; aliases[0].current
    else
      var a := Anchor(aliases[1..], c);
      assert forall i :: 0 <= i < |aliases[1..]| ==> aliases[1..][i] == aliases[i + 1];
      a
  }

  /** The value of `c` in what stands at its anchor: the current spelling if present, else the first alias. */
  function CurrentLeaf(root: Node, aliases: seq<Move>, c: Path): Option<Node> {
    var a := Anchor(aliases, c);
    var v := CurrentValue(root, aliases, a);
    if v.Some? then Get(v.value, c[|a|..]) else None
  }

  /** The effective value of a setting: current spelling, aliases, legacy spelling. */
  function Effective(t: Table, root: Node, m: Move): Option<Node> {
    var c := CurrentLeaf(root, t.aliases, m.current);
    if c.Some? then c else LegacyGet(root, m.legacy)
  }

  /** Where no alias is spelled, the value of a leaf is simply what is there. */
  lemma LeafWithoutAlias(root: Node, aliases: seq<Move>, c: Path)
    requires FirstAlias(root, aliases, Anchor(aliases, c)) == None || Get(root, Anchor(aliases, c)).Some?
    ensures CurrentLeaf(root, aliases, c) == Get(root, c)
  {
    GetThrough(root, Anchor(aliases, c), c);
  }

  lemma {:induction false} FirstAliasFrame(root: Node, root': Node, ms: seq<Move>, c: Path)
    requires forall i | 0 <= i < |ms| && ms[i].current == c :: Get(root', ms[i].legacy) == Get(root, ms[i].legacy)
    ensures FirstAlias(root', ms, c) == FirstAlias(root, ms, c)
    decreases ms
  {
    if ms != [] {
      assert forall i | 0 <= i < |ms[1..]| :: ms[1..][i] == ms[i + 1];
      FirstAliasFrame(root, root', ms[1..], c);
    }
  }

  lemma {:induction false} FirstAliasAt(root: Node, ms: seq<Move>, c: Path, k: nat)
    requires k < |ms| && ms[k].current == c && Get(root, ms[k].legacy).Some?
    requires forall j | 0 <= j < k :: Get(root, ms[j].legacy).None?
    ensures FirstAlias(root, ms, c) == Get(root, ms[k].legacy)
    decreases ms
  {
    if k > 0 {
      FirstAliasAt(root, ms[1..], c, k - 1);
    }
  }

  lemma {:induction false} NoAlias(root: Node, ms: seq<Move>, c: Path)
    requires forall i | 0 <= i < |ms| :: ms[i].current != c || Get(root, ms[i].legacy).None?
    ensures FirstAlias(root, ms, c) == None
    decreases ms
  {
    if ms != [] {
      assert forall i | 0 <= i < |ms[1..]| :: ms[1..][i] == ms[i + 1];
      NoAlias(root, ms[1..], c);
    }
  }

  /** Flattening computes the effective values */

  lemma AliasStepGet(s: set<Path>, root: Node, m: Move, x: Path)
    requires Antichain(s) && m.legacy in s && m.current in s && x in s && m.legacy != m.current && x != m.legacy
    ensures Get(AliasStep(root, m), x) == if x == m.current && Get(root, x).None? then Get(root, m.legacy) else Get(root, x)
  {
    var v := Get(root, m.legacy);
    if v.Some? {
      var mid := if Get(root, m.current).None? then Set(root, m.current, v.value) else root;
      GetRemoveOther(mid, m.legacy, x);
      if x == m.current {
        GetSetSame(root, m.current, v.value);
      } else {
        GetSetOther(root, m.current, v.value, x);
      }
    }
  }

  lemma {:induction false} AliasPassGet(s: set<Path>, root: Node, ms: seq<Move>, x: Path)
    requires Antichain(s) && Within(s, ms) && LegacyDistinct(ms) && Apart(ms, ms) && Proper(ms) && x in s && NotLegacy(ms, x)
    ensures Get(AliasPass(root, ms), x) == CurrentValue(root, ms, x)
    decreases ms
  {
    if ms != [] {
      var root', rest := AliasStep(root, ms[0]), ms[1..];
      assert forall i | 0 <= i < |rest| :: rest[i] == ms[i + 1];
      AliasPassGet(s, root', rest, x);
      AliasStepGet(s, root, ms[0], x);
      forall i | 0 <= i < |rest|
        ensures Get(root', rest[i].legacy) == Get(root, rest[i].legacy)
      {
        AliasStepGet(s, root, ms[0], rest[i].legacy);
      }
      FirstAliasFrame(root, root', rest, x);
    }
  }

  lemma PathStepGet(s: set<Path>, root: Node, m: Move, x: Path)
    requires Antichain(s) && m.legacy in s && m.current in s && x in s && m.legacy != m.current
    ensures Get(PathStep(root, m), x) ==
            if x == m.legacy && Get(root, m.current).Some? then Get(root, m.current)
            else if x == m.current then None
            else Get(root, x)
  {
    var v := Get(root, m.current);
    if v.Some? {
      var mid := Remove(root, m.current);
      if x == m.legacy {
        GetSetSame(mid, m.legacy, v.value);
      } else {
        GetSetOther(mid, m.legacy, v.value, x);
        if x == m.current {
          GetRemoveSame(root, m.current);
        } else {
          GetRemoveOther(root, m.current, x);
        }
      }
    }
  }

  lemma {:induction false} PathPassFrame(s: set<Path>, root: Node, ms: seq<Move>, x: Path)
    requires Antichain(s) && Within(s, ms) && Apart(ms, ms) && Proper(ms) && x in s && NotLegacy(ms, x) && NotCurrent(ms, x)
    ensures Get(PathPass(root, ms), x) == Get(root, x)
    decreases ms
  {
    if ms != [] {
      assert forall i | 0 <= i < |ms[1..]| :: ms[1..][i] == ms[i + 1];
      PathStepGet(s, root, ms[0], x);
      PathPassFrame(s, PathStep(root, ms[0]), ms[1..], x);
    }
  }

  lemma {:induction false} PathPassGet(s: set<Path>, root: Node, ms: seq<Move>, k: nat)
    requires Antichain(s) && Within(s, ms) && LegacyDistinct(ms) && CurrentDistinct(ms) && Apart(ms, ms) && Proper(ms) && k < |ms|
    ensures Get(PathPass(root, ms), ms[k].legacy) ==
            if Get(root, ms[k].current).Some? then Get(root, ms[k].current) else Get(root, ms[k].legacy)
    decreases ms
  {
    var root', rest := PathStep(root, ms[0]), ms[1..];
    assert forall i | 0 <= i < |rest| :: rest[i] == ms[i + 1];
    PathStepGet(s, root, ms[0], ms[k].legacy);
    PathStepGet(s, root, ms[0], ms[k].current);
    if k == 0 {
      PathPassFrame(s, root', rest, ms[0].legacy);
    } else {
      PathPassGet(s, root', rest, k - 1);
    }
  }

  lemma {:induction false} FamilyPassFrame(s: set<Path>, root: Node, source: Node, fs: seq<Family>, x: Path)
    requires Antichain(s) && x in s && FamilyPass(root, source, fs).Ok?
    requires forall i | 0 <= i < |fs| :: fs[i].legacy in s && fs[i].legacy != x
    ensures Get(FamilyPass(root, source, fs).value, x) == Get(root, x)
    decreases fs
  {
    if fs != [] {
      assert forall i | 0 <= i < |fs[1..]| :: fs[1..][i] == fs[i + 1];
      var groups := Get(source, GroupPath(fs[0]));
      if groups.None? {
        FamilyPassFrame(s, root, source, fs[1..], x);
      } else {
        var keys := KeyGroups.ExpandNode(groups.value, fs[0].name);
        GetSetOther(root, fs[0].legacy, keys.value, x);
        FamilyPassFrame(s, Set(root, fs[0].legacy, keys.value), source, fs[1..], x);
      }
    }
  }

  /** Containers */

  /** A container that is there at all is a mapping with something in it. */
  predicate Solid(v: Option<Node>) {
    v.None? || Filled(v)
  }

  /** What a step can make of a container: nothing new, nothing at all, or a filled mapping. */
  predicate Calm(v: Option<Node>, v': Option<Node>) {
    v' == v || v'.None? || Filled(v')
  }

  /** `a` is neither a setting nor below one. */
  ghost predicate Container(s: set<Path>, a: Path) {
    a != [] && forall x | x in s :: !(x <= a)
  }

  /** No struct container is null or empty in its legacy or its current spelling, and a shared one is a mapping. */
  ghost predicate NoBlankStructs(t: Table, root: Node) {
    && (forall i | 0 <= i < |t.structs| :: !Blank(Get(root, t.structs[i].legacy)) && !Blank(Get(root, t.structs[i].current)))
    && (forall i | 0 <= i < |t.sharedStructs| :: Solid(Get(root, t.sharedStructs[i].legacy)))
  }

  /** Nor in an alias spelling, where an alias moves a whole struct. */
  ghost predicate NoBlankAliases(t: Table, root: Node) {
    forall i, j | 0 <= i < |t.aliases| && 0 <= j < |t.structs| && t.aliases[i].current <= t.structs[j].current ::
      NotBlankIn(Get(root, t.aliases[i].legacy), t.structs[j].current[|t.aliases[i].current|..])
  }

  predicate NotBlankIn(v: Option<Node>, p: Path) {
    v.Some? ==> !Blank(Get(v.value, p))
  }

  ghost predicate Regular(t: Table, root: Node) {
    NoBlankStructs(t, root) && NoBlankAliases(t, root)
  }

  /** The settings proper: what an alias moves as a whole is replaced by the leaves below it. */
  ghost function Leaves(t: Table, s: set<Path>): set<Path> {
    (set x | x in s && !AboveLeaf(t, x)) + (set i | 0 <= i < |t.paths| :: t.paths[i].current)
  }

  ghost predicate AboveLeaf(t: Table, x: Path) {
    exists i :: 0 <= i < |t.paths| && x < t.paths[i].current
  }

  ghost predicate HasAlias(t: Table, c: Path) {
    exists i :: 0 <= i < |t.aliases| && t.aliases[i].current <= c
  }

  /** No struct container is a setting or below one; a current one may be part of what an alias moves. */
  ghost predicate ContainersOk(t: Table, s: set<Path>) {
    && (forall i | 0 <= i < |t.structs| ::
          && Container(s, t.structs[i].legacy)
          && (Container(s, t.structs[i].current) || HasAlias(t, t.structs[i].current))
          && Container(Leaves(t, s), t.structs[i].current))
    && (forall i | 0 <= i < |t.sharedStructs| :: Container(s, t.sharedStructs[i].legacy))
  }

  ghost predicate CalmOn(s: set<Path>, root: Node, root': Node) {
    && (root.Map? ==> root'.Map?)
    && forall a | Container(s, a) :: Calm(Get(root, a), Get(root', a))
  }

  lemma SetIsCalm(s: set<Path>, root: Node, p: Path, v: Node)
    requires p in s && p != []
    ensures CalmOn(s, root, Set(root, p, v))
  {
    forall a | Container(s, a)
      ensures Calm(Get(root, a), Get(Set(root, p, v), a))
    {
      SetAbove(root, p, v, a);
    }
  }

  lemma RemoveIsCalm(s: set<Path>, root: Node, p: Path)
    requires p in s && p != []
    ensures CalmOn(s, root, Remove(root, p))
  {
    forall a | Container(s, a)
      ensures Calm(Get(root, a), Get(Remove(root, p), a))
    {
      RemoveAbove(root, p, a);
    }
  }

  lemma CalmTransitive(s: set<Path>, a: Node, b: Node, c: Node)
    requires CalmOn(s, a, b) && CalmOn(s, b, c)
    ensures CalmOn(s, a, c)
  {
  }

  /** Steps on the settings proper. */
  lemma CalmKeepsStructs(t: Table, l: set<Path>, root: Node, root': Node)
    requires forall i | 0 <= i < |t.structs| :: Container(l, t.structs[i].legacy) && Container(l, t.structs[i].current)
    requires forall i | 0 <= i < |t.sharedStructs| :: Container(l, t.sharedStructs[i].legacy)
    requires NoBlankStructs(t, root) && CalmOn(l, root, root')
    ensures NoBlankStructs(t, root')
  {
  }

  lemma AliasStepIsCalm(s: set<Path>, root: Node, m: Move)
    requires m.legacy in s && m.current in s && [] !in s
    ensures CalmOn(s, root, AliasStep(root, m))
  {
    var v := Get(root, m.legacy);
    if v.Some? {
      var mid := if Get(root, m.current).None? then Set(root, m.current, v.value) else root;
      SetIsCalm(s, root, m.current, v.value);
      RemoveIsCalm(s, mid, m.legacy);
      CalmTransitive(s, root, mid, Remove(mid, m.legacy));
    }
  }

  lemma {:induction false} AliasPassIsCalm(s: set<Path>, root: Node, ms: seq<Move>)
    requires Within(s, ms) && [] !in s && Proper(ms)
    ensures CalmOn(s, root, AliasPass(root, ms))
    decreases ms
  {
    if ms != [] {
      assert forall i | 0 <= i < |ms[1..]| :: ms[1..][i] == ms[i + 1];
      AliasStepIsCalm(s, root, ms[0]);
      AliasPassIsCalm(s, AliasStep(root, ms[0]), ms[1..]);
      CalmTransitive(s, root, AliasStep(root, ms[0]), AliasPass(root, ms));
    }
  }

  lemma {:induction false} SharedPassIdle(root: Node, ms: seq<Move>)
    requires Proper(ms) && forall i | 0 <= i < |ms| :: Solid(Get(root, ms[i].legacy))
    ensures SharedPass(root, ms) == KeyGroups.Ok(root)
    decreases ms
  {
    if ms != [] {
      assert forall i | 0 <= i < |ms[1..]| :: ms[1..][i] == ms[i + 1];
      SharedPassIdle(root, ms[1..]);
    }
  }

  lemma {:induction false} StructPassIdle(root: Node, structs: seq<Move>, leaves: seq<Move>)
    requires Proper(structs) && Proper(leaves) && forall i | 0 <= i < |structs| :: !Blank(Get(root, structs[i].current))
    ensures StructPass(root, structs, leaves) == root && ClearPass(root, structs, leaves) == root
    decreases structs
  {
    if structs != [] {
      assert forall i | 0 <= i < |structs[1..]| :: structs[1..][i] == structs[i + 1];
      StructPassIdle(root, structs[1..], leaves);
    }
  }

  lemma {:induction false} EmptyPassesIdle(root: Node, ms: seq<Move>, migrate: bool)
    requires Proper(ms) && forall i | 0 <= i < |ms| :: !Blank(Get(root, ms[i].legacy))
    ensures EmptyNulls(root, ms, migrate) == root && EmptyContainers(root, ms, migrate) == []
    decreases ms
  {
    if ms != [] {
      assert forall i | 0 <= i < |ms[1..]| :: ms[1..][i] == ms[i + 1];
      EmptyPassesIdle(root, ms[1..], migrate);
    }
  }

  /** The path rows with each current path replaced by its anchor. */
  function AnchorRows(t: Table): (ms: seq<Move>)
    ensures |ms| == |t.paths|
    ensures forall i | 0 <= i < |ms| :: ms[i].legacy == t.paths[i].legacy && ms[i].current == Anchor(t.aliases, t.paths[i].current)
  {
    seq(|t.paths|, i requires 0 <= i < |t.paths| => Move(t.paths[i].legacy, Anchor(t.aliases, t.paths[i].current)))
  }

  ghost predicate CurrentsApart(ms: seq<Move>) {
    forall i, j | 0 <= i < j < |ms| :: Incomparable(ms[i].current, ms[j].current)
  }

  /** What lies between an anchor and a leaf below it is a struct container. */
  ghost predicate StructsBetween(t: Table) {
    forall i, k | 0 <= i < |t.paths| && |Anchor(t.aliases, t.paths[i].current)| <= k < |t.paths[i].current| ::
      IsStruct(t, t.paths[i].current[..k])
  }

  ghost predicate IsStruct(t: Table, c: Path) {
    exists i :: 0 <= i < |t.structs| && t.structs[i].current == c
  }

  /**
   The table's legacy paths, aliases and anchors make up `s`, are pairwise unrelated and play one
   role each.  An alias may move a single setting or a whole struct with the settings in it.
   */
  ghost predicate TableOk(t: Table, s: set<Path>) {
    && ProperTable(t)
    && Antichain(s) && VERSION in s && API_KEYS in s && VERSION != API_KEYS
    && AliasesOk(t, s)
    && LegacyDistinct(t.paths) && CurrentsApart(t.paths) && NotLegacy(t.paths, VERSION)
    && Reserved(t, VERSION) && Reserved(t, API_KEYS)
    && FamiliesOk(t, s)
    && ContainersOk(t, s) && StructsBetween(t)
  }

  ghost predicate AliasesOk(t: Table, s: set<Path>) {
    && Within(s, AnchorRows(t)) && Apart(AnchorRows(t), AnchorRows(t)) && Apart(t.aliases, AnchorRows(t))
    && Within(s, t.aliases) && LegacyDistinct(t.aliases) && Apart(t.aliases, t.aliases) && Apart(t.paths, t.aliases)
    && (forall i, j | 0 <= i < |t.aliases| && 0 <= j < |t.paths| :: t.aliases[i].legacy != t.paths[j].legacy)
  }

  ghost predicate Reserved(t: Table, x: Path) {
    NotCurrent(AnchorRows(t), x) && NotLegacy(t.aliases, x) && NotCurrent(t.aliases, x)
  }

  ghost predicate FamiliesOk(t: Table, s: set<Path>) {
    && (forall i | 0 <= i < |t.families| ::
          var x := t.families[i].legacy;
          && x in s && x != VERSION && x != API_KEYS
          && NotLegacy(t.paths, x) && Reserved(t, x))
    && (forall i, j | 0 <= i < j < |t.families| :: t.families[i].legacy != t.families[j].legacy && t.families[i].name != t.families[j].name)
  }

  /** What the passes over the path rows need of the settings proper. */
  ghost predicate LeavesOk(t: Table, l: set<Path>) {
    && Antichain(l) && VERSION in l && API_KEYS in l
    && Within(l, t.paths) && CurrentDistinct(t.paths) && Apart(t.paths, t.paths)
    && NotCurrent(t.paths, VERSION) && NotCurrent(t.paths, API_KEYS)
    && (forall i | 0 <= i < |t.families| :: t.families[i].legacy in l && NotCurrent(t.paths, t.families[i].legacy))
    && (forall i | 0 <= i < |t.aliases| :: t.aliases[i].legacy in l && NotCurrent(t.paths, t.aliases[i].legacy))
  }

  /** A member of `s` that is no anchor is unrelated to every current leaf. */
  lemma ApartFromLeaf(t: Table, s: set<Path>, x: Path, i: nat)
    requires Antichain(s) && x in s && i < |t.paths| && Anchor(t.aliases, t.paths[i].current) in s
    requires x != Anchor(t.aliases, t.paths[i].current)
    ensures Incomparable(x, t.paths[i].current)
  {
    var a, c := Anchor(t.aliases, t.paths[i].current), t.paths[i].current;
    assert Incomparable(x, a);
    assert x <= c ==> x <= a || a <= x;
  }

  lemma LeafMember(t: Table, s: set<Path>, x: Path)
    requires Antichain(s) && x in s && Within(s, AnchorRows(t)) && NotCurrent(AnchorRows(t), x)
    ensures x in Leaves(t, s) && NotCurrent(t.paths, x)
  {
    forall i | 0 <= i < |t.paths| ensures !(x < t.paths[i].current) && t.paths[i].current != x {
      assert AnchorRows(t)[i].current in s;
      ApartFromLeaf(t, s, x, i);
    }
  }

  lemma LeavesAntichain(t: Table, s: set<Path>)
    requires Antichain(s) && Within(s, AnchorRows(t)) && CurrentsApart(t.paths)
    ensures Antichain(Leaves(t, s))
  {
    var l := Leaves(t, s);
    forall x, y | x in l && y in l && x != y ensures Incomparable(x, y) {
      if i :| 0 <= i < |t.paths| && t.paths[i].current == x {
        LeafApart(t, s, i, y);
      } else if j :| 0 <= j < |t.paths| && t.paths[j].current == y {
        LeafApart(t, s, j, x);
      }
    }
    forall i | 0 <= i < |t.paths| ensures t.paths[i].current != [] {
      assert AnchorRows(t)[i].current in s;
    }
  }

  lemma LeafApart(t: Table, s: set<Path>, i: nat, y: Path)
    requires Antichain(s) && Within(s, AnchorRows(t)) && CurrentsApart(t.paths)
    requires i < |t.paths| && y in Leaves(t, s) && y != t.paths[i].current
    ensures Incomparable(t.paths[i].current, y)
  {
    var a := Anchor(t.aliases, t.paths[i].current);
    assert AnchorRows(t)[i].current in s;
    if j :| 0 <= j < |t.paths| && t.paths[j].current == y {
    } else if y != a {
      ApartFromLeaf(t, s, y, i);
    } else {
      assert !AboveLeaf(t, y);
    }
  }

  lemma TableGivesLeaves(t: Table, s: set<Path>)
    requires TableOk(t, s)
    ensures LeavesOk(t, Leaves(t, s))
  {
    hide ContainersOk, StructsBetween, Antichain;
    var rows := AnchorRows(t);
    LeavesAntichain(t, s);
    LeafMember(t, s, VERSION);
    LeafMember(t, s, API_KEYS);
    forall i | 0 <= i < |t.families| ensures t.families[i].legacy in Leaves(t, s) && NotCurrent(t.paths, t.families[i].legacy) {
      LeafMember(t, s, t.families[i].legacy);
    }
    forall i | 0 <= i < |t.aliases| ensures t.aliases[i].legacy in Leaves(t, s) && NotCurrent(t.paths, t.aliases[i].legacy) {
      LeafMember(t, s, t.aliases[i].legacy);
    }
    forall i | 0 <= i < |t.paths| ensures t.paths[i].legacy in Leaves(t, s) && NotCurrent(t.paths, t.paths[i].legacy) {
      assert rows[i].legacy in s;
      LeafMember(t, s, t.paths[i].legacy);
    }
    assert CurrentDistinct(t.paths);
  }

  /** What is above the anchors is above the leaves. */
  lemma ContainerOfLeaves(t: Table, s: set<Path>, a: Path)
    requires Container(s, a) && Within(s, AnchorRows(t))
    ensures Container(Leaves(t, s), a)
  {
    forall x | x in Leaves(t, s) ensures !(x <= a) {
      if i :| 0 <= i < |t.paths| && t.paths[i].current == x {
        assert AnchorRows(t)[i].current in s;
      }
    }
  }

  lemma StructsAboveLeaves(t: Table, s: set<Path>)
    requires TableOk(t, s)
    ensures forall i | 0 <= i < |t.structs| :: Container(Leaves(t, s), t.structs[i].legacy) && Container(Leaves(t, s), t.structs[i].current)
    ensures forall i | 0 <= i < |t.sharedStructs| :: Container(Leaves(t, s), t.sharedStructs[i].legacy)
  {
    hide Container, Leaves, Antichain, FamiliesOk, StructsBetween;
    forall i | 0 <= i < |t.structs| ensures Container(Leaves(t, s), t.structs[i].legacy) {
      ContainerOfLeaves(t, s, t.structs[i].legacy);
    }
    forall i | 0 <= i < |t.sharedStructs| ensures Container(Leaves(t, s), t.sharedStructs[i].legacy) {
      ContainerOfLeaves(t, s, t.sharedStructs[i].legacy);
    }
  }

  lemma DropGroupsGet(s: set<Path>, root: Node, x: Path)
    requires Antichain(s) && API_KEYS in s && x in s
    ensures Get(DropGroups(root), x) == LegacyGet(root, x)
    ensures CalmOn(s, root, DropGroups(root))
  {
    var keys := Get(root, API_KEYS);
    if keys.Some? && keys.value.Map? {
      RemoveIsCalm(s, root, API_KEYS);
      if x == API_KEYS {
        GetRemoveSame(root, API_KEYS);
      } else {
        GetRemoveOther(root, API_KEYS, x);
      }
    }
  }

  lemma {:induction false} FirstAliasFrom(root: Node, ms: seq<Move>, c: Path) returns (k: nat)
    requires FirstAlias(root, ms, c).Some?
    ensures k < |ms| && ms[k].current == c && FirstAlias(root, ms, c) == Get(root, ms[k].legacy)
    decreases ms
  {
    if ms[0].current == c && Get(root, ms[0].legacy).Some? {
      k := 0;
    } else {
      k := FirstAliasFrom(root, ms[1..], c);
      k := k + 1;
    }
  }

  /** What stands for an anchor holds no blank struct container. */
  lemma AnchoredStruct(t: Table, d: Node, i: nat, j: nat)
    requires Regular(t, d) && i < |t.aliases| && j < |t.structs| && t.aliases[i].current <= t.structs[j].current
    ensures NotBlankIn(CurrentValue(d, t.aliases, t.aliases[i].current), t.structs[j].current[|t.aliases[i].current|..])
  {
    var a := t.aliases[i].current;
    if Get(d, a).Some? {
      GetThrough(d, a, t.structs[j].current);
    } else if FirstAlias(d, t.aliases, a).Some? {
      var k := FirstAliasFrom(d, t.aliases, a);
    }
  }

  lemma AliasPassStructs(t: Table, s: set<Path>, d: Node)
    requires TableOk(t, s) && Regular(t, d)
    ensures NoBlankStructs(t, AliasPass(d, t.aliases)) && (d.Map? ==> AliasPass(d, t.aliases).Map?)
  {
    hide AliasPass, Antichain, FamiliesOk, StructsBetween, Container, Leaves, NotBlankIn;
    var aliased := AliasPass(d, t.aliases);
    AliasPassIsCalm(s, d, t.aliases) by {
      assert [] !in s by {
        NoEmptySetting(s);
      }
    }
    forall j | 0 <= j < |t.structs| ensures !Blank(Get(aliased, t.structs[j].current)) {
      if !Container(s, t.structs[j].current) {
        var i :| 0 <= i < |t.aliases| && t.aliases[i].current <= t.structs[j].current;
        AnchoredStruct(t, d, i, j);
        AliasPassGet(s, d, t.aliases, t.aliases[i].current);
        NotBlankThrough(aliased, t.aliases[i].current, t.structs[j].current);
      }
    }
  }

  lemma NoEmptySetting(s: set<Path>)
    requires Antichain(s)
    ensures [] !in s
  {}

  lemma NotBlankThrough(root: Node, a: Path, c: Path)
    requires a <= c && NotBlankIn(Get(root, a), c[|a|..])
    ensures !Blank(Get(root, c))
  {
    GetThrough(root, a, c);
  }

  /** On a regular document only the alias, path and family passes do anything. */
  lemma FlattenRegular(t: Table, s: set<Path>, d: Node)
    requires TableOk(t, s) && Regular(t, d) && d.Map?
    ensures var aliased := AliasPass(d, t.aliases);
            Flatten(t, d) ==
            if !ShapeOk(t, d, t.paths) || !ShapeOk(t, d, t.aliases) || !VersionOk(d) then KeyGroups.Err
            else FamilyPass(PathPass(DropGroups(aliased), t.paths), d, t.families)
  {
    hide ShapeOk, FamilyPass, PathPass, Calm, AliasPass, Leaves, Container, StructsBetween;
    var aliased, l := AliasPass(d, t.aliases), Leaves(t, s);
    AliasPassStructs(t, s, d);
    SharedPassIdle(aliased, t.sharedStructs);
    TableGivesLeaves(t, s);
    StructsAboveLeaves(t, s);
    DropGroupsGet(l, aliased, VERSION);
    var dropped := DropGroups(aliased);
    CalmKeepsStructs(t, l, aliased, dropped);
    StructPassIdle(dropped, t.structs, t.paths);
    AliasPassGet(s, d, t.aliases, VERSION);
    NoAlias(d, t.aliases, VERSION);
  }

  lemma AliasedLeaf(t: Table, s: set<Path>, d: Node, k: nat)
    requires TableOk(t, s) && k < |t.paths|
    ensures Get(AliasPass(d, t.aliases), t.paths[k].current) == CurrentLeaf(d, t.aliases, t.paths[k].current)
  {
    hide AliasPass, Antichain, FamiliesOk, ContainersOk, StructsBetween;
    var a, c := Anchor(t.aliases, t.paths[k].current), t.paths[k].current;
    assert AnchorRows(t)[k].current == a;
    AliasPassGet(s, d, t.aliases, a);
    GetThrough(AliasPass(d, t.aliases), a, c);
  }

  /** Flattening gives every leaf of the table its effective value. */
  lemma FlattenGivesEffective(t: Table, s: set<Path>, d: Node, k: nat)
    requires TableOk(t, s) && Regular(t, d) && k < |t.paths| && Flatten(t, d).Ok?
    ensures Get(Flatten(t, d).value, t.paths[k].legacy) == Effective(t, d, t.paths[k])
  {
    hide ShapeOk, FamilyPass, PathPass, AliasPass, ContainersOk, StructsBetween, Regular, Leaves, Antichain, CurrentLeaf;
    FlattenRegular(t, s, d);
    var m, l := t.paths[k], Leaves(t, s);
    TableGivesLeaves(t, s);
    var aliased := AliasPass(d, t.aliases);
    var dropped := DropGroups(aliased);
    var placed := PathPass(dropped, t.paths);
    FamilyPassFrame(l, placed, d, t.families, m.legacy);
    PathPassGet(l, dropped, t.paths, k);
    DropGroupsGet(l, aliased, m.current);
    DropGroupsGet(l, aliased, m.legacy);
    AliasedLeaf(t, s, d, k);
    assert AnchorRows(t)[k].legacy == m.legacy;
    AliasPassGet(s, d, t.aliases, m.legacy);
    NoAlias(d, t.aliases, m.legacy);
  }

  /** Normalizing preserves the effective values */

  lemma MoveStepGet(s: set<Path>, root: Node, m: Move, migrate: bool, x: Path)
    requires Antichain(s) && m.legacy in s && m.current in s && x in s && m.legacy != m.current
    ensures Get(MoveStep(root, m, migrate), x) ==
            var v, current := LegacyGet(root, m.legacy), Get(root, m.current);
            if v.None? || (current.None? && !migrate) then Get(root, x)
            else if x == m.legacy then None
            else if x == m.current && current.None? then v
            else Get(root, x)
  {
    var v, current := LegacyGet(root, m.legacy), Get(root, m.current);
    if v.Some? && (current.Some? || migrate) {
      var removed := Remove(root, m.legacy);
      if x == m.legacy {
        GetRemoveSame(root, m.legacy);
      } else {
        GetRemoveOther(root, m.legacy, x);
      }
      if x == m.current {
        GetSetSame(removed, m.current, v.value);
      } else {
        GetSetOther(removed, m.current, v.value, x);
      }
    }
  }

  lemma MoveStepIsCalm(s: set<Path>, root: Node, m: Move, migrate: bool)
    requires m.legacy in s && m.current in s && [] !in s
    ensures CalmOn(s, root, MoveStep(root, m, migrate))
  {
    var v := LegacyGet(root, m.legacy);
    if v.Some? {
      var removed := Remove(root, m.legacy);
      RemoveIsCalm(s, root, m.legacy);
      SetIsCalm(s, removed, m.current, v.value);
      CalmTransitive(s, root, removed, Set(removed, m.current, v.value));
    }
  }

  lemma {:induction false} MovePassIsCalm(s: set<Path>, root: Node, ms: seq<Move>, migrate: bool)
    requires Within(s, ms) && [] !in s && Proper(ms)
    ensures CalmOn(s, root, MovePass(root, ms, migrate))
    decreases ms
  {
    if ms != [] {
      assert forall i | 0 <= i < |ms[1..]| :: ms[1..][i] == ms[i + 1];
      MoveStepIsCalm(s, root, ms[0], migrate);
      MovePassIsCalm(s, MoveStep(root, ms[0], migrate), ms[1..], migrate);
      CalmTransitive(s, root, MoveStep(root, ms[0], migrate), MovePass(root, ms, migrate));
    }
  }

  lemma {:induction false} MovePassAppend(root: Node, ms: seq<Move>, ns: seq<Move>, migrate: bool)
    requires Proper(ms) && Proper(ns)
    ensures Proper(ms + ns) && MovePass(root, ms + ns, migrate) == MovePass(MovePass(root, ms, migrate), ns, migrate)
    decreases ms
  {
    if ms == [] {
      assert ms + ns == ns;
    } else {
      assert (ms + ns)[1..] == ms[1..] + ns;
      MovePassAppend(MoveStep(root, ms[0], migrate), ms[1..], ns, migrate);
    }
  }

  lemma {:induction false} MovePassFrame(s: set<Path>, root: Node, ms: seq<Move>, migrate: bool, x: Path)
    requires Antichain(s) && Within(s, ms) && Apart(ms, ms) && Proper(ms) && x in s && NotLegacy(ms, x) && NotCurrent(ms, x)
    ensures Get(MovePass(root, ms, migrate), x) == Get(root, x)
    decreases ms
  {
    if ms != [] {
      assert forall i | 0 <= i < |ms[1..]| :: ms[1..][i] == ms[i + 1];
      MoveStepGet(s, root, ms[0], migrate, x);
      MovePassFrame(s, MoveStep(root, ms[0], migrate), ms[1..], migrate, x);
    }
  }

  ghost predicate Gone(root: Node, ms: seq<Move>) {
    forall i | 0 <= i < |ms| :: LegacyGet(root, ms[i].legacy).None?
  }

  /** The alias moves, from the k-th on, when a migration has emptied the earlier spellings. */
  lemma {:induction false} AliasMovesKeep(s: set<Path>, root: Node, ms: seq<Move>, k: nat, migrate: bool, c: Path)
    requires Antichain(s) && Within(s, ms) && LegacyDistinct(ms) && Apart(ms, ms) && Proper(ms) && NotLegacy(ms, API_KEYS)
    requires k <= |ms| && c in s && NotLegacy(ms, c)
    requires migrate ==> Gone(root, ms[..k])
    ensures CurrentValue(MovePass(root, ms[k..], migrate), ms, c) == CurrentValue(root, ms, c)
    ensures migrate ==> Gone(MovePass(root, ms[k..], migrate), ms)
    decreases |ms| - k
  {
    if k < |ms| {
      var root' := MoveStep(root, ms[k], migrate);
      assert ms[k..][1..] == ms[k + 1..];
      forall i | 0 <= i < |ms|
        ensures i != k ==> Get(root', ms[i].legacy) == Get(root, ms[i].legacy)
      {
        MoveStepGet(s, root, ms[k], migrate, ms[i].legacy);
      }
      MoveStepGet(s, root, ms[k], migrate, ms[k].legacy);
      AliasMoveKeeps(s, root, ms, k, migrate, c);
      assert migrate ==> Gone(root', ms[..k + 1]);
      AliasMovesKeep(s, root', ms, k + 1, migrate, c);
    } else {
      assert ms[k..] == [] && ms[..k] == ms;
    }
  }

  lemma AliasMoveKeeps(s: set<Path>, root: Node, ms: seq<Move>, k: nat, migrate: bool, c: Path)
    requires Antichain(s) && Within(s, ms) && LegacyDistinct(ms) && Apart(ms, ms) && Proper(ms) && NotLegacy(ms, API_KEYS)
    requires k < |ms| && c in s && NotLegacy(ms, c)
    requires migrate ==> Gone(root, ms[..k])
    ensures CurrentValue(MoveStep(root, ms[k], migrate), ms, c) == CurrentValue(root, ms, c)
  {
    var root' := MoveStep(root, ms[k], migrate);
    MoveStepGet(s, root, ms[k], migrate, c);
    if ms[k].current == c && Get(root, c).None? && Get(root, ms[k].legacy).Some? && migrate {
      assert forall j | 0 <= j < k :: ms[..k][j] == ms[j];
      FirstAliasAt(root, ms, c, k);
    } else if root' != root && ms[k].current != c {
      forall i | 0 <= i < |ms| && ms[i].current == c
        ensures Get(root', ms[i].legacy) == Get(root, ms[i].legacy)
      {
        MoveStepGet(s, root, ms[k], migrate, ms[i].legacy);
      }
      FirstAliasFrame(root, root', ms, c);
    }
  }

  /** A step that leaves an anchor and the alias spellings alone leaves the current leaf alone. */
  lemma LeafFrame(t: Table, root: Node, root': Node, c: Path)
    requires Get(root', Anchor(t.aliases, c)) == Get(root, Anchor(t.aliases, c))
    requires forall i | 0 <= i < |t.aliases| :: Get(root', t.aliases[i].legacy) == Get(root, t.aliases[i].legacy)
    ensures CurrentLeaf(root', t.aliases, c) == CurrentLeaf(root, t.aliases, c)
  {
    FirstAliasFrame(root, root', t.aliases, Anchor(t.aliases, c));
  }

  lemma PathMoveAliases(t: Table, s: set<Path>, root: Node, k: nat, migrate: bool)
    requires TableOk(t, s) && k < |t.paths|
    ensures forall i | 0 <= i < |t.aliases| :: Get(MoveStep(root, t.paths[k], migrate), t.aliases[i].legacy) == Get(root, t.aliases[i].legacy)
    ensures migrate && Gone(root, t.aliases) ==> Gone(MoveStep(root, t.paths[k], migrate), t.aliases)
  {
    hide ContainersOk, FamiliesOk, StructsBetween, MoveStep, Antichain, Leaves;
    var l := Leaves(t, s);
    TableGivesLeaves(t, s);
    forall i | 0 <= i < |t.aliases|
      ensures Get(MoveStep(root, t.paths[k], migrate), t.aliases[i].legacy) == Get(root, t.aliases[i].legacy)
    {
      MoveStepGet(l, root, t.paths[k], migrate, t.aliases[i].legacy);
    }
  }

  /** When a migration has emptied the aliases, a path move changes the leaf it moves and no other. */
  lemma MigratingLeaf(t: Table, s: set<Path>, root: Node, k: nat, j: nat)
    requires TableOk(t, s) && k < |t.paths| && j < |t.paths| && Gone(root, t.aliases)
    ensures CurrentLeaf(root, t.aliases, t.paths[j].current) == Get(root, t.paths[j].current)
    ensures CurrentLeaf(MoveStep(root, t.paths[k], true), t.aliases, t.paths[j].current) == Get(MoveStep(root, t.paths[k], true), t.paths[j].current)
  {
    hide ContainersOk, FamiliesOk, StructsBetween, MoveStep, Antichain, CurrentLeaf;
    var root' := MoveStep(root, t.paths[k], true);
    PathMoveAliases(t, s, root, k, true);
    assert forall i | 0 <= i < |t.aliases| :: LegacyGet(root, t.aliases[i].legacy) == Get(root, t.aliases[i].legacy);
    NoAlias(root, t.aliases, Anchor(t.aliases, t.paths[j].current));
    NoAlias(root', t.aliases, Anchor(t.aliases, t.paths[j].current));
    LeafWithoutAlias(root, t.aliases, t.paths[j].current);
    LeafWithoutAlias(root', t.aliases, t.paths[j].current);
  }

  /** Otherwise a path move only removes the legacy spelling of a leaf that is spelled currently. */
  lemma StayingLeaf(t: Table, s: set<Path>, root: Node, k: nat, j: nat)
    requires TableOk(t, s) && k < |t.paths| && j < |t.paths|
    ensures CurrentLeaf(MoveStep(root, t.paths[k], false), t.aliases, t.paths[j].current) == CurrentLeaf(root, t.aliases, t.paths[j].current)
    ensures Get(root, t.paths[k].current).Some? ==> CurrentLeaf(root, t.aliases, t.paths[k].current).Some?
  {
    hide ContainersOk, FamiliesOk, StructsBetween, Gone, CurrentLeaf;
    var a, root' := Anchor(t.aliases, t.paths[j].current), MoveStep(root, t.paths[k], false);
    PathMoveAliases(t, s, root, k, false);
    assert AnchorRows(t)[k].legacy in s && AnchorRows(t)[j].current == a && AnchorRows(t)[k].legacy != AnchorRows(t)[j].current;
    GetRemoveOther(root, t.paths[k].legacy, a);
    LeafFrame(t, root, root', t.paths[j].current);
    GetThrough(root, Anchor(t.aliases, t.paths[k].current), t.paths[k].current);
    if Get(root, t.paths[k].current).Some? {
      LeafWithoutAlias(root, t.aliases, t.paths[k].current);
    }
  }

  /** One path move keeps the effective value of every leaf, provided a migration has emptied the aliases. */
  lemma PathMoveKeeps(t: Table, s: set<Path>, root: Node, k: nat, migrate: bool, j: nat)
    requires TableOk(t, s) && k < |t.paths| && j < |t.paths|
    requires migrate ==> Gone(root, t.aliases)
    ensures Effective(t, MoveStep(root, t.paths[k], migrate), t.paths[j]) == Effective(t, root, t.paths[j])
    ensures migrate ==> Gone(MoveStep(root, t.paths[k], migrate), t.aliases)
    ensures j != k ==> LegacyGet(MoveStep(root, t.paths[k], migrate), t.paths[j].legacy) == LegacyGet(root, t.paths[j].legacy)
    ensures migrate ==> LegacyGet(MoveStep(root, t.paths[k], migrate), t.paths[k].legacy).None?
  {
    hide ContainersOk, FamiliesOk, StructsBetween, AliasesOk, Antichain, MoveStep, CurrentLeaf, Leaves, Gone;
    var m, l := t.paths[k], Leaves(t, s);
    TableGivesLeaves(t, s);
    PathMoveAliases(t, s, root, k, migrate);
    MoveStepGet(l, root, m, migrate, t.paths[j].current);
    MoveStepGet(l, root, m, migrate, t.paths[j].legacy);
    MoveStepGet(l, root, m, migrate, m.legacy);
    if migrate {
      MigratingLeaf(t, s, root, k, j);
    } else {
      StayingLeaf(t, s, root, k, j);
    }
  }

  lemma {:induction false} PathMovesKeep(t: Table, s: set<Path>, root: Node, k: nat, migrate: bool, j: nat)
    requires TableOk(t, s) && k <= |t.paths| && j < |t.paths|
    requires migrate ==> Gone(root, t.aliases)
    requires migrate && j < k ==> LegacyGet(root, t.paths[j].legacy).None?
    ensures Effective(t, MovePass(root, t.paths[k..], migrate), t.paths[j]) == Effective(t, root, t.paths[j])
    ensures migrate ==> LegacyGet(MovePass(root, t.paths[k..], migrate), t.paths[j].legacy).None?
    decreases |t.paths| - k
  {
    hide ContainersOk, FamiliesOk, AliasesOk, StructsBetween, Antichain, Effective, LegacyGet, Gone, MoveStep;
    if k < |t.paths| {
      assert t.paths[k..][1..] == t.paths[k + 1..];
      PathMoveKeeps(t, s, root, k, migrate, j);
      PathMovesKeep(t, s, MoveStep(root, t.paths[k], migrate), k + 1, migrate, j);
    } else {
      assert t.paths[k..] == [];
    }
  }

  /** Setting a group below api-keys leaves every setting but api-keys alone. */
  lemma GroupPathApart(s: set<Path>, f: Family, x: Path)
    requires Antichain(s) && API_KEYS in s && x in s && x != API_KEYS
    ensures Incomparable(x, GroupPath(f))
  {
    assert API_KEYS <= GroupPath(f);
    assert Incomparable(x, API_KEYS);
  }

  lemma FamilyStepGet(s: set<Path>, root: Node, f: Family, migrate: bool, x: Path)
    requires Antichain(s) && API_KEYS in s && x in s && f.legacy in s && f.legacy != API_KEYS && x != f.legacy
    ensures x != API_KEYS ==> Get(FamilyStep(root, f, migrate), x) == Get(root, x)
    ensures !migrate ==> Get(FamilyStep(root, f, migrate), x) == Get(root, x)
    ensures LegacyGet(root, API_KEYS).None? ==> LegacyGet(FamilyStep(root, f, migrate), API_KEYS).None?
  {
    var v, present := Get(root, f.legacy), Get(root, GroupPath(f)).Some?;
    if v.Some? && (present || migrate) {
      var group := GroupNode(v.value, f.name);
      var mid := if present then root else Set(root, GroupPath(f), group);
      GetRemoveOther(mid, f.legacy, x);
      GetRemoveOther(mid, f.legacy, API_KEYS);
      if x != API_KEYS {
        GroupPathApart(s, f, x);
        GetSetOther(root, GroupPath(f), group, x);
      }
      SetAbove(root, GroupPath(f), group, API_KEYS);
    }
  }

  lemma {:induction false} FamilyMovesFrame(s: set<Path>, root: Node, fs: seq<Family>, migrate: bool, x: Path)
    requires Antichain(s) && API_KEYS in s && x in s
    requires forall i | 0 <= i < |fs| :: fs[i].legacy in s && fs[i].legacy != API_KEYS && fs[i].legacy != x && fs[i].legacy != []
    ensures x != API_KEYS || !migrate ==> Get(FamilyMoves(root, fs, migrate), x) == Get(root, x)
    ensures LegacyGet(root, API_KEYS).None? ==> LegacyGet(FamilyMoves(root, fs, migrate), API_KEYS).None?
    decreases fs
  {
    if fs != [] {
      assert forall i | 0 <= i < |fs[1..]| :: fs[1..][i] == fs[i + 1];
      FamilyStepGet(s, root, fs[0], migrate, x);
      FamilyMovesFrame(s, FamilyStep(root, fs[0], migrate), fs[1..], migrate, x);
    }
  }

  lemma FamilyMovesKeep(t: Table, s: set<Path>, root: Node, migrate: bool, j: nat)
    requires TableOk(t, s) && j < |t.paths|
    requires migrate ==> LegacyGet(root, t.paths[j].legacy).None?
    ensures Effective(t, FamilyMoves(root, t.families, migrate), t.paths[j]) == Effective(t, root, t.paths[j])
  {
    hide ContainersOk, StructsBetween, FamilyStep, FamilyMoves, Antichain, CurrentLeaf;
    var m, root' := t.paths[j], FamilyMoves(root, t.families, migrate);
    assert AnchorRows(t)[j].legacy in s && AnchorRows(t)[j].current in s;
    FamilyMovesFrame(s, root, t.families, migrate, m.legacy);
    FamilyMovesFrame(s, root, t.families, migrate, AnchorRows(t)[j].current);
    forall i | 0 <= i < |t.aliases|
      ensures Get(root', t.aliases[i].legacy) == Get(root, t.aliases[i].legacy)
    {
      FamilyMovesFrame(s, root, t.families, migrate, t.aliases[i].legacy);
    }
    LeafFrame(t, root, root', m.current);
  }

  lemma VersionKeeps(t: Table, s: set<Path>, root: Node, j: nat)
    requires TableOk(t, s) && j < |t.paths|
    ensures Effective(t, Set(root, VERSION, Int(8)), t.paths[j]) == Effective(t, root, t.paths[j])
  {
    hide ContainersOk, StructsBetween, FamiliesOk, Set, CurrentLeaf;
    var m, root' := t.paths[j], Set(root, VERSION, Int(8));
    assert AnchorRows(t)[j].legacy in s && AnchorRows(t)[j].current in s;
    GetSetOther(root, VERSION, Int(8), m.legacy);
    GetSetOther(root, VERSION, Int(8), AnchorRows(t)[j].current);
    forall i | 0 <= i < |t.aliases|
      ensures Get(root', t.aliases[i].legacy) == Get(root, t.aliases[i].legacy)
    {
      GetSetOther(root, VERSION, Int(8), t.aliases[i].legacy);
    }
    LeafFrame(t, root, root', m.current);
  }

  /** On a regular document, normalizing is the alias moves, the path moves, the family moves and the version. */
  function Moved(t: Table, d: Node, migrate: bool): Node
    requires ProperTable(t)
  {
    MovePass(MovePass(d, t.aliases, migrate), t.paths, migrate)
  }

  function Rewritten(t: Table, d: Node, migrate: bool): Node
    requires ProperTable(t)
  {
    var grouped := FamilyMoves(Moved(t, d, migrate), t.families, migrate);
    if migrate then Set(grouped, VERSION, Int(8)) else grouped
  }

  lemma NormalizeRegular(t: Table, d: Node, migrate: bool)
    requires ProperTable(t) && Regular(t, d) && Flatten(t, d).Ok?
    ensures Normalize(t, d, migrate) == KeyGroups.Ok(Rewritten(t, d, migrate))
  {
    hide Flatten;
    StructPassIdle(d, t.structs, t.paths);
    var containers := t.structs + t.sharedStructs;
    EmptyPassesIdle(d, containers, migrate);
    assert t.aliases + t.paths + [] == t.aliases + t.paths;
    MovePassAppend(d, t.aliases, t.paths, migrate);
  }

  lemma RewriteKeepsEffective(t: Table, s: set<Path>, d: Node, migrate: bool, j: nat)
    requires TableOk(t, s) && j < |t.paths|
    ensures Effective(t, Rewritten(t, d, migrate), t.paths[j]) == Effective(t, d, t.paths[j])
  {
    hide ContainersOk, FamiliesOk, AliasesOk, StructsBetween, Antichain, MovePass, FamilyMoves, Effective;
    var m := t.paths[j];
    var aliased := MovePass(d, t.aliases, migrate);
    assert t.aliases[0..] == t.aliases && t.paths[0..] == t.paths;
    assert Effective(t, aliased, m) == Effective(t, d, m) && (migrate ==> Gone(aliased, t.aliases)) by {
      AliasPhaseKeeps(t, s, d, migrate, j);
    }
    PathMovesKeep(t, s, aliased, 0, migrate, j);
    var moved := MovePass(aliased, t.paths, migrate);
    FamilyMovesKeep(t, s, moved, migrate, j);
    VersionKeeps(t, s, FamilyMoves(moved, t.families, migrate), j);
  }

  lemma AliasPhaseKeeps(t: Table, s: set<Path>, d: Node, migrate: bool, j: nat)
    requires TableOk(t, s) && j < |t.paths|
    ensures Effective(t, MovePass(d, t.aliases, migrate), t.paths[j]) == Effective(t, d, t.paths[j])
    ensures migrate ==> Gone(MovePass(d, t.aliases, migrate), t.aliases)
  {
    hide ContainersOk, FamiliesOk, StructsBetween, Antichain, MovePass;
    assert t.aliases[0..] == t.aliases;
    assert AnchorRows(t)[j].legacy in s && AnchorRows(t)[j].current in s;
    AliasMovesKeep(s, d, t.aliases, 0, migrate, AnchorRows(t)[j].current);
    MovePassFrame(s, d, t.aliases, migrate, t.paths[j].legacy);
  }

  /** The rewritten document flattens, and flattens to the same values */

  lemma {:induction false} FamilyPassOk(root: Node, source: Node, fs: seq<Family>)
    ensures FamilyPass(root, source, fs).Ok? <==>
            forall i | 0 <= i < |fs| :: Get(source, GroupPath(fs[i])).Some? ==> KeyGroups.ExpandNode(Get(source, GroupPath(fs[i])).value, fs[i].name).Ok?
    decreases fs
  {
    if fs != [] {
      var rest := fs[1..];
      assert forall i | 0 <= i < |rest| :: rest[i] == fs[i + 1];
      assert forall i | 0 < i < |fs| :: fs[i] == rest[i - 1];
      var groups := Get(source, GroupPath(fs[0]));
      if groups.None? {
        FamilyPassOk(root, source, rest);
      } else {
        var keys := KeyGroups.ExpandNode(groups.value, fs[0].name);
        if keys.Ok? {
          FamilyPassOk(Set(root, fs[0].legacy, keys.value), source, rest);
        }
      }
    }
  }

  /** The legacy list of a family: its expanded groups if the document has groups, else its legacy list. */
  ghost function FamilyValue(d: Node, f: Family): Option<Node>
    requires Get(d, GroupPath(f)).Some? ==> KeyGroups.ExpandNode(Get(d, GroupPath(f)).value, f.name).Ok?
  {
    var groups := Get(d, GroupPath(f));
    if groups.Some? then Some(KeyGroups.ExpandNode(groups.value, f.name).value) else Get(d, f.legacy)
  }

  lemma {:induction false} FamilyPassGet(s: set<Path>, root: Node, source: Node, fs: seq<Family>, k: nat)
    requires Antichain(s) && k < |fs| && FamilyPass(root, source, fs).Ok?
    requires forall i | 0 <= i < |fs| :: fs[i].legacy in s
    requires forall i, j | 0 <= i < j < |fs| :: fs[i].legacy != fs[j].legacy
    ensures var groups := Get(source, GroupPath(fs[k]));
            && (groups.Some? ==> KeyGroups.ExpandNode(groups.value, fs[k].name).Ok?)
            && Get(FamilyPass(root, source, fs).value, fs[k].legacy) ==
               if groups.Some? then Some(KeyGroups.ExpandNode(groups.value, fs[k].name).value) else Get(root, fs[k].legacy)
    decreases fs
  {
    var rest := fs[1..];
    assert forall i | 0 <= i < |rest| :: rest[i] == fs[i + 1];
    var groups := Get(source, GroupPath(fs[0]));
    var root' := if groups.Some? then Set(root, fs[0].legacy, KeyGroups.ExpandNode(groups.value, fs[0].name).value) else root;
    if k == 0 {
      FamilyPassFrame(s, root', source, rest, fs[0].legacy);
      if groups.Some? {
        GetSetSame(root, fs[0].legacy, KeyGroups.ExpandNode(groups.value, fs[0].name).value);
      }
    } else {
      FamilyPassGet(s, root', source, rest, k - 1);
      if groups.Some? {
        GetSetOther(root, fs[0].legacy, KeyGroups.ExpandNode(groups.value, fs[0].name).value, fs[k].legacy);
      }
    }
  }

  /** Flattening gives every key family its value. */
  lemma FlattenGivesFamily(t: Table, s: set<Path>, d: Node, k: nat)
    requires TableOk(t, s) && Regular(t, d) && k < |t.families| && Flatten(t, d).Ok?
    ensures var f := t.families[k];
            && (Get(d, GroupPath(f)).Some? ==> KeyGroups.ExpandNode(Get(d, GroupPath(f)).value, f.name).Ok?)
            && Get(Flatten(t, d).value, f.legacy) == FamilyValue(d, f)
  {
    hide ShapeOk, FamilyPass, PathPass, AliasPass, ContainersOk, StructsBetween, Regular, Antichain, Leaves;
    FlattenRegular(t, s, d);
    var x, l := t.families[k].legacy, Leaves(t, s);
    TableGivesLeaves(t, s);
    var aliased := AliasPass(d, t.aliases);
    var dropped := DropGroups(aliased);
    FamilyPassGet(s, PathPass(dropped, t.paths), d, t.families, k);
    PathPassFrame(l, dropped, t.paths, x);
    DropGroupsGet(l, aliased, x);
    AliasPassGet(s, d, t.aliases, x);
    NoAlias(d, t.aliases, x);
  }

  lemma MoveStepGroup(s: set<Path>, root: Node, m: Move, migrate: bool, f: Family)
    requires Antichain(s) && API_KEYS in s && m.legacy in s && m.current in s && m.current != API_KEYS
    ensures Get(MoveStep(root, m, migrate), GroupPath(f)) == Get(root, GroupPath(f))
  {
    var v := LegacyGet(root, m.legacy);
    if v.Some? {
      var removed := Remove(root, m.legacy);
      GroupPathApart(s, f, m.current);
      GetSetOther(removed, m.current, v.value, GroupPath(f));
      if m.legacy == API_KEYS {
        BelowNothing(root, f);
        GetRemoveSame(root, API_KEYS);
        BelowNothing(removed, f);
      } else {
        GroupPathApart(s, f, m.legacy);
        GetRemoveOther(root, m.legacy, GroupPath(f));
      }
    }
  }

  lemma BelowNothing(root: Node, f: Family)
    requires Get(root, API_KEYS).None? || !Get(root, API_KEYS).value.Map?
    ensures Get(root, GroupPath(f)).None?
  {
    assert GroupPath(f)[1..] == [f.name];
    if root.Map? && "api-keys" in root.fields {
      assert API_KEYS[1..] == [];
      assert Get(root, API_KEYS) == Some(root.fields["api-keys"]);
    }
  }

  lemma {:induction false} MovePassGroup(s: set<Path>, root: Node, ms: seq<Move>, migrate: bool, f: Family)
    requires Antichain(s) && API_KEYS in s && Within(s, ms) && NotCurrent(ms, API_KEYS) && Proper(ms)
    ensures Get(MovePass(root, ms, migrate), GroupPath(f)) == Get(root, GroupPath(f))
    decreases ms
  {
    if ms != [] {
      assert forall i | 0 <= i < |ms[1..]| :: ms[1..][i] == ms[i + 1];
      MoveStepGroup(s, root, ms[0], migrate, f);
      MovePassGroup(s, MoveStep(root, ms[0], migrate), ms[1..], migrate, f);
    }
  }

  /** The groups of a family after the rewriting. */
  function GroupsAfter(root: Node, f: Family, migrate: bool): Option<Node> {
    var groups, v := Get(root, GroupPath(f)), Get(root, f.legacy);
    if groups.None? && migrate && v.Some? then Some(GroupNode(v.value, f.name)) else groups
  }

  lemma FamilyStepGroup(s: set<Path>, root: Node, f: Family, migrate: bool, g: Family)
    requires Antichain(s) && API_KEYS in s && f.legacy in s && g.legacy in s && f.legacy != API_KEYS && g.legacy != API_KEYS
    requires f != g ==> f.name != g.name && f.legacy != g.legacy
    ensures Get(FamilyStep(root, f, migrate), GroupPath(g)) == if f == g then GroupsAfter(root, f, migrate) else Get(root, GroupPath(g))
    ensures f != g ==> Get(FamilyStep(root, f, migrate), g.legacy) == Get(root, g.legacy)
  {
    var v, present := Get(root, f.legacy), Get(root, GroupPath(f)).Some?;
    if f != g {
      FamilyStepGet(s, root, f, migrate, g.legacy);
    }
    if v.Some? && (present || migrate) {
      var group := GroupNode(v.value, f.name);
      var mid := if present then root else Set(root, GroupPath(f), group);
      GroupPathApart(s, g, f.legacy);
      GetRemoveOther(mid, f.legacy, GroupPath(g));
      if f == g {
        GetSetSame(root, GroupPath(f), group);
      } else {
        assert GroupPath(f)[1] != GroupPath(g)[1];
        GetSetOther(root, GroupPath(f), group, GroupPath(g));
      }
    }
  }

  lemma {:induction false} FamilyMovesGroup(s: set<Path>, root: Node, fs: seq<Family>, migrate: bool, k: nat)
    requires Antichain(s) && API_KEYS in s && k < |fs|
    requires forall i | 0 <= i < |fs| :: fs[i].legacy in s && fs[i].legacy != API_KEYS && fs[i].legacy != []
    requires forall i, j | 0 <= i < j < |fs| :: fs[i].legacy != fs[j].legacy && fs[i].name != fs[j].name
    ensures Get(FamilyMoves(root, fs, migrate), GroupPath(fs[k])) == GroupsAfter(root, fs[k], migrate)
    decreases fs
  {
    var root', rest := FamilyStep(root, fs[0], migrate), fs[1..];
    assert forall i | 0 <= i < |rest| :: rest[i] == fs[i + 1];
    FamilyStepGroup(s, root, fs[0], migrate, fs[k]);
    if k == 0 {
      FamilyMovesGroupFrame(s, root', rest, migrate, fs[0]);
    } else {
      FamilyMovesGroup(s, root', rest, migrate, k - 1);
    }
  }

  lemma {:induction false} FamilyMovesGroupFrame(s: set<Path>, root: Node, fs: seq<Family>, migrate: bool, g: Family)
    requires Antichain(s) && API_KEYS in s && g.legacy in s && g.legacy != API_KEYS
    requires forall i | 0 <= i < |fs| :: fs[i].legacy in s && fs[i].legacy != API_KEYS && fs[i].legacy != []
    requires forall i | 0 <= i < |fs| :: fs[i].legacy != g.legacy && fs[i].name != g.name
    ensures Get(FamilyMoves(root, fs, migrate), GroupPath(g)) == Get(root, GroupPath(g))
    decreases fs
  {
    if fs != [] {
      assert forall i | 0 <= i < |fs[1..]| :: fs[1..][i] == fs[i + 1];
      FamilyStepGroup(s, root, fs[0], migrate, g);
      FamilyMovesGroupFrame(s, FamilyStep(root, fs[0], migrate), fs[1..], migrate, g);
    }
  }

  lemma RewrittenGroups(t: Table, s: set<Path>, d: Node, migrate: bool, k: nat)
    requires TableOk(t, s) && k < |t.families|
    ensures Get(Rewritten(t, d, migrate), GroupPath(t.families[k])) == GroupsAfter(d, t.families[k], migrate)
  {
    hide ContainersOk, StructsBetween, MovePass, FamilyMoves, Leaves;
    var l := Leaves(t, s);
    TableGivesLeaves(t, s);
    var f := t.families[k];
    var aliased := MovePass(d, t.aliases, migrate);
    var moved := MovePass(aliased, t.paths, migrate);
    MovePassGroup(s, d, t.aliases, migrate, f);
    MovePassGroup(l, aliased, t.paths, migrate, f);
    MovePassFrame(s, d, t.aliases, migrate, f.legacy);
    MovePassFrame(l, aliased, t.paths, migrate, f.legacy);
    FamilyMovesGroup(s, moved, t.families, migrate, k);
    GroupPathApart(s, f, VERSION);
    GetSetOther(FamilyMoves(moved, t.families, migrate), VERSION, Int(8), GroupPath(f));
  }

  lemma {:induction false} FamilyMovesAreCalm(s: set<Path>, root: Node, fs: seq<Family>, migrate: bool)
    requires [] !in s && API_KEYS in s && forall i | 0 <= i < |fs| :: fs[i].legacy in s
    ensures CalmOn(s, root, FamilyMoves(root, fs, migrate))
    decreases fs
  {
    if fs != [] {
      assert forall i | 0 <= i < |fs[1..]| :: fs[1..][i] == fs[i + 1];
      FamilyStepIsCalm(s, root, fs[0], migrate);
      FamilyMovesAreCalm(s, FamilyStep(root, fs[0], migrate), fs[1..], migrate);
      CalmTransitive(s, root, FamilyStep(root, fs[0], migrate), FamilyMoves(root, fs, migrate));
    }
  }

  lemma FamilyStepIsCalm(s: set<Path>, root: Node, f: Family, migrate: bool)
    requires [] !in s && API_KEYS in s && f.legacy in s
    ensures CalmOn(s, root, FamilyStep(root, f, migrate))
  {
    var v, present := Get(root, f.legacy), Get(root, GroupPath(f)).Some?;
    if v.Some? && (present || migrate) {
      var group := GroupNode(v.value, f.name);
      var mid := if present then root else Set(root, GroupPath(f), group);
      forall a | Container(s, a)
        ensures Calm(Get(root, a), Get(mid, a))
      {
        assert API_KEYS <= GroupPath(f);
        SetAbove(root, GroupPath(f), group, a);
      }
      RemoveIsCalm(s, mid, f.legacy);
      CalmTransitive(s, root, mid, Remove(mid, f.legacy));
    }
  }

  /** After the alias moves, the rest of the rewriting works on the settings proper. */
  lemma RestIsCalm(t: Table, s: set<Path>, d: Node, migrate: bool)
    requires TableOk(t, s)
    ensures CalmOn(Leaves(t, s), MovePass(d, t.aliases, migrate), Rewritten(t, d, migrate))
  {
    hide CalmOn, MovePass, FamilyMoves, ContainersOk, StructsBetween, Leaves;
    var l := Leaves(t, s);
    TableGivesLeaves(t, s);
    NoEmptySetting(l);
    var aliased := MovePass(d, t.aliases, migrate);
    var moved := MovePass(aliased, t.paths, migrate);
    var grouped := FamilyMoves(moved, t.families, migrate);
    MovePassIsCalm(l, aliased, t.paths, migrate);
    FamilyMovesAreCalm(l, moved, t.families, migrate);
    CalmTransitive(l, aliased, moved, grouped);
    SetIsCalm(l, grouped, VERSION, Int(8));
    CalmTransitive(l, aliased, grouped, Set(grouped, VERSION, Int(8)));
  }

  lemma AliasMovesAreCalm(t: Table, s: set<Path>, d: Node, migrate: bool)
    requires TableOk(t, s)
    ensures CalmOn(s, d, MovePass(d, t.aliases, migrate))
  {
    hide CalmOn, MovePass, ContainersOk, StructsBetween, FamiliesOk;
    MovePassIsCalm(s, d, t.aliases, migrate);
  }

  /** What lies above all anchors comes through the rewriting calmly. */
  lemma CalmAbove(t: Table, s: set<Path>, d: Node, migrate: bool, a: Path)
    requires TableOk(t, s) && Container(s, a)
    ensures Calm(Get(d, a), Get(Rewritten(t, d, migrate), a))
  {
    hide ContainersOk, StructsBetween, FamiliesOk, Container, Leaves, Rewritten, MovePass, Antichain;
    AliasMovesAreCalm(t, s, d, migrate);
    RestIsCalm(t, s, d, migrate);
    ContainerOfLeaves(t, s, a);
  }

  /** A struct container that an alias may move does not come out blank. */
  lemma CalmAnchored(t: Table, s: set<Path>, d: Node, migrate: bool, i: nat, j: nat)
    requires TableOk(t, s) && Regular(t, d)
    requires i < |t.aliases| && j < |t.structs| && t.aliases[i].current <= t.structs[j].current
    ensures !Blank(Get(Rewritten(t, d, migrate), t.structs[j].current))
  {
    hide ContainersOk, StructsBetween, FamiliesOk, Container, Leaves, Rewritten, MovePass, Antichain, NotBlankIn;
    var a, c, aliased := t.aliases[i].current, t.structs[j].current, MovePass(d, t.aliases, migrate);
    AnchoredStruct(t, d, i, j);
    assert t.aliases[0..] == t.aliases;
    AliasMovesKeep(s, d, t.aliases, 0, migrate, a);
    AnchorStays(t, aliased, a, c);
    RestIsCalm(t, s, d, migrate);
    StructsAboveLeaves(t, s);
  }

  lemma AnchorStays(t: Table, root: Node, a: Path, c: Path)
    requires a <= c && NotBlankIn(CurrentValue(root, t.aliases, a), c[|a|..])
    ensures !Blank(Get(root, c))
  {
    GetThrough(root, a, c);
  }

  lemma RewriteKeepsRegular(t: Table, s: set<Path>, d: Node, migrate: bool)
    requires TableOk(t, s) && Regular(t, d)
    ensures Regular(t, Rewritten(t, d, migrate))
  {
    hide StructsBetween, FamiliesOk, AliasesOk, Container, Leaves, Rewritten, Antichain, NotBlankIn;
    var n := Rewritten(t, d, migrate);
    forall j | 0 <= j < |t.structs| ensures !Blank(Get(n, t.structs[j].legacy)) && !Blank(Get(n, t.structs[j].current)) {
      CalmAbove(t, s, d, migrate, t.structs[j].legacy);
      if Container(s, t.structs[j].current) {
        CalmAbove(t, s, d, migrate, t.structs[j].current);
      } else {
        var i :| 0 <= i < |t.aliases| && t.aliases[i].current <= t.structs[j].current;
        CalmAnchored(t, s, d, migrate, i, j);
      }
    }
    forall j | 0 <= j < |t.sharedStructs| ensures Solid(Get(n, t.sharedStructs[j].legacy)) {
      CalmAbove(t, s, d, migrate, t.sharedStructs[j].legacy);
    }
    forall i | 0 <= i < |t.aliases| ensures Get(n, t.aliases[i].legacy) == Get(d, t.aliases[i].legacy) || Get(n, t.aliases[i].legacy).None? {
      AliasSpelling(t, s, d, migrate, i);
    }
    assert NoBlankAliases(t, n) by {
      hide NoBlankStructs;
      NoBlankSubset(t, d, n);
    }
  }

  lemma NoBlankSubset(t: Table, d: Node, n: Node)
    requires NoBlankAliases(t, d)
    requires forall i | 0 <= i < |t.aliases| :: Get(n, t.aliases[i].legacy) == Get(d, t.aliases[i].legacy) || Get(n, t.aliases[i].legacy).None?
    ensures NoBlankAliases(t, n)
  {
  }

  /** An alias spelling stays as it is or goes. */
  lemma AliasSpelling(t: Table, s: set<Path>, d: Node, migrate: bool, i: nat)
    requires TableOk(t, s) && i < |t.aliases|
    ensures var n := Rewritten(t, d, migrate); Get(n, t.aliases[i].legacy) == Get(d, t.aliases[i].legacy) || Get(n, t.aliases[i].legacy).None?
  {
    hide ContainersOk, StructsBetween, MovePass, FamilyMoves, Leaves, Antichain;
    var x, l := t.aliases[i].legacy, Leaves(t, s);
    TableGivesLeaves(t, s);
    var aliased := MovePass(d, t.aliases, migrate);
    var moved := MovePass(aliased, t.paths, migrate);
    AliasMovesLegacy(s, d, t.aliases, migrate, x);
    MovePassFrame(l, aliased, t.paths, migrate, x);
    FamilyMovesFrame(s, moved, t.families, migrate, x);
    assert Incomparable(VERSION, x) by {
      SettingsApart(s, VERSION, x);
    }
    GetSetOther(FamilyMoves(moved, t.families, migrate), VERSION, Int(8), x);
  }

  lemma SettingsApart(s: set<Path>, x: Path, y: Path)
    requires Antichain(s) && x in s && y in s && x != y
    ensures Incomparable(x, y)
  {}

  lemma {:induction false} AliasMovesLegacy(s: set<Path>, root: Node, ms: seq<Move>, migrate: bool, x: Path)
    requires Antichain(s) && Within(s, ms) && Apart(ms, ms) && Proper(ms) && x in s && NotCurrent(ms, x)
    ensures Get(MovePass(root, ms, migrate), x) == Get(root, x) || Get(MovePass(root, ms, migrate), x).None?
    decreases ms
  {
    if ms != [] {
      assert forall i | 0 <= i < |ms[1..]| :: ms[1..][i] == ms[i + 1];
      MoveStepGet(s, root, ms[0], migrate, x);
      AliasMovesLegacy(s, MoveStep(root, ms[0], migrate), ms[1..], migrate, x);
    }
  }

  /** Whatever lies above a setting is no setting. */
  lemma ParentIsContainer(s: set<Path>, c: Path, k: nat)
    requires Antichain(s) && c in s && 0 < k < |c|
    ensures Container(s, c[..k])
  {
    assert c == c[..k] + c[k..];
    forall x | x in s
      ensures !(x <= c[..k])
    {
      assert x <= c[..k] ==> x <= c && |x| < |c|;
    }
  }

  lemma AliasShapeKeeps(t: Table, s: set<Path>, d: Node, migrate: bool)
    requires TableOk(t, s) && ShapeOk(t, d, t.aliases)
    ensures ShapeOk(t, Rewritten(t, d, migrate), t.aliases)
  {
    hide ContainersOk, StructsBetween, FamiliesOk, Rewritten, Container;
    forall i, k | 0 <= i < |t.aliases| && 0 < k < |t.aliases[i].current|
      ensures ParentFine(t, Get(Rewritten(t, d, migrate), t.aliases[i].current[..k]), t.aliases[i].current[..k])
    {
      var q := t.aliases[i].current[..k];
      ParentIsContainer(s, t.aliases[i].current, k);
      CalmAbove(t, s, d, migrate, q);
      assert ParentFine(t, Get(d, q), q);
    }
  }

  /** Scalars in the place of a struct that an alias spells */

  /** What `q`, at or below the anchor `a`, holds once the aliases are resolved. */
  function Resolved(t: Table, d: Node, a: Path, q: Path): Option<Node>
    requires a <= q
  {
    var v := CurrentValue(d, t.aliases, a);
    if v.Some? then Get(v.value, q[|a|..]) else None
  }

  predicate Scalar(v: Option<Node>) {
    v.Some? && !v.value.Map?
  }

  /** Some setting below `q` is spelled in the legacy way. */
  ghost predicate LegacyBelow(t: Table, d: Node, q: Path) {
    exists j :: 0 <= j < |t.paths| && q < t.paths[j].current && LegacyGet(d, t.paths[j].legacy).Some?
  }

  /** Wherever an alias spells a struct as a scalar, a legacy setting of that struct takes its place. */
  ghost predicate ScalarsOverlaid(t: Table, d: Node) {
    forall i, k | 0 <= i < |t.paths| && |Anchor(t.aliases, t.paths[i].current)| <= k < |t.paths[i].current| ::
      var a, q := Anchor(t.aliases, t.paths[i].current), t.paths[i].current[..k];
      Scalar(Resolved(t, d, a, q)) ==> LegacyBelow(t, d, q)
  }

  /** `q` lies at or below the anchor of the i-th leaf and above the leaf. */
  ghost predicate Inside(t: Table, i: nat, q: Path) {
    i < |t.paths| && Anchor(t.aliases, t.paths[i].current) <= q && q < t.paths[i].current
  }

  lemma InsideApart(t: Table, s: set<Path>, i: nat, q: Path, x: Path)
    requires TableOk(t, s) && Inside(t, i, q) && x in s && x != Anchor(t.aliases, t.paths[i].current)
    ensures Incomparable(x, q)
  {
    hide AliasesOk, FamiliesOk, ContainersOk, StructsBetween;
    var a := Anchor(t.aliases, t.paths[i].current);
    assert AnchorRows(t)[i].current in s by {
      assert AliasesOk(t, s);
      RowsWithin(t, s, i);
    }
    assert Incomparable(x, a);
    assert x <= q ==> x <= a || a <= x;
  }

  lemma RowsWithin(t: Table, s: set<Path>, i: nat)
    requires AliasesOk(t, s) && i < |t.paths|
    ensures t.paths[i].legacy in s && Anchor(t.aliases, t.paths[i].current) in s
    ensures forall j | 0 <= j < |t.paths| :: t.paths[j].legacy != Anchor(t.aliases, t.paths[i].current)
  {
    assert AnchorRows(t)[i].legacy in s && AnchorRows(t)[i].current in s;
    assert forall j | 0 <= j < |t.paths| :: AnchorRows(t)[j].legacy != AnchorRows(t)[i].current;
  }

  /** One path move leaves what is inside alone or makes it a filled mapping. */
  lemma InsideMove(t: Table, s: set<Path>, root: Node, k: nat, i: nat, q: Path)
    requires TableOk(t, s) && k < |t.paths| && Inside(t, i, q)
    ensures var root' := MoveStep(root, t.paths[k], true);
      && (Get(root', q) == Get(root, q) || Filled(Get(root', q)))
      && (!(q < t.paths[k].current) ==> Get(root', q) == Get(root, q))
      && (q < t.paths[k].current && LegacyGet(root, t.paths[k].legacy).Some? ==> Filled(Get(root', q)))
  {
    hide FamiliesOk, ContainersOk, StructsBetween, Antichain;
    var m := t.paths[k];
    var v, removed := LegacyGet(root, m.legacy), Remove(root, m.legacy);
    RowsWithin(t, s, i);
    RowsWithin(t, s, k);
    InsideApart(t, s, i, q, m.legacy);
    if v.Some? {
      GetRemoveOther(root, m.legacy, q);
      if q < m.current {
        FilledAbove(removed, m.current, v.value, q);
        if Get(root, m.current).Some? {
          PresentBelow(root, q, m.current);
        }
      } else {
        OutsideLeaf(t, i, q, k);
        GetSetOther(removed, m.current, v.value, q);
      }
    }
  }

  lemma FilledAbove(root: Node, p: Path, v: Node, q: Path)
    requires q < p
    ensures Filled(Get(Set(root, p, v), q))
  {
    GetSetSame(root, p, v);
    PresentBelow(Set(root, p, v), q, p);
  }

  lemma PresentBelow(root: Node, q: Path, p: Path)
    requires q < p && Get(root, p).Some?
    ensures Filled(Get(root, q))
  {
    GetThrough(root, q, p);
    assert p[|q|..] != [];
  }

  lemma OutsideLeaf(t: Table, i: nat, q: Path, k: nat)
    requires CurrentsApart(t.paths) && Inside(t, i, q) && k < |t.paths| && !(q < t.paths[k].current)
    ensures Incomparable(t.paths[k].current, q)
  {
    assert i != k;
    var c, e := t.paths[i].current, t.paths[k].current;
    assert Incomparable(c, e) || Incomparable(e, c);
    assert e <= q ==> e <= c;
  }

  /** The legacy spelling of a later row is not touched by an earlier move. */
  lemma LegacyWaits(t: Table, s: set<Path>, root: Node, k: nat, j: nat)
    requires TableOk(t, s) && k < |t.paths| && j < |t.paths| && j != k
    ensures LegacyGet(MoveStep(root, t.paths[k], true), t.paths[j].legacy) == LegacyGet(root, t.paths[j].legacy)
  {
    hide ContainersOk, FamiliesOk, StructsBetween, AliasesOk, Antichain, MoveStep, Leaves;
    TableGivesLeaves(t, s);
    MoveStepGet(Leaves(t, s), root, t.paths[k], true, t.paths[j].legacy);
  }

  /** Some setting below `q`, of the rows from `k` on, is spelled in the legacy way. */
  ghost predicate LegacyFrom(t: Table, root: Node, k: nat, q: Path) {
    exists j :: k <= j < |t.paths| && q < t.paths[j].current && LegacyGet(root, t.paths[j].legacy).Some?
  }

  /** All path moves together overlay what is inside exactly when a legacy setting below it is spelled. */
  lemma {:induction false} InsideMoves(t: Table, s: set<Path>, root: Node, k: nat, i: nat, q: Path)
    requires TableOk(t, s) && k <= |t.paths| && Inside(t, i, q)
    ensures var root' := MovePass(root, t.paths[k..], true);
      if LegacyFrom(t, root, k, q) || Filled(Get(root, q)) then Filled(Get(root', q)) else Get(root', q) == Get(root, q)
    decreases |t.paths| - k
  {
    hide TableOk, Inside, MoveStep, LegacyGet, Get, Filled;
    assert Proper(t.paths) by {
      TableIsProper(t, s);
    }
    if k == |t.paths| {
      assert t.paths[k..] == [];
    } else {
      assert t.paths[k..][1..] == t.paths[k + 1..];
      var next := MoveStep(root, t.paths[k], true);
      InsideMove(t, s, root, k, i, q);
      forall j | k < j < |t.paths| ensures LegacyGet(next, t.paths[j].legacy) == LegacyGet(root, t.paths[j].legacy) {
        LegacyWaits(t, s, root, k, j);
      }
      assert LegacyFrom(t, root, k, q) <==> LegacyFrom(t, next, k + 1, q) || (q < t.paths[k].current && LegacyGet(root, t.paths[k].legacy).Some?);
      InsideMoves(t, s, next, k + 1, i, q);
      assert q < t.paths[k].current && LegacyGet(root, t.paths[k].legacy).None? ==> next == root by {
        MoveIdle(root, t.paths[k]);
      }
    }
  }

  lemma MoveIdle(root: Node, m: Move)
    requires m.legacy != []
    ensures LegacyGet(root, m.legacy).None? ==> MoveStep(root, m, true) == root
  {}

  /** What is inside an anchor after a migration. */
  lemma InsideAfter(t: Table, s: set<Path>, d: Node, i: nat, q: Path)
    requires TableOk(t, s) && Inside(t, i, q)
    ensures var n, v := Rewritten(t, d, true), Resolved(t, d, Anchor(t.aliases, t.paths[i].current), q);
      if LegacyBelow(t, d, q) || Filled(v) then Filled(Get(n, q)) else Get(n, q) == v
  {
    hide ContainersOk, FamiliesOk, StructsBetween, Antichain, MovePass, FamilyMoves, Inside;
    InsideIndex(t, i, q);
    var aliased := MovePass(d, t.aliases, true);
    InsideAliased(t, s, d, i, q);
    forall j | 0 <= j < |t.paths| ensures LegacyGet(aliased, t.paths[j].legacy) == LegacyGet(d, t.paths[j].legacy) {
      LegacyPastAliases(t, s, d, j);
    }
    assert LegacyFrom(t, aliased, 0, q) <==> LegacyBelow(t, d, q);
    assert t.paths[0..] == t.paths;
    InsideMoves(t, s, aliased, 0, i, q);
    InsideRest(t, s, MovePass(aliased, t.paths, true), i, q);
  }

  lemma LegacyPastAliases(t: Table, s: set<Path>, d: Node, j: nat)
    requires TableOk(t, s) && j < |t.paths|
    ensures Get(MovePass(d, t.aliases, true), t.paths[j].legacy) == Get(d, t.paths[j].legacy)
  {
    hide ContainersOk, FamiliesOk, StructsBetween, Antichain, MovePass;
    RowsWithin(t, s, j);
    MovePassFrame(s, d, t.aliases, true, t.paths[j].legacy);
  }

  lemma InsideAliased(t: Table, s: set<Path>, d: Node, i: nat, q: Path)
    requires TableOk(t, s) && Inside(t, i, q)
    ensures Get(MovePass(d, t.aliases, true), q) == Resolved(t, d, Anchor(t.aliases, t.paths[i].current), q)
  {
    hide ContainersOk, FamiliesOk, StructsBetween, Antichain, MovePass;
    var a, aliased := Anchor(t.aliases, t.paths[i].current), MovePass(d, t.aliases, true);
    assert AnchorRows(t)[i].current == a;
    RowsWithin(t, s, i);
    assert t.aliases[0..] == t.aliases;
    AliasMovesKeep(s, d, t.aliases, 0, true, a);
    assert forall j | 0 <= j < |t.aliases| :: LegacyGet(aliased, t.aliases[j].legacy) == Get(aliased, t.aliases[j].legacy);
    NoAlias(aliased, t.aliases, a);
    GetThrough(aliased, a, q);
  }

  /** The families and the version do not touch what is inside. */
  lemma InsideRest(t: Table, s: set<Path>, root: Node, i: nat, q: Path)
    requires TableOk(t, s) && Inside(t, i, q)
    ensures Get(Set(FamilyMoves(root, t.families, true), VERSION, Int(8)), q) == Get(root, q)
  {
    hide ContainersOk, StructsBetween, FamilyMoves, Inside, Anchor;
    assert AnchorRows(t)[i].current in s by {
      InsideIndex(t, i, q);
    }
    InsideIndex(t, i, q);
    InsideApart(t, s, i, q, VERSION);
    InsideApart(t, s, i, q, API_KEYS);
    forall j | 0 <= j < |t.families| ensures Incomparable(t.families[j].legacy, q) {
      InsideApart(t, s, i, q, t.families[j].legacy);
    }
    FamilyMovesApart(root, t.families, q);
    GetSetOther(FamilyMoves(root, t.families, true), VERSION, Int(8), q);
  }

  lemma InsideIndex(t: Table, i: nat, q: Path)
    requires Inside(t, i, q)
    ensures i < |t.paths|
  {}

  lemma {:induction false} FamilyMovesApart(root: Node, fs: seq<Family>, q: Path)
    requires Incomparable(API_KEYS, q) && forall i | 0 <= i < |fs| :: fs[i].legacy != [] && Incomparable(fs[i].legacy, q)
    ensures Get(FamilyMoves(root, fs, true), q) == Get(root, q)
    decreases fs
  {
    if fs != [] {
      var f := fs[0];
      assert forall i | 0 <= i < |fs[1..]| :: fs[1..][i] == fs[i + 1];
      var v := Get(root, f.legacy);
      if v.Some? {
        assert API_KEYS <= GroupPath(f);
        assert q <= GroupPath(f) ==> q <= API_KEYS || API_KEYS <= q;
        var placed := Set(root, GroupPath(f), GroupNode(v.value, f.name));
        GetSetOther(root, GroupPath(f), GroupNode(v.value, f.name), q);
        GetRemoveOther(placed, f.legacy, q);
        GetRemoveOther(root, f.legacy, q);
      }
      FamilyMovesApart(FamilyStep(root, f, true), fs[1..], q);
    }
  }

  /** Without migration what is inside stays as it is. */
  lemma InsideStays(t: Table, s: set<Path>, d: Node, i: nat, q: Path)
    requires TableOk(t, s) && Inside(t, i, q)
    ensures Get(Rewritten(t, d, false), q) == Get(d, q)
  {
    hide ContainersOk, StructsBetween, MovePass, FamilyMoves, Leaves, Antichain, FamiliesOk;
    var a, l := Anchor(t.aliases, t.paths[i].current), Leaves(t, s);
    RowsWithin(t, s, i);
    AnchorUntouched(t, s, d, i);
    GetThrough(d, a, q);
    GetThrough(Rewritten(t, d, false), a, q);
  }

  lemma AnchorUntouched(t: Table, s: set<Path>, d: Node, i: nat)
    requires TableOk(t, s) && i < |t.paths|
    ensures Get(Rewritten(t, d, false), Anchor(t.aliases, t.paths[i].current)) == Get(d, Anchor(t.aliases, t.paths[i].current))
  {
    hide ContainersOk, StructsBetween, MovePass, FamilyMoves, Antichain;
    var a := Anchor(t.aliases, t.paths[i].current);
    assert AnchorRows(t)[i].current == a;
    RowsWithin(t, s, i);
    RemovalsSpare(s, d, t.aliases, a);
    forall j | 0 <= j < |t.paths| ensures t.paths[j].legacy in s && t.paths[j].legacy != a {
      RowsWithin(t, s, j);
    }
    RemovalsSpare(s, MovePass(d, t.aliases, false), t.paths, a);
    FamilyMovesFrame(s, Moved(t, d, false), t.families, false, a);
  }

  /** Without migration a pass only removes legacy spellings. */
  lemma {:induction false} RemovalsSpare(s: set<Path>, root: Node, ms: seq<Move>, a: Path)
    requires Antichain(s) && a in s && Proper(ms) && forall i | 0 <= i < |ms| :: ms[i].legacy in s && ms[i].legacy != a
    ensures Get(MovePass(root, ms, false), a) == Get(root, a)
    decreases ms
  {
    if ms != [] {
      assert forall i | 0 <= i < |ms[1..]| :: ms[1..][i] == ms[i + 1];
      GetRemoveOther(root, ms[0].legacy, a);
      RemovalsSpare(s, MoveStep(root, ms[0], false), ms[1..], a);
    }
  }

  /** The rewritten document has mappings above all leaves, unless a scalar stands where an alias spelled a struct. */
  lemma PathShapeIff(t: Table, s: set<Path>, d: Node, migrate: bool)
    requires TableOk(t, s) && Regular(t, d) && ShapeOk(t, d, t.paths)
    ensures ShapeOk(t, Rewritten(t, d, migrate), t.paths) <==> (migrate ==> ScalarsOverlaid(t, d))
  {
    hide ContainersOk, StructsBetween, FamiliesOk, Rewritten, Container, Regular, Antichain, AliasesOk, Anchor, Resolved, LegacyBelow, Scalar, ParentFine;
    var n := Rewritten(t, d, migrate);
    forall i, k | 0 <= i < |t.paths| && 0 < k < |t.paths[i].current|
      ensures var a, q := Anchor(t.aliases, t.paths[i].current), t.paths[i].current[..k];
        ParentFine(t, Get(n, q), q) <==> (migrate && |a| <= k && Scalar(Resolved(t, d, a, q)) ==> LegacyBelow(t, d, q))
    {
      assert ParentFine(t, Get(d, t.paths[i].current[..k]), t.paths[i].current[..k]);
      LeafParent(t, s, d, migrate, i, k);
    }
    AnchorsNotEmpty(t, s);
  }

  lemma AnchorsNotEmpty(t: Table, s: set<Path>)
    requires TableOk(t, s)
    ensures forall i | 0 <= i < |t.paths| :: |Anchor(t.aliases, t.paths[i].current)| > 0
  {
    forall i | 0 <= i < |t.paths| ensures |Anchor(t.aliases, t.paths[i].current)| > 0 {
      RowsWithin(t, s, i);
    }
  }

  lemma LeafParent(t: Table, s: set<Path>, d: Node, migrate: bool, i: nat, k: nat)
    requires TableOk(t, s) && Regular(t, d) && i < |t.paths| && 0 < k < |t.paths[i].current|
    requires ParentFine(t, Get(d, t.paths[i].current[..k]), t.paths[i].current[..k])
    ensures var a, q := Anchor(t.aliases, t.paths[i].current), t.paths[i].current[..k];
      a <= q || |a| > k
    ensures var a, q := Anchor(t.aliases, t.paths[i].current), t.paths[i].current[..k];
      ParentFine(t, Get(Rewritten(t, d, migrate), q), q) <==> (migrate && |a| <= k && Scalar(Resolved(t, d, a, q)) ==> LegacyBelow(t, d, q))
  {
    hide ContainersOk, FamiliesOk, Rewritten, Container, Regular, Antichain, LegacyBelow, StructsBetween;
    var c, a := t.paths[i].current, Anchor(t.aliases, t.paths[i].current);
    var q := c[..k];
    RowsWithin(t, s, i);
    if k < |a| {
      assert c[..k] == a[..k];
      ParentIsContainer(s, a, k);
      CalmAbove(t, s, d, migrate, q);
    } else {
      assert a <= q && Inside(t, i, q);
      assert IsStruct(t, q) by {
        assert StructsBetween(t);
        BetweenAt(t, i, k);
      }
      StructNotBlank(t, d, q);
      if migrate {
        InsideAfter(t, s, d, i, q);
        RewriteKeepsRegular(t, s, d, true);
        StructNotBlank(t, Rewritten(t, d, true), q);
      } else {
        InsideStays(t, s, d, i, q);
      }
    }
  }

  lemma BetweenAt(t: Table, i: nat, k: nat)
    requires StructsBetween(t) && i < |t.paths| && |Anchor(t.aliases, t.paths[i].current)| <= k < |t.paths[i].current|
    ensures IsStruct(t, t.paths[i].current[..k])
  {}

  lemma StructNotBlank(t: Table, root: Node, c: Path)
    requires Regular(t, root) && IsStruct(t, c)
    ensures !Blank(Get(root, c))
  {
  }

  lemma RewriteKeepsVersion(t: Table, s: set<Path>, d: Node, migrate: bool)
    requires TableOk(t, s) && VersionOk(d)
    ensures VersionOk(Rewritten(t, d, migrate))
  {
    hide ContainersOk, StructsBetween, MovePass, FamilyMoves, Leaves, Antichain;
    var l := Leaves(t, s);
    TableGivesLeaves(t, s);
    var aliased := MovePass(d, t.aliases, migrate);
    var moved := MovePass(aliased, t.paths, migrate);
    MovePassFrame(s, d, t.aliases, migrate, VERSION);
    MovePassFrame(l, aliased, t.paths, migrate, VERSION);
    FamilyMovesFrame(s, moved, t.families, migrate, VERSION);
    GetSetSame(FamilyMoves(moved, t.families, migrate), VERSION, Int(8));
  }

  /** The entries of a legacy key value; a scalar has none. */
  function KeyList(v: Node): seq<Node> {
    if v.List? then v.items else []
  }

  /** Every legacy key list that a migration would group has only entries that groups can hold. */
  ghost predicate Migratable(t: Table, d: Node) {
    forall i | 0 <= i < |t.families| ::
      var v := Get(d, t.families[i].legacy);
      Get(d, GroupPath(t.families[i])).None? && v.Some? ==> KeyGroups.AllGroupable(KeyList(v.value), t.families[i].name)
  }

  /** No legacy key value is a filled mapping, whose pairs the grouping loop would take for entries. */
  ghost predicate KeysAreLists(t: Table, d: Node) {
    forall i | 0 <= i < |t.families| ::
      var v := Get(d, t.families[i].legacy);
      v.Some? && v.value.Map? ==> v.value.fields == map[]
  }

  lemma GroupNodeExpandsIff(v: Node, name: string)
    ensures KeyGroups.ExpandNode(GroupNode(v, name), name).Ok? <==> KeyGroups.AllGroupable(KeyList(v), name)
  {
    hide KeyGroups.Expand, KeyGroups.AllGroupable, KeyGroups.Group, KeyGroups.CleanAll;
    KeyGroups.GroupThenExpand(KeyList(v), name);
  }

  lemma RewriteKeepsRoot(t: Table, s: set<Path>, d: Node, migrate: bool)
    requires TableOk(t, s) && d.Map?
    ensures Rewritten(t, d, migrate).Map?
  {
    hide TableOk, Container, Leaves, Rewritten, MovePass;
    TableIsProper(t, s);
    AliasMovesAreCalm(t, s, d, migrate);
    RestIsCalm(t, s, d, migrate);
  }

  /**
   The rewritten document can be read again exactly when no migrated key list has an entry that
   groups cannot hold and no migrated alias leaves a scalar where a struct belongs.
   */
  lemma RewrittenFlattens(t: Table, s: set<Path>, d: Node, migrate: bool)
    requires TableOk(t, s) && Regular(t, d) && Flatten(t, d).Ok?
    ensures Regular(t, Rewritten(t, d, migrate))
    ensures Flatten(t, Rewritten(t, d, migrate)).Ok? <==> (migrate ==> Migratable(t, d) && ScalarsOverlaid(t, d))
  {
    hide ShapeOk, FamilyPass, PathPass, AliasPass, VersionOk, Rewritten, CalmOn, Regular, ContainersOk, KeyGroups.ExpandNode, KeyGroups.AllGroupable, GroupNode, ScalarsOverlaid;
    var n := Rewritten(t, d, migrate);
    FlattenRegular(t, s, d);
    RewriteKeepsRegular(t, s, d, migrate);
    assert n.Map? by {
      RewriteKeepsRoot(t, s, d, migrate);
    }
    FlattenRegular(t, s, n);
    PathShapeIff(t, s, d, migrate);
    AliasShapeKeeps(t, s, d, migrate);
    RewriteKeepsVersion(t, s, d, migrate);
    FamilyPassOk(PathPass(DropGroups(AliasPass(d, t.aliases)), t.paths), d, t.families);
    FamilyPassOk(PathPass(DropGroups(AliasPass(n, t.aliases)), t.paths), n, t.families);
    forall k | 0 <= k < |t.families|
      ensures Get(n, GroupPath(t.families[k])) == GroupsAfter(d, t.families[k], migrate)
      ensures forall v :: KeyGroups.ExpandNode(GroupNode(v, t.families[k].name), t.families[k].name).Ok?
                          <==> KeyGroups.AllGroupable(KeyList(v), t.families[k].name)
    {
      RewrittenGroups(t, s, d, migrate, k);
      forall v ensures KeyGroups.ExpandNode(GroupNode(v, t.families[k].name), t.families[k].name).Ok?
                       <==> KeyGroups.AllGroupable(KeyList(v), t.families[k].name) {
        GroupNodeExpandsIff(v, t.families[k].name);
      }
    }
  }

  /**
   Layout normalization, migrating or not, preserves meaning: the rewritten document flattens,
   and to the same value for every leaf of the path table and, up to regrouping, for every key
   family.
   */
  lemma NormalizePreservesMeaning(t: Table, s: set<Path>, d: Node, migrate: bool)
    requires TableOk(t, s) && Regular(t, d) && Flatten(t, d).Ok? && (migrate ==> KeysAreLists(t, d) && Migratable(t, d) && ScalarsOverlaid(t, d))
    ensures Normalize(t, d, migrate).Ok?
    ensures Flatten(t, Normalize(t, d, migrate).value).Ok?
    ensures forall j | 0 <= j < |t.paths| ::
              Get(Flatten(t, Normalize(t, d, migrate).value).value, t.paths[j].legacy) == Get(Flatten(t, d).value, t.paths[j].legacy)
  {
    hide Flatten, TableOk, Regular, Normalize, Rewritten, Effective, Migratable, KeysAreLists, ScalarsOverlaid;
    assert ProperTable(t) by {
      TableIsProper(t, s);
    }
    NormalizeRegular(t, d, migrate);
    var n := Rewritten(t, d, migrate);
    RewrittenFlattens(t, s, d, migrate);
    forall j | 0 <= j < |t.paths|
      ensures Get(Flatten(t, n).value, t.paths[j].legacy) == Get(Flatten(t, d).value, t.paths[j].legacy)
    {
      FlattenGivesEffective(t, s, d, j);
      FlattenGivesEffective(t, s, n, j);
      RewriteKeepsEffective(t, s, d, migrate, j);
    }
  }

  /**
   Migration writes a document that still flattens if and only if every key list it groups can be
   grouped and every scalar that an alias spells in the place of a struct is overlaid.
   */
  lemma MigrationFlattensIff(t: Table, s: set<Path>, d: Node, migrate: bool)
    requires TableOk(t, s) && Regular(t, d) && Flatten(t, d).Ok? && (migrate ==> KeysAreLists(t, d))
    ensures Normalize(t, d, migrate).Ok?
    ensures Flatten(t, Normalize(t, d, migrate).value).Ok? <==> (migrate ==> Migratable(t, d) && ScalarsOverlaid(t, d))
  {
    hide Flatten, TableOk, Regular, Normalize, Rewritten, Migratable, KeysAreLists, ScalarsOverlaid;
    assert ProperTable(t) by {
      TableIsProper(t, s);
    }
    NormalizeRegular(t, d, migrate);
    RewrittenFlattens(t, s, d, migrate);
  }

  lemma TableIsProper(t: Table, s: set<Path>)
    requires TableOk(t, s)
    ensures ProperTable(t)
  {
  }

  lemma {:induction false} FamilyMovesLegacy(s: set<Path>, root: Node, fs: seq<Family>, migrate: bool, k: nat)
    requires Antichain(s) && API_KEYS in s && k < |fs|
    requires forall i | 0 <= i < |fs| :: fs[i].legacy in s && fs[i].legacy != API_KEYS && fs[i].legacy != []
    requires forall i, j | 0 <= i < j < |fs| :: fs[i].legacy != fs[j].legacy && fs[i].name != fs[j].name
    requires GroupsAfter(root, fs[k], migrate).None?
    ensures Get(FamilyMoves(root, fs, migrate), fs[k].legacy) == Get(root, fs[k].legacy)
    decreases fs
  {
    var root', rest := FamilyStep(root, fs[0], migrate), fs[1..];
    assert forall i | 0 <= i < |rest| :: rest[i] == fs[i + 1];
    FamilyStepGroup(s, root, fs[0], migrate, fs[k]);
    if k == 0 {
      FamilyMovesFrame(s, root', rest, migrate, fs[0].legacy);
    } else {
      FamilyMovesLegacy(s, root', rest, migrate, k - 1);
    }
  }

  lemma RewrittenLegacy(t: Table, s: set<Path>, d: Node, migrate: bool, k: nat)
    requires TableOk(t, s) && k < |t.families| && GroupsAfter(d, t.families[k], migrate).None?
    ensures Get(Rewritten(t, d, migrate), t.families[k].legacy) == Get(d, t.families[k].legacy)
  {
    hide ContainersOk, StructsBetween, MovePass, FamilyMoves, Leaves;
    var l := Leaves(t, s);
    TableGivesLeaves(t, s);
    var f := t.families[k];
    var aliased := MovePass(d, t.aliases, migrate);
    var moved := MovePass(aliased, t.paths, migrate);
    MovePassGroup(s, d, t.aliases, migrate, f);
    MovePassGroup(l, aliased, t.paths, migrate, f);
    MovePassFrame(s, d, t.aliases, migrate, f.legacy);
    MovePassFrame(l, aliased, t.paths, migrate, f.legacy);
    FamilyMovesLegacy(s, moved, t.families, migrate, k);
    GetSetOther(FamilyMoves(moved, t.families, migrate), VERSION, Int(8), f.legacy);
  }

  /**
   A key family keeps its list too: unchanged when it was grouped already or stays legacy, and
   without null and auth-index fields when a migration grouped it.
   */
  lemma NormalizePreservesFamily(t: Table, s: set<Path>, d: Node, migrate: bool, k: nat)
    requires TableOk(t, s) && Regular(t, d) && Flatten(t, d).Ok? && (migrate ==> KeysAreLists(t, d) && Migratable(t, d) && ScalarsOverlaid(t, d))
    requires k < |t.families|
    ensures Normalize(t, d, migrate).Ok? && Flatten(t, Normalize(t, d, migrate).value).Ok?
    ensures var f := t.families[k];
            var after := Get(Flatten(t, Normalize(t, d, migrate).value).value, f.legacy);
            if migrate && Get(d, GroupPath(f)).None? && Get(d, f.legacy).Some?
            then after == Some(List(KeyGroups.CleanAll(KeyList(Get(d, f.legacy).value), f.name)))
            else after == Get(Flatten(t, d).value, f.legacy)
  {
    hide Flatten, Antichain, Within, FamiliesOk, ContainersOk, Regular, Normalize, Rewritten, KeyGroups.Expand, KeyGroups.Group, KeysAreLists, ScalarsOverlaid;
    var n, f := Rewritten(t, d, migrate), t.families[k];
    NormalizeRegular(t, d, migrate);
    RewrittenFlattens(t, s, d, migrate);
    FlattenGivesFamily(t, s, d, k);
    FlattenGivesFamily(t, s, n, k);
    RewrittenGroups(t, s, d, migrate, k);
    if GroupsAfter(d, f, migrate).None? {
      RewrittenLegacy(t, s, d, migrate, k);
    } else if migrate && Get(d, GroupPath(f)).None? {
      KeyGroups.GroupThenExpand(KeyList(Get(d, f.legacy).value), f.name);
    }
  }
}
