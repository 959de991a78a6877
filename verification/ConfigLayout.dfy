/**
 Translation between the legacy and the v8 configuration layout.  The path table is a
 parameter: which dotted path moves where, which historical spellings are aliases of a current
 path, which paths are struct containers, and which key families become groups.
 */
module ConfigLayout {
  import opened Options
  import opened ConfigTree
  import KeyGroups

  datatype Move = Move(legacy: Path, current: Path)

  datatype Family = Family(legacy: Path, name: string)

  datatype Table = Table(paths: seq<Move>, aliases: seq<Move>, structs: seq<Move>, sharedStructs: seq<Move>, families: seq<Family>)

  const API_KEYS: Path := ["api-keys"]
  const VERSION: Path := ["config-version"]
  const ROUTING: Path := ["routing"]

  function GroupPath(f: Family): Path {
    ["api-keys", f.name]
  }

  /** The tables are made of non-empty paths. */
  ghost predicate Proper(ms: seq<Move>) {
    forall i | 0 <= i < |ms| :: ms[i].legacy != [] && ms[i].current != []
  }

  ghost predicate ProperTable(t: Table) {
    && Proper(t.paths) && Proper(t.aliases) && Proper(t.structs) && Proper(t.sharedStructs)
    && forall i | 0 <= i < |t.families| :: t.families[i].legacy != []
  }

  /** A legacy value; a mapping under api-keys is the v8 group map, which reuses the legacy name. */
  function LegacyGet(root: Node, p: Path): Option<Node> {
    var v := Get(root, p);
    if p == API_KEYS && v.Some? && v.value.Map? then None else v
  }

  /** An explicit empty container. */
  predicate Blank(v: Option<Node>) {
    v.Some? && (v.value.Null? || (v.value.Map? && v.value.fields == map[]))
  }

  /** Flattening to the legacy layout */

  predicate ParentFine(t: Table, v: Option<Node>, p: Path) {
    || v.None? || v.value.Map?
    || (p == ROUTING && v.value.Null?)
    || (|p| > 1 && v.value.Null? && exists i :: 0 <= i < |t.structs| && t.structs[i].current == p)
  }

  /** Everything above a current path is a mapping. */
  ghost predicate ShapeOk(t: Table, root: Node, ms: seq<Move>) {
    forall i, k | 0 <= i < |ms| && 0 < k < |ms[i].current| :: ParentFine(t, Get(root, ms[i].current[..k]), ms[i].current[..k])
  }

  function AliasStep(root: Node, m: Move): Node
    requires m.legacy != []
  {
    var v := Get(root, m.legacy);
    if v.None? then root
    else Remove(if Get(root, m.current).None? then Set(root, m.current, v.value) else root, m.legacy)
  }

  function AliasPass(root: Node, ms: seq<Move>): Node
    requires Proper(ms)
    decreases ms
  {
    if ms == [] then root else AliasPass(AliasStep(root, ms[0]), ms[1..])
  }

  function SharedPass(root: Node, ms: seq<Move>): KeyGroups.Result<Node>
    requires Proper(ms)
    decreases ms
  {
    if ms == [] then KeyGroups.Ok(root)
    else
      var v := Get(root, ms[0].legacy);
      if v.Some? && !v.value.Null? && !v.value.Map? then KeyGroups.Err
      else if !Blank(v) then SharedPass(root, ms[1..])
      else
        var filled := if Get(root, ms[0].current).None? then Set(root, ms[0].current, Map(map[])) else root;
        SharedPass(Remove(filled, ms[0].legacy), ms[1..])
  }

  predicate Under(container: Path, p: Path) {
    container < p
  }

  function ClearLeaves(root: Node, leaves: seq<Move>, container: Move): Node
    requires Proper(leaves)
    decreases leaves
  {
    if leaves == [] then root
    else ClearLeaves(if Under(container.legacy, leaves[0].legacy) && Under(container.current, leaves[0].current) then Remove(root, leaves[0].legacy) else root, leaves[1..], container)
  }

  function StructPass(root: Node, structs: seq<Move>, leaves: seq<Move>): Node
    requires Proper(structs) && Proper(leaves)
    decreases structs
  {
    if structs == [] then root
    else
      StructPass(
        if Blank(Get(root, structs[0].current)) then ClearLeaves(Remove(root, structs[0].current), leaves, structs[0]) else root,
        structs[1..], leaves)
  }

  function DropGroups(root: Node): Node {
    var keys := Get(root, API_KEYS);
    if keys.Some? && keys.value.Map? then Remove(root, API_KEYS) else root
  }

  function PathStep(root: Node, m: Move): Node
    requires m.current != []
  {
    var v := Get(root, m.current);
    if v.Some? then Set(Remove(root, m.current), m.legacy, v.value) else root
  }

  function PathPass(root: Node, ms: seq<Move>): Node
    requires Proper(ms)
    decreases ms
  {
    if ms == [] then root else PathPass(PathStep(root, ms[0]), ms[1..])
  }

  ghost function FamilyPass(root: Node, source: Node, fs: seq<Family>): KeyGroups.Result<Node>
    decreases fs
  {
    if fs == [] then KeyGroups.Ok(root)
    else
      var groups := Get(source, GroupPath(fs[0]));
      if groups.None? then FamilyPass(root, source, fs[1..])
      else
        var keys := KeyGroups.ExpandNode(groups.value, fs[0].name);
        if keys.Err? then KeyGroups.Err else FamilyPass(Set(root, fs[0].legacy, keys.value), source, fs[1..])
  }

  predicate VersionOk(root: Node) {
    Get(root, VERSION).None? || Get(root, VERSION) == Some(Int(8))
  }

  ghost function Flatten(t: Table, source: Node): KeyGroups.Result<Node>
    requires ProperTable(t)
  {
    if !source.Map? || !ShapeOk(t, source, t.paths) || !ShapeOk(t, source, t.aliases) then KeyGroups.Err
    else
      var shared := SharedPass(AliasPass(source, t.aliases), t.sharedStructs);
      if shared.Err? || !VersionOk(shared.value) then KeyGroups.Err
      else
        var cleared := StructPass(DropGroups(shared.value), t.structs, t.paths);
        FamilyPass(PathPass(cleared, t.paths), source, t.families)
  }

  /** Normalizing the layout of a document */

  function MoveStep(root: Node, m: Move, migrate: bool): Node
    requires m.legacy != []
  {
    var v := LegacyGet(root, m.legacy);
    var current := Get(root, m.current);
    if v.None? || (current.None? && !migrate) then root
    else if current.None? then Set(Remove(root, m.legacy), m.current, v.value)
    else Remove(root, m.legacy)
  }

  function MovePass(root: Node, ms: seq<Move>, migrate: bool): Node
    requires Proper(ms)
    decreases ms
  {
    if ms == [] then root else MovePass(MoveStep(root, ms[0], migrate), ms[1..], migrate)
  }

  function ClearPass(root: Node, structs: seq<Move>, leaves: seq<Move>): Node
    requires Proper(structs) && Proper(leaves)
    decreases structs
  {
    if structs == [] then root
    else ClearPass(if Blank(Get(root, structs[0].current)) then ClearLeaves(root, leaves, structs[0]) else root, structs[1..], leaves)
  }

  /** A null legacy container becomes an empty mapping before it moves. */
  function EmptyNulls(root: Node, ms: seq<Move>, migrate: bool): Node
    decreases ms
  {
    if ms == [] then root
    else
      var v := Get(root, ms[0].legacy);
      EmptyNulls(if v == Some(Null) && (migrate || Get(root, ms[0].current).Some?) then Set(root, ms[0].legacy, Map(map[])) else root, ms[1..], migrate)
  }

  /** The empty legacy containers, which move as a whole. */
  function EmptyContainers(root: Node, ms: seq<Move>, migrate: bool): (r: seq<Move>)
    requires Proper(ms)
    ensures Proper(r)
    decreases ms
  {
    if ms == [] then []
    else
      var rest := EmptyContainers(root, ms[1..], migrate);
      if Blank(Get(root, ms[0].legacy)) && (migrate || Get(root, ms[0].current).Some?) then [ms[0]] + rest else rest
  }

  function GroupNode(keys: Node, provider: string): Node {
    List(KeyGroups.Group(if keys.List? then keys.items else [], provider))
  }

  function FamilyStep(root: Node, f: Family, migrate: bool): Node
    requires f.legacy != []
  {
    var v := Get(root, f.legacy);
    var present := Get(root, GroupPath(f)).Some?;
    if v.None? || (!present && !migrate) then root
    else Remove(if present then root else Set(root, GroupPath(f), GroupNode(v.value, f.name)), f.legacy)
  }

  function FamilyMoves(root: Node, fs: seq<Family>, migrate: bool): Node
    requires forall i | 0 <= i < |fs| :: fs[i].legacy != []
    decreases fs
  {
    if fs == [] then root else FamilyMoves(FamilyStep(root, fs[0], migrate), fs[1..], migrate)
  }

  ghost function Normalize(t: Table, source: Node, migrate: bool): KeyGroups.Result<Node>
    requires ProperTable(t)
  {
    if Flatten(t, source).Err? then KeyGroups.Err
    else
      var cleared := ClearPass(source, t.structs, t.paths);
      var containers := t.structs + t.sharedStructs;
      var emptied := EmptyNulls(cleared, containers, migrate);
      var moves := t.aliases + t.paths + EmptyContainers(emptied, containers, migrate);
      var moved := MovePass(emptied, moves, migrate);
      var grouped := FamilyMoves(moved, t.families, migrate);
      KeyGroups.Ok(if migrate then Set(grouped, VERSION, Int(8)) else grouped)
  }

  /** The loops over the table, each updating the document in place */

  method CheckShape(t: Table, root: Node, ms: seq<Move>) returns (ok: bool)
    ensures ok <==> ShapeOk(t, root, ms)
  {
    for i := 0 to |ms|
      invariant forall j, k | 0 <= j < i && 0 < k < |ms[j].current| :: ParentFine(t, Get(root, ms[j].current[..k]), ms[j].current[..k])
    {
      var k := 1;
      while k < |ms[i].current|
        invariant k >= 1
        invariant forall l | 0 < l < k && l < |ms[i].current| :: ParentFine(t, Get(root, ms[i].current[..l]), ms[i].current[..l])
      {
        if !ParentFine(t, Get(root, ms[i].current[..k]), ms[i].current[..k]) {
          return false;
        }
        k := k + 1;
      }
    }
    return true;
  }

  method ResolveAliases(source: Node, ms: seq<Move>) returns (root: Node)
    requires Proper(ms)
    ensures root == AliasPass(source, ms)
  {
    root := source;
    for i := 0 to |ms|
      invariant AliasPass(root, ms[i..]) == AliasPass(source, ms)
    {
      assert ms[i..][1..] == ms[i + 1..];
      var v := Get(root, ms[i].legacy);
      if v.Some? {
        if Get(root, ms[i].current).None? {
          root := Set(root, ms[i].current, v.value);
        }
        root := Remove(root, ms[i].legacy);
      }
    }
  }

  method ResolveShared(source: Node, ms: seq<Move>) returns (r: KeyGroups.Result<Node>)
    requires Proper(ms)
    ensures r == SharedPass(source, ms)
  {
    var root := source;
    for i := 0 to |ms|
      invariant SharedPass(root, ms[i..]) == SharedPass(source, ms)
    {
      assert ms[i..][1..] == ms[i + 1..];
      var v := Get(root, ms[i].legacy);
      if v.Some? && !v.value.Null? && !v.value.Map? {
        return KeyGroups.Err;
      }
      if Blank(v) {
        if Get(root, ms[i].current).None? {
          root := Set(root, ms[i].current, Map(map[]));
        }
        root := Remove(root, ms[i].legacy);
      }
    }
    return KeyGroups.Ok(root);
  }

  method ClearStructLegacyLeaves(source: Node, leaves: seq<Move>, container: Move) returns (root: Node)
    requires Proper(leaves)
    ensures root == ClearLeaves(source, leaves, container)
  {
    root := source;
    for i := 0 to |leaves|
      invariant ClearLeaves(root, leaves[i..], container) == ClearLeaves(source, leaves, container)
    {
      assert leaves[i..][1..] == leaves[i + 1..];
      if Under(container.legacy, leaves[i].legacy) && Under(container.current, leaves[i].current) {
        root := Remove(root, leaves[i].legacy);
      }
    }
  }

  method ResetStructs(source: Node, structs: seq<Move>, leaves: seq<Move>) returns (root: Node)
    requires Proper(structs) && Proper(leaves)
    ensures root == StructPass(source, structs, leaves)
  {
    root := source;
    for i := 0 to |structs|
      invariant StructPass(root, structs[i..], leaves) == StructPass(source, structs, leaves)
    {
      assert structs[i..][1..] == structs[i + 1..];
      if Blank(Get(root, structs[i].current)) {
        root := Remove(root, structs[i].current);
        root := ClearStructLegacyLeaves(root, leaves, structs[i]);
      }
    }
  }

  method MoveToLegacy(source: Node, ms: seq<Move>) returns (root: Node)
    requires Proper(ms)
    ensures root == PathPass(source, ms)
  {
    root := source;
    for i := 0 to |ms|
      invariant PathPass(root, ms[i..]) == PathPass(source, ms)
    {
      assert ms[i..][1..] == ms[i + 1..];
      var v := Get(root, ms[i].current);
      if v.Some? {
        root := Remove(root, ms[i].current);
        root := Set(root, ms[i].legacy, v.value);
      }
    }
  }

  method ExpandFamilies(start: Node, source: Node, fs: seq<Family>) returns (r: KeyGroups.Result<Node>)
    ensures r == FamilyPass(start, source, fs)
  {
    var root := start;
    for i := 0 to |fs|
      invariant FamilyPass(root, source, fs[i..]) == FamilyPass(start, source, fs)
    {
      assert fs[i..][1..] == fs[i + 1..];
      var groups := Get(source, GroupPath(fs[i]));
      if groups.Some? {
        var keys := KeyGroups.ExpandV8Groups(groups.value, fs[i].name);
        if keys.Err? {
          return KeyGroups.Err;
        }
        root := Set(root, fs[i].legacy, keys.value);
      }
    }
    return KeyGroups.Ok(root);
  }

  method FlattenV8(t: Table, source: Node) returns (r: KeyGroups.Result<Node>)
    requires ProperTable(t)
    ensures r == Flatten(t, source)
  {
    if !source.Map? {
      return KeyGroups.Err;
    }
    var pathsOk := CheckShape(t, source, t.paths);
    var aliasesOk := CheckShape(t, source, t.aliases);
    if !pathsOk || !aliasesOk {
      return KeyGroups.Err;
    }
    var root := ResolveAliases(source, t.aliases);
    var shared := ResolveShared(root, t.sharedStructs);
    if shared.Err? || !VersionOk(shared.value) {
      return KeyGroups.Err;
    }
    root := DropGroups(shared.value);
    root := ResetStructs(root, t.structs, t.paths);
    root := MoveToLegacy(root, t.paths);
    r := ExpandFamilies(root, source, t.families);
  }

  method MoveAll(source: Node, ms: seq<Move>, migrate: bool) returns (root: Node)
    requires Proper(ms)
    ensures root == MovePass(source, ms, migrate)
  {
    root := source;
    for i := 0 to |ms|
      invariant MovePass(root, ms[i..], migrate) == MovePass(source, ms, migrate)
    {
      assert ms[i..][1..] == ms[i + 1..];
      var v := LegacyGet(root, ms[i].legacy);
      if v.Some? {
        var current := Get(root, ms[i].current);
        if current.Some? || migrate {
          root := Remove(root, ms[i].legacy);
          if current.None? {
            root := Set(root, ms[i].current, v.value);
          }
        }
      }
    }
  }

  method GroupFamilies(source: Node, fs: seq<Family>, migrate: bool) returns (root: Node)
    requires forall i | 0 <= i < |fs| :: fs[i].legacy != []
    ensures root == FamilyMoves(source, fs, migrate)
  {
    root := source;
    for i := 0 to |fs|
      invariant FamilyMoves(root, fs[i..], migrate) == FamilyMoves(source, fs, migrate)
    {
      assert fs[i..][1..] == fs[i + 1..];
      var v := Get(root, fs[i].legacy);
      if v.Some? {
        var present := Get(root, GroupPath(fs[i])).Some?;
        if present || migrate {
          if !present {
            var groups := KeyGroups.GroupLegacyKeys(v.value, fs[i].name);
            root := Set(root, GroupPath(fs[i]), groups);
          }
          root := Remove(root, fs[i].legacy);
        }
      }
    }
  }

  method NormalizeConfigLayout(t: Table, source: Node, migrate: bool) returns (r: KeyGroups.Result<Node>)
    requires ProperTable(t)
    ensures r == Normalize(t, source, migrate)
  {
    var flat := FlattenV8(t, source);
    if flat.Err? {
      return KeyGroups.Err;
    }
    var root := ClearPass(source, t.structs, t.paths);
    var containers := t.structs + t.sharedStructs;
    root := EmptyNulls(root, containers, migrate);
    root := MoveAll(root, t.aliases + t.paths + EmptyContainers(root, containers, migrate), migrate);
    root := GroupFamilies(root, t.families, migrate);
    return KeyGroups.Ok(if migrate then Set(root, VERSION, Int(8)) else root);
  }
}
