/**
 Expansion of aliases and merge keys.  The result is a tree, so it has no alias nodes by its
 type; what is proved is that it has no merge keys either, and that every key lookup in it
 answers what the document means: explicit keys win over merged ones wherever they stand, and
 earlier merge sources win over later ones.
 */
module AliasExpand {
  import opened Options
  import opened YamlGraph

  const MERGE := "!!merge"

  datatype Tree =
    | Leaf(tag: string, value: string)
    | List(tag: string, items: seq<Tree>)
    | Map(tag: string, pairs: seq<Pair>)

  datatype Pair = Pair(key: Tree, value: Tree)

  /** Merging on expanded pairs */

  /** YAML key equality: scalars match when both tag and value match. */
  predicate SameKey(a: Tree, b: Tree) {
    a.Leaf? && b.Leaf? && a.value == b.value && a.tag == b.tag
  }

  function LookupPairs(pairs: seq<Pair>, key: Tree): Option<Tree> {
    if pairs == [] then None
    else if SameKey(pairs[0].key, key) then Some(pairs[0].value)
    else LookupPairs(pairs[1..], key)
  }

  function Lookup(t: Tree, key: Tree): Option<Tree> {
    if t.Map? then LookupPairs(t.pairs, key) else None
  }

  /** Keys are found by value and tag, and by nothing else: the first pair with that very scalar as its key. */
  lemma {:induction false} LookupFindsScalar(pairs: seq<Pair>, key: Tree)
    requires key.Leaf?
    ensures LookupPairs(pairs, key).Some? <==> exists i :: 0 <= i < |pairs| && pairs[i].key == key
    ensures forall i | 0 <= i < |pairs| && pairs[i].key == key && (forall j | 0 <= j < i :: pairs[j].key != key) :: LookupPairs(pairs, key) == Some(pairs[i].value)
  {
    if pairs != [] {
      LookupFindsScalar(pairs[1..], key);
      assert forall i | 0 <= i < |pairs[1..]| :: pairs[1..][i] == pairs[i + 1];
      if i :| 0 <= i < |pairs| && pairs[i].key == key {
        assert i > 0 ==> pairs[1..][i - 1].key == key;
      }
      if i :| 0 <= i < |pairs[1..]| && pairs[1..][i].key == key {
        assert pairs[i + 1].key == key;
      }
      forall i | 0 <= i < |pairs| && pairs[i].key == key && (forall j | 0 <= j < i :: pairs[j].key != key)
        ensures LookupPairs(pairs, key) == Some(pairs[i].value)
      {
        if i > 0 {
          assert pairs[1..][i - 1].key == key;
          assert pairs[0].key != key;
          assert forall j | 0 <= j < i - 1 :: pairs[1..][j].key != key;
        }
      }
    }
  }

  /** The content index of the first matching key, or -1: pairs are stored as alternating nodes. */
  method FindKey(pairs: seq<Pair>, key: Tree) returns (index: int)
    ensures index == -1 <==> LookupPairs(pairs, key).None?
    ensures index != -1 ==>
      && 0 <= index < 2 * |pairs| && index % 2 == 0
      && SameKey(pairs[index / 2].key, key) && LookupPairs(pairs, key) == Some(pairs[index / 2].value)
      && forall j | 0 <= j < index / 2 :: !SameKey(pairs[j].key, key)
  {
    for i := 0 to |pairs|
      invariant LookupPairs(pairs, key) == LookupPairs(pairs[i..], key)
      invariant forall j | 0 <= j < i :: !SameKey(pairs[j].key, key)
    {
      if SameKey(pairs[i].key, key) {
        return 2 * i;
      }
    }
    return -1;
  }

  function PairsOf(t: Tree): seq<Pair> {
    if t.Map? then t.pairs else []
  }

  /** The mappings that the value of a merge key names. */
  function Sources(merge: Tree): seq<Tree> {
    if merge.List? then merge.items else [merge]
  }

  function AddMissing(acc: seq<Pair>, src: seq<Pair>): seq<Pair>
    decreases src
  {
    if src == [] then acc
    else AddMissing(if LookupPairs(acc, src[0].key).Some? then acc else acc + [src[0]], src[1..])
  }

  function MergeAll(acc: seq<Pair>, sources: seq<Tree>): seq<Pair>
    decreases sources
  {
    if sources == [] then acc else MergeAll(AddMissing(acc, PairsOf(sources[0])), sources[1..])
  }

  /** The pairs without their merge keys. */
  function Explicit(pairs: seq<Pair>): seq<Pair> {
    if pairs == [] then []
    else if pairs[0].key.tag == MERGE then Explicit(pairs[1..])
    else [pairs[0]] + Explicit(pairs[1..])
  }

  function MergeSources(pairs: seq<Pair>): seq<Tree> {
    if pairs == [] then []
    else (if pairs[0].key.tag == MERGE then Sources(pairs[0].value) else []) + MergeSources(pairs[1..])
  }

  function Resolve(pairs: seq<Pair>): seq<Pair> {
    MergeAll(Explicit(pairs), MergeSources(pairs))
  }

  /** Trees without merge keys at any depth. */
  ghost predicate MergeFree(t: Tree) {
    match t
    case Leaf(_, _) => true
    case List(_, items) => forall i | 0 <= i < |items| :: MergeFree(items[i])
    case Map(_, pairs) => forall i | 0 <= i < |pairs| :: pairs[i].key.tag != MERGE && MergeFree(pairs[i].key) && MergeFree(pairs[i].value)
  }

  ghost predicate Plain(pairs: seq<Pair>) {
    forall i | 0 <= i < |pairs| :: pairs[i].key.tag != MERGE && MergeFree(pairs[i].key) && MergeFree(pairs[i].value)
  }

  ghost predicate SourcesMergeFree(sources: seq<Tree>) {
    forall i | 0 <= i < |sources| :: MergeFree(sources[i])
  }

  lemma {:induction false} LookupAppend(a: seq<Pair>, b: seq<Pair>, key: Tree)
    ensures LookupPairs(a + b, key) == if LookupPairs(a, key).Some? then LookupPairs(a, key) else LookupPairs(b, key)
  {
    if a == [] {
      assert a + b == b;
    } else {
      LookupAppend(a[1..], b, key);
      assert (a + b)[1..] == a[1..] + b;
    }
  }

  /** Whatever was there first wins. */
  lemma {:induction false} LookupAddMissing(acc: seq<Pair>, src: seq<Pair>, key: Tree)
    ensures LookupPairs(AddMissing(acc, src), key) == if LookupPairs(acc, key).Some? then LookupPairs(acc, key) else LookupPairs(src, key)
    decreases src
  {
    if src != [] {
      var acc' := if LookupPairs(acc, src[0].key).Some? then acc else acc + [src[0]];
      LookupAddMissing(acc', src[1..], key);
      LookupAppend(acc, [src[0]], key);
      if SameKey(src[0].key, key) {
        SameKeyLookup(acc, src[0].key, key);
      }
    }
  }

  lemma {:induction false} SameKeyLookup(pairs: seq<Pair>, a: Tree, b: Tree)
    requires SameKey(a, b)
    ensures LookupPairs(pairs, a) == LookupPairs(pairs, b)
  {
    if pairs != [] {
      SameKeyLookup(pairs[1..], a, b);
    }
  }

  function LookupSources(sources: seq<Tree>, key: Tree): Option<Tree> {
    if sources == [] then None
    else if Lookup(sources[0], key).Some? then Lookup(sources[0], key)
    else LookupSources(sources[1..], key)
  }

  lemma {:induction false} LookupSourcesAppend(a: seq<Tree>, b: seq<Tree>, key: Tree)
    ensures LookupSources(a + b, key) == if LookupSources(a, key).Some? then LookupSources(a, key) else LookupSources(b, key)
  {
    if a == [] {
      assert a + b == b;
    } else {
      LookupSourcesAppend(a[1..], b, key);
      assert (a + b)[1..] == a[1..] + b;
    }
  }

  lemma {:induction false} LookupMergeAll(acc: seq<Pair>, sources: seq<Tree>, key: Tree)
    ensures LookupPairs(MergeAll(acc, sources), key) ==
            if LookupPairs(acc, key).Some? then LookupPairs(acc, key) else LookupSources(sources, key)
    decreases sources
  {
    if sources != [] {
      LookupMergeAll(AddMissing(acc, PairsOf(sources[0])), sources[1..], key);
      LookupAddMissing(acc, PairsOf(sources[0]), key);
    }
  }

  lemma {:induction false} MergeAllAppend(acc: seq<Pair>, a: seq<Tree>, b: seq<Tree>)
    ensures MergeAll(acc, a + b) == MergeAll(MergeAll(acc, a), b)
    decreases a
  {
    if a == [] {
      assert a + b == b;
    } else {
      MergeAllAppend(AddMissing(acc, PairsOf(a[0])), a[1..], b);
      assert (a + b)[1..] == a[1..] + b;
    }
  }

  lemma {:induction false} ExplicitAppend(a: seq<Pair>, b: seq<Pair>)
    ensures Explicit(a + b) == Explicit(a) + Explicit(b)
  {
    hide Sources;
    if a == [] {
      assert a + b == b;
    } else {
      var rest := a[1..];
      ExplicitAppend(rest, b);
      assert (a + b)[0] == a[0] && (a + b)[1..] == rest + b;
      Associate([a[0]], Explicit(rest), Explicit(b));
    }
  }

  lemma Associate<T>(x: seq<T>, y: seq<T>, z: seq<T>)
    ensures x + (y + z) == (x + y) + z
  {
  }

  lemma {:induction false} MergeSourcesAppend(a: seq<Pair>, b: seq<Pair>)
    ensures MergeSources(a + b) == MergeSources(a) + MergeSources(b)
  {
    hide Sources;
    if a == [] {
      assert a + b == b;
    } else {
      var rest := a[1..];
      MergeSourcesAppend(rest, b);
      assert (a + b)[0] == a[0] && (a + b)[1..] == rest + b;
      Associate(if a[0].key.tag == MERGE then Sources(a[0].value) else [], MergeSources(rest), MergeSources(b));
    }
  }

  lemma {:induction false} ExplicitIsShorter(pairs: seq<Pair>)
    ensures |Explicit(pairs)| <= |pairs|
  {
    if pairs != [] {
      ExplicitIsShorter(pairs[1..]);
    }
  }

  lemma ExplicitOfOne(p: Pair)
    ensures Explicit([p]) == (if p.key.tag == MERGE then [] else [p])
    ensures MergeSources([p]) == (if p.key.tag == MERGE then Sources(p.value) else [])
  {
    assert [p][1..] == [];
  }

  lemma {:induction false} ExplicitOfPlain(pairs: seq<Pair>)
    requires Plain(pairs)
    ensures Explicit(pairs) == pairs && MergeSources(pairs) == []
  {
    if pairs != [] {
      assert forall i | 0 <= i < |pairs[1..]| :: pairs[1..][i] == pairs[i + 1];
      ExplicitOfPlain(pairs[1..]);
    }
  }

  lemma {:induction false} LookupIgnoresMergeKeys(pairs: seq<Pair>, key: Tree)
    requires key.tag != MERGE
    ensures LookupPairs(Explicit(pairs), key) == LookupPairs(pairs, key)
  {
    if pairs != [] {
      LookupIgnoresMergeKeys(pairs[1..], key);
    }
  }

  /** Merge keys that are still waiting do not disturb the addition of merged pairs. */
  lemma {:induction false} ExplicitAddMissing(acc: seq<Pair>, src: seq<Pair>)
    requires Plain(src)
    ensures Explicit(AddMissing(acc, src)) == AddMissing(Explicit(acc), src)
    ensures MergeSources(AddMissing(acc, src)) == MergeSources(acc)
    decreases src
  {
    if src != [] {
      LookupIgnoresMergeKeys(acc, src[0].key);
      ExplicitAppend(acc, [src[0]]);
      MergeSourcesAppend(acc, [src[0]]);
      ExplicitOfOne(src[0]);
      assert forall i | 0 <= i < |src[1..]| :: src[1..][i] == src[i + 1];
      ExplicitAddMissing(if LookupPairs(acc, src[0].key).Some? then acc else acc + [src[0]], src[1..]);
    }
  }

  lemma {:induction false} ExplicitMergeAll(acc: seq<Pair>, sources: seq<Tree>)
    requires SourcesMergeFree(sources)
    ensures Explicit(MergeAll(acc, sources)) == MergeAll(Explicit(acc), sources)
    ensures MergeSources(MergeAll(acc, sources)) == MergeSources(acc)
    decreases sources
  {
    if sources != [] {
      assert MergeFree(sources[0]);
      ExplicitAddMissing(acc, PairsOf(sources[0]));
      assert forall i | 0 <= i < |sources[1..]| :: sources[1..][i] == sources[i + 1];
      ExplicitMergeAll(AddMissing(acc, PairsOf(sources[0])), sources[1..]);
    }
  }

  lemma {:induction false} AddMissingGrows(acc: seq<Pair>, src: seq<Pair>)
    requires Plain(src)
    ensures acc <= AddMissing(acc, src) && Plain(AddMissing(acc, src)[|acc|..])
    decreases src
  {
    if src != [] {
      assert forall i | 0 <= i < |src[1..]| :: src[1..][i] == src[i + 1];
      AddMissingGrows(if LookupPairs(acc, src[0].key).Some? then acc else acc + [src[0]], src[1..]);
    }
  }

  lemma {:induction false} MergeAllGrows(acc: seq<Pair>, sources: seq<Tree>)
    requires SourcesMergeFree(sources)
    ensures acc <= MergeAll(acc, sources) && Plain(MergeAll(acc, sources)[|acc|..])
    decreases sources
  {
    if sources != [] {
      assert MergeFree(sources[0]);
      var acc' := AddMissing(acc, PairsOf(sources[0]));
      AddMissingGrows(acc, PairsOf(sources[0]));
      assert forall i | 0 <= i < |sources[1..]| :: sources[1..][i] == sources[i + 1];
      MergeAllGrows(acc', sources[1..]);
      var r := MergeAll(acc, sources);
      forall i | 0 <= i < |r[|acc|..]|
        ensures r[|acc|..][i].key.tag != MERGE && MergeFree(r[|acc|..][i].key) && MergeFree(r[|acc|..][i].value)
      {
        if i < |acc'| - |acc| {
          assert r[|acc|..][i] == acc'[|acc|..][i];
        } else {
          assert r[|acc|..][i] == r[|acc'|..][i - (|acc'| - |acc|)];
        }
      }
    }
  }

  /** Pairs whose keys and values, merge values included, are free of merge keys below the top. */
  ghost predicate Ready(pairs: seq<Pair>) {
    forall i | 0 <= i < |pairs| ::
      MergeFree(pairs[i].key) && MergeFree(pairs[i].value)
  }

  lemma SourcesOfMergeFree(t: Tree)
    requires MergeFree(t)
    ensures SourcesMergeFree(Sources(t))
  {
  }

  /** Taking the first merge key out of the pairs. */
  lemma TakeMergeKey(pairs: seq<Pair>, i: nat)
    requires i < |pairs| && Plain(pairs[..i]) && pairs[i].key.tag == MERGE
    ensures var rest := pairs[..i] + pairs[i + 1..];
            Explicit(pairs) == Explicit(rest) && MergeSources(pairs) == Sources(pairs[i].value) + MergeSources(rest)
  {
    hide Explicit, MergeSources, Plain, Sources;
    var front, back := pairs[..i], pairs[i + 1..];
    assert pairs == front + ([pairs[i]] + back);
    ExplicitAppend(front, [pairs[i]] + back);
    ExplicitAppend([pairs[i]], back);
    ExplicitAppend(front, back);
    MergeSourcesAppend(front, [pairs[i]] + back);
    MergeSourcesAppend([pairs[i]], back);
    MergeSourcesAppend(front, back);
    ExplicitOfPlain(front);
    ExplicitOfOne(pairs[i]);
  }

  lemma MergeKeepsReady(rest: seq<Pair>, sources: seq<Tree>)
    requires Ready(rest) && SourcesMergeFree(sources)
    ensures Ready(MergeAll(rest, sources)) && rest <= MergeAll(rest, sources)
    ensures |MergeAll(rest, sources)| - |Explicit(MergeAll(rest, sources))| == |rest| - |Explicit(rest)|
  {
    var next := MergeAll(rest, sources);
    MergeAllGrows(rest, sources);
    var added := next[|rest|..];
    assert next == rest + added;
    ExplicitAppend(rest, added);
    ExplicitOfPlain(added);
  }

  /** One turn of the loop: taking the first merge key out and merging its sources keeps the outcome. */
  lemma MergeStep(pairs: seq<Pair>, i: nat)
    requires i < |pairs| && Ready(pairs) && Plain(pairs[..i]) && pairs[i].key.tag == MERGE
    ensures var next := MergeAll(pairs[..i] + pairs[i + 1..], Sources(pairs[i].value));
            && Resolve(next) == Resolve(pairs) && Ready(next)
            && i <= |next| && next[..i] == pairs[..i]
            && |next| - |Explicit(next)| < |pairs| - |Explicit(pairs)|
  {
    var rest := pairs[..i] + pairs[i + 1..];
    var sources := Sources(pairs[i].value);
    SourcesOfMergeFree(pairs[i].value);
    var next := MergeAll(rest, sources);
    TakeMergeKey(pairs, i);
    ExplicitMergeAll(rest, sources);
    MergeAllAppend(Explicit(rest), sources, MergeSources(rest));
    MergeKeepsReady(rest, sources);
    assert next[..i] == rest[..i] == pairs[..i];
  }

  /** The loops of the expansion */

  method AddMissingPairs(acc: seq<Pair>, src: seq<Pair>) returns (r: seq<Pair>)
    ensures r == AddMissing(acc, src)
  {
    r := acc;
    for j := 0 to |src|
      invariant AddMissing(r, src[j..]) == AddMissing(acc, src)
    {
      var index := FindKey(r, src[j].key);
      assert src[j..][1..] == src[j + 1..];
      if index < 0 {
        r := r + [src[j]];
      }
    }
  }

  method MergeMappings(acc: seq<Pair>, mappings: seq<Tree>) returns (r: seq<Pair>)
    ensures r == MergeAll(acc, mappings)
  {
    r := acc;
    for j := 0 to |mappings|
      invariant MergeAll(r, mappings[j..]) == MergeAll(acc, mappings)
    {
      r := AddMissingPairs(r, PairsOf(mappings[j]));
      assert mappings[j..][1..] == mappings[j + 1..];
    }
  }

  /** Resolve the merge keys of a mapping whose children are expanded already, in place. */
  method ResolveMerges(pairs: seq<Pair>) returns (content: seq<Pair>)
    requires Ready(pairs)
    ensures content == Resolve(pairs)
  {
    content := pairs;
    var i := 0;
    ExplicitIsShorter(content);
    while i < |content|
      invariant 0 <= i <= |content| && Ready(content) && Plain(content[..i])
      invariant Resolve(content) == Resolve(pairs)
      invariant |Explicit(content)| <= |content|
      decreases |content| - |Explicit(content)|, |content| - i
    {
      if content[i].key.tag != MERGE {
        assert content[..i + 1] == content[..i] + [content[i]];
        i := i + 1;
      } else {
        MergeStep(content, i);
        content := MergeMappings(content[..i] + content[i + 1..], Sources(content[i].value));
        ExplicitIsShorter(content);
      }
    }
    assert content[..i] == content;
    ExplicitOfPlain(content);
  }

  /** Expansion of a document */

  /** A document without alias cycles in which every alias is resolved. */
  ghost predicate Document(g: Graph, rank: map<NodeId, nat>) {
    && Ranked(g, rank)
    && (forall n | n in rank && g[n].Alias? :: g[n].target.Some?)
  }

  /** The node that an identity stands for once aliases are followed. */
  ghost function Deref(g: Graph, rank: map<NodeId, nat>, n: NodeId): (d: NodeId)
    requires Document(g, rank) && n in rank
    ensures d in rank && !g[d].Alias? && rank[d] <= rank[n]
    decreases rank[n]
  {
    if g[n].Alias? then
      assert g[n].target.value in Successors(g[n]);
      Deref(g, rank, g[n].target.value)
    else n
  }

  ghost predicate Below(rank: map<NodeId, nat>, pairs: seq<(NodeId, NodeId)>, bound: nat) {
    forall i | 0 <= i < |pairs| ::
      pairs[i].0 in rank && rank[pairs[i].0] < bound && pairs[i].1 in rank && rank[pairs[i].1] < bound
  }

  ghost predicate AllBelow(rank: map<NodeId, nat>, ids: seq<NodeId>, bound: nat) {
    forall i | 0 <= i < |ids| :: ids[i] in rank && rank[ids[i]] < bound
  }

  lemma ChildrenBelow(g: Graph, rank: map<NodeId, nat>, n: NodeId)
    requires Document(g, rank) && n in rank
    ensures g[n].Mapping? ==> Below(rank, g[n].pairs, rank[n])
    ensures g[n].Sequence? ==> AllBelow(rank, g[n].items, rank[n])
    ensures g[n].Alias? ==> g[n].target.value in rank && rank[g[n].target.value] < rank[n]
  {
    if g[n].Mapping? {
      forall i | 0 <= i < |g[n].pairs|
        ensures g[n].pairs[i].0 in Successors(g[n]) && g[n].pairs[i].1 in Successors(g[n])
      {
      }
    }
    if g[n].Alias? {
      assert g[n].target.value in Successors(g[n]);
    }
  }

  ghost function Expand(g: Graph, rank: map<NodeId, nat>, n: NodeId): Tree
    requires Document(g, rank) && n in rank
    decreases rank[n], 1
  {
    ChildrenBelow(g, rank, n);
    match g[n]
    case Scalar(tag, value) => Leaf(tag, value)
    case Sequence(tag, items) => List(tag, ExpandAll(g, rank, items, rank[n]))
    case Mapping(tag, pairs) => Map(tag, Resolve(ExpandPairs(g, rank, pairs, rank[n])))
    case Alias(target) => Expand(g, rank, target.value)
  }

  ghost function ExpandAll(g: Graph, rank: map<NodeId, nat>, ids: seq<NodeId>, bound: nat): (r: seq<Tree>)
    requires Document(g, rank) && AllBelow(rank, ids, bound)
    ensures |r| == |ids|
    decreases bound, 0, |ids|
  {
    if ids == [] then [] else [Expand(g, rank, ids[0])] + ExpandAll(g, rank, ids[1..], bound)
  }

  ghost function ExpandPairs(g: Graph, rank: map<NodeId, nat>, pairs: seq<(NodeId, NodeId)>, bound: nat): (r: seq<Pair>)
    requires Document(g, rank) && Below(rank, pairs, bound)
    ensures |r| == |pairs|
    decreases bound, 0, |pairs|
  {
    if pairs == [] then []
    else [Pair(Expand(g, rank, pairs[0].0), Expand(g, rank, pairs[0].1))] + ExpandPairs(g, rank, pairs[1..], bound)
  }

  lemma {:induction false} ExpandAllAt(g: Graph, rank: map<NodeId, nat>, ids: seq<NodeId>, bound: nat, i: nat)
    requires Document(g, rank) && AllBelow(rank, ids, bound) && i < |ids|
    ensures ExpandAll(g, rank, ids, bound)[i] == Expand(g, rank, ids[i])
    decreases i
  {
    if i > 0 {
      ExpandAllAt(g, rank, ids[1..], bound, i - 1);
    }
  }

  lemma {:induction false} ExpandPairsAt(g: Graph, rank: map<NodeId, nat>, pairs: seq<(NodeId, NodeId)>, bound: nat, i: nat)
    requires Document(g, rank) && Below(rank, pairs, bound) && i < |pairs|
    ensures ExpandPairs(g, rank, pairs, bound)[i] == Pair(Expand(g, rank, pairs[i].0), Expand(g, rank, pairs[i].1))
    decreases i
  {
    if i > 0 {
      ExpandPairsAt(g, rank, pairs[1..], bound, i - 1);
    }
  }

  lemma ResolveIsPlain(pairs: seq<Pair>)
    requires Ready(pairs)
    ensures Plain(Resolve(pairs))
  {
    ExplicitIsPlain(pairs);
    MergeSourcesAreFree(pairs);
    var e, sources := Explicit(pairs), MergeSources(pairs);
    MergeAllGrows(e, sources);
    var r := MergeAll(e, sources);
    forall i | 0 <= i < |r|
      ensures r[i].key.tag != MERGE && MergeFree(r[i].key) && MergeFree(r[i].value)
    {
      if i >= |e| {
        assert r[i] == r[|e|..][i - |e|];
      } else {
        assert r[i] == e[i];
      }
    }
  }

  lemma {:induction false} ExplicitIsPlain(pairs: seq<Pair>)
    requires Ready(pairs)
    ensures Plain(Explicit(pairs))
  {
    if pairs != [] {
      assert forall i | 0 <= i < |pairs[1..]| :: pairs[1..][i] == pairs[i + 1];
      ExplicitIsPlain(pairs[1..]);
    }
  }

  lemma {:induction false} MergeSourcesAreFree(pairs: seq<Pair>)
    requires Ready(pairs)
    ensures SourcesMergeFree(MergeSources(pairs))
  {
    if pairs != [] {
      assert forall i | 0 <= i < |pairs[1..]| :: pairs[1..][i] == pairs[i + 1];
      MergeSourcesAreFree(pairs[1..]);
      SourcesOfMergeFree(pairs[0].value);
    }
  }

  /** The expansion has no merge key at any depth. */
  lemma {:induction false} ExpandIsMergeFree(g: Graph, rank: map<NodeId, nat>, n: NodeId)
    requires Document(g, rank) && n in rank
    ensures MergeFree(Expand(g, rank, n))
    decreases rank[n]
  {
    ChildrenBelow(g, rank, n);
    match g[n] {
      case Scalar(_, _) =>
      case Alias(target) => ExpandIsMergeFree(g, rank, target.value);
      case Sequence(_, items) =>
        forall i | 0 <= i < |items|
          ensures MergeFree(ExpandAll(g, rank, items, rank[n])[i])
        {
          ExpandAllAt(g, rank, items, rank[n], i);
          ExpandIsMergeFree(g, rank, items[i]);
        }
      case Mapping(_, pairs) =>
        forall i | 0 <= i < |pairs|
          ensures MergeFree(ExpandPairs(g, rank, pairs, rank[n])[i].key) && MergeFree(ExpandPairs(g, rank, pairs, rank[n])[i].value)
        {
          ExpandPairsAt(g, rank, pairs, rank[n], i);
          ExpandIsMergeFree(g, rank, pairs[i].0);
          ExpandIsMergeFree(g, rank, pairs[i].1);
        }
        ResolveIsPlain(ExpandPairs(g, rank, pairs, rank[n]));
    }
  }

  /** The recursive copy as the code makes it; it terminates because the document is acyclic. */
  method ExpandAliases(g: Graph, n: NodeId, ghost rank: map<NodeId, nat>) returns (t: Tree)
    requires Document(g, rank) && n in rank
    ensures t == Expand(g, rank, n) && MergeFree(t)
    decreases rank[n], 1
  {
    hide MergeFree, Ready, Resolve;
    ChildrenBelow(g, rank, n);
    ExpandIsMergeFree(g, rank, n);
    match g[n] {
      case Scalar(tag, value) => t := Leaf(tag, value);
      case Alias(target) => t := ExpandAliases(g, target.value, rank);
      case Sequence(tag, items) =>
        var content := ExpandItems(g, items, rank, rank[n]);
        t := List(tag, content);
      case Mapping(tag, pairs) =>
        var content := ExpandEntries(g, pairs, rank, rank[n]);
        content := ResolveMerges(content);
        t := Map(tag, content);
    }
  }

  method ExpandItems(g: Graph, items: seq<NodeId>, ghost rank: map<NodeId, nat>, ghost bound: nat) returns (content: seq<Tree>)
    requires Document(g, rank) && AllBelow(rank, items, bound)
    ensures content == ExpandAll(g, rank, items, bound)
    decreases bound, 0
  {
    content := [];
    for i := 0 to |items|
      invariant |content| == i && forall j | 0 <= j < i :: content[j] == ExpandAll(g, rank, items, bound)[j]
    {
      var child := ExpandAliases(g, items[i], rank);
      ExpandAllAt(g, rank, items, bound, i);
      content := content + [child];
    }
    assert content == ExpandAll(g, rank, items, bound);
  }

  method ExpandEntries(g: Graph, pairs: seq<(NodeId, NodeId)>, ghost rank: map<NodeId, nat>, ghost bound: nat) returns (content: seq<Pair>)
    requires Document(g, rank) && Below(rank, pairs, bound)
    ensures content == ExpandPairs(g, rank, pairs, bound) && Ready(content)
    decreases bound, 0
  {
    hide MergeFree, ExpandPairs, Expand;
    content := [];
    for i := 0 to |pairs|
      invariant |content| == i && Ready(content)
      invariant forall j | 0 <= j < i :: content[j] == ExpandPairs(g, rank, pairs, bound)[j]
    {
      var key := ExpandAliases(g, pairs[i].0, rank);
      var value := ExpandAliases(g, pairs[i].1, rank);
      ExpandPairsAt(g, rank, pairs, bound, i);
      content := content + [Pair(key, value)];
    }
    assert content == ExpandPairs(g, rank, pairs, bound);
  }

  /** Meaning of a document, on its nodes */

  /** The key node `id` spells the scalar `key`, possibly through an alias. */
  ghost predicate Spells(g: Graph, rank: map<NodeId, nat>, id: NodeId, key: Tree)
    requires Document(g, rank) && id in rank
  {
    var d := g[Deref(g, rank, id)];
    key.Leaf? && d == Scalar(key.tag, key.value)
  }

  ghost predicate IsMergeKey(g: Graph, rank: map<NodeId, nat>, id: NodeId)
    requires Document(g, rank) && id in rank
  {
    g[Deref(g, rank, id)].tag == MERGE
  }

  /** The value node of `key` in the mapping `n`: an explicit entry if there is one, else the first merge source that has it. */
  ghost function Meaning(g: Graph, rank: map<NodeId, nat>, n: NodeId, key: Tree): (r: Option<NodeId>)
    requires Document(g, rank) && n in rank
    ensures r.Some? ==> r.value in rank
    decreases rank[n], 2, 0
  {
    ChildrenBelow(g, rank, n);
    match g[n]
    case Alias(target) => Meaning(g, rank, target.value, key)
    case Mapping(_, pairs) =>
      var e := ExplicitMeaning(g, rank, pairs, key, rank[n]);
      if e.Some? then e else MergedMeaning(g, rank, pairs, key, rank[n])
    case _ => None
  }

  ghost function ExplicitMeaning(g: Graph, rank: map<NodeId, nat>, pairs: seq<(NodeId, NodeId)>, key: Tree, bound: nat): (r: Option<NodeId>)
    requires Document(g, rank) && Below(rank, pairs, bound)
    ensures r.Some? ==> r.value in rank
    decreases bound, 1, |pairs|
  {
    if pairs == [] then None
    else if !IsMergeKey(g, rank, pairs[0].0) && Spells(g, rank, pairs[0].0, key) then Some(pairs[0].1)
    else ExplicitMeaning(g, rank, pairs[1..], key, bound)
  }

  /** Merge keys in document order. */
  ghost function MergedMeaning(g: Graph, rank: map<NodeId, nat>, pairs: seq<(NodeId, NodeId)>, key: Tree, bound: nat): (r: Option<NodeId>)
    requires Document(g, rank) && Below(rank, pairs, bound)
    ensures r.Some? ==> r.value in rank
    decreases bound, 1, |pairs|
  {
    if pairs == [] then None
    else
      var first := if IsMergeKey(g, rank, pairs[0].0) then SourceMeaning(g, rank, pairs[0].1, key) else None;
      if first.Some? then first else MergedMeaning(g, rank, pairs[1..], key, bound)
  }

  /** A merge value names one mapping or a sequence of mappings. */
  ghost function SourceMeaning(g: Graph, rank: map<NodeId, nat>, n: NodeId, key: Tree): (r: Option<NodeId>)
    requires Document(g, rank) && n in rank
    ensures r.Some? ==> r.value in rank
    decreases rank[n], 3, 0
  {
    ChildrenBelow(g, rank, n);
    match g[n]
    case Alias(target) => SourceMeaning(g, rank, target.value, key)
    case Sequence(_, items) => FirstMeaning(g, rank, items, key, rank[n])
    case _ => Meaning(g, rank, n, key)
  }

  ghost function FirstMeaning(g: Graph, rank: map<NodeId, nat>, ids: seq<NodeId>, key: Tree, bound: nat): (r: Option<NodeId>)
    requires Document(g, rank) && AllBelow(rank, ids, bound)
    ensures r.Some? ==> r.value in rank
    decreases bound, 1, |ids|
  {
    if ids == [] then None
    else
      var first := Meaning(g, rank, ids[0], key);
      if first.Some? then first else FirstMeaning(g, rank, ids[1..], key, bound)
  }

  ghost function Expanded(g: Graph, rank: map<NodeId, nat>, v: Option<NodeId>): Option<Tree>
    requires Document(g, rank) && (v.Some? ==> v.value in rank)
  {
    if v.Some? then Some(Expand(g, rank, v.value)) else None
  }

  lemma {:induction false} ExpandFollowsAliases(g: Graph, rank: map<NodeId, nat>, n: NodeId)
    requires Document(g, rank) && n in rank
    ensures Expand(g, rank, n) == Expand(g, rank, Deref(g, rank, n))
    decreases rank[n]
  {
    if g[n].Alias? {
      ChildrenBelow(g, rank, n);
      ExpandFollowsAliases(g, rank, g[n].target.value);
    }
  }

  lemma KeysAgree(g: Graph, rank: map<NodeId, nat>, id: NodeId, key: Tree)
    requires Document(g, rank) && id in rank && key.Leaf?
    ensures SameKey(Expand(g, rank, id), key) <==> Spells(g, rank, id, key)
    ensures Expand(g, rank, id).tag == MERGE <==> IsMergeKey(g, rank, id)
  {
    ExpandFollowsAliases(g, rank, id);
  }

  lemma {:induction false} ExplicitAgrees(g: Graph, rank: map<NodeId, nat>, pairs: seq<(NodeId, NodeId)>, key: Tree, bound: nat)
    requires Document(g, rank) && Below(rank, pairs, bound) && key.Leaf? && key.tag != MERGE
    ensures LookupPairs(Explicit(ExpandPairs(g, rank, pairs, bound)), key) ==
            Expanded(g, rank, ExplicitMeaning(g, rank, pairs, key, bound))
    decreases |pairs|
  {
    if pairs != [] {
      KeysAgree(g, rank, pairs[0].0, key);
      ExplicitAgrees(g, rank, pairs[1..], key, bound);
      var p := ExpandPairs(g, rank, pairs, bound);
      assert p[1..] == ExpandPairs(g, rank, pairs[1..], bound);
      if p[0].key.tag != MERGE {
        assert Explicit(p)[1..] == Explicit(p[1..]);
      }
    }
  }

  lemma {:induction false} MergedAgrees(g: Graph, rank: map<NodeId, nat>, pairs: seq<(NodeId, NodeId)>, key: Tree, bound: nat)
    requires Document(g, rank) && Below(rank, pairs, bound) && key.Leaf? && key.tag != MERGE
    ensures LookupSources(MergeSources(ExpandPairs(g, rank, pairs, bound)), key) ==
            Expanded(g, rank, MergedMeaning(g, rank, pairs, key, bound))
    decreases bound, 1, |pairs|
  {
    if pairs != [] {
      KeysAgree(g, rank, pairs[0].0, key);
      MergedAgrees(g, rank, pairs[1..], key, bound);
      var p := ExpandPairs(g, rank, pairs, bound);
      assert p[1..] == ExpandPairs(g, rank, pairs[1..], bound);
      var head := if p[0].key.tag == MERGE then Sources(p[0].value) else [];
      LookupSourcesAppend(head, MergeSources(p[1..]), key);
      if p[0].key.tag == MERGE {
        SourceAgrees(g, rank, pairs[0].1, key);
      }
    }
  }

  lemma {:induction false} SourceAgrees(g: Graph, rank: map<NodeId, nat>, n: NodeId, key: Tree)
    requires Document(g, rank) && n in rank && key.Leaf? && key.tag != MERGE
    ensures LookupSources(Sources(Expand(g, rank, n)), key) == Expanded(g, rank, SourceMeaning(g, rank, n, key))
    decreases rank[n], 3, 0
  {
    ChildrenBelow(g, rank, n);
    match g[n] {
      case Alias(target) => SourceAgrees(g, rank, target.value, key);
      case Sequence(_, items) => FirstAgrees(g, rank, items, key, rank[n]);
      case _ =>
        LookupAgrees(g, rank, n, key);
        var t := Expand(g, rank, n);
        assert Sources(t) == [t] && [t][1..] == [];
    }
  }

  lemma {:induction false} FirstAgrees(g: Graph, rank: map<NodeId, nat>, ids: seq<NodeId>, key: Tree, bound: nat)
    requires Document(g, rank) && AllBelow(rank, ids, bound) && key.Leaf? && key.tag != MERGE
    ensures LookupSources(ExpandAll(g, rank, ids, bound), key) == Expanded(g, rank, FirstMeaning(g, rank, ids, key, bound))
    decreases bound, 1, |ids|
  {
    if ids != [] {
      LookupAgrees(g, rank, ids[0], key);
      FirstAgrees(g, rank, ids[1..], key, bound);
      assert ExpandAll(g, rank, ids, bound)[1..] == ExpandAll(g, rank, ids[1..], bound);
    }
  }

  /** Every key lookup in the expansion answers the meaning of the document. */
  lemma {:induction false} LookupAgrees(g: Graph, rank: map<NodeId, nat>, n: NodeId, key: Tree)
    requires Document(g, rank) && n in rank && key.Leaf? && key.tag != MERGE
    ensures Lookup(Expand(g, rank, n), key) == Expanded(g, rank, Meaning(g, rank, n, key))
    decreases rank[n], 2, 0
  {
    ChildrenBelow(g, rank, n);
    match g[n] {
      case Alias(target) => LookupAgrees(g, rank, target.value, key);
      case Mapping(_, pairs) =>
        var p := ExpandPairs(g, rank, pairs, rank[n]);
        ExplicitAgrees(g, rank, pairs, key, rank[n]);
        MergedAgrees(g, rank, pairs, key, rank[n]);
        LookupMergeAll(Explicit(p), MergeSources(p), key);
      case _ =>
    }
  }
}
