/**
 YAML documents as the parser leaves them: nodes that refer to each other by identity, with
 alias nodes that point at anchored nodes anywhere in the document.  The content of a mapping
 is its sequence of key and value nodes, kept as pairs.
 */
module YamlGraph {
  import opened Options

  type NodeId = nat

  datatype Node =
    | Scalar(tag: string, value: string)
    | Sequence(tag: string, items: seq<NodeId>)
    | Mapping(tag: string, pairs: seq<(NodeId, NodeId)>)
    | Alias(target: Option<NodeId>)

  type Graph = map<NodeId, Node>

  function Flat(pairs: seq<(NodeId, NodeId)>): (r: seq<NodeId>)
    ensures forall i | 0 <= i < |pairs| :: pairs[i].0 in r && pairs[i].1 in r
  {
    if pairs == [] then [] else Flat(pairs[..|pairs| - 1]) + [pairs[|pairs| - 1].0, pairs[|pairs| - 1].1]
  }

  /** The nodes that the search visits from a node: an alias target, and every content node. */
  function Successors(n: Node): seq<NodeId> {
    match n
    case Scalar(_, _) => []
    case Sequence(_, items) => items
    case Mapping(_, pairs) => Flat(pairs)
    case Alias(target) => if target.Some? then [target.value] else []
  }

  /** Every pointer leads to a node. */
  ghost predicate WellLinked(g: Graph) {
    forall n, m | n in g && m in Successors(g[n]) :: m in g
  }

  ghost predicate IsPath(g: Graph, p: seq<NodeId>) {
    && |p| > 0
    && (forall i | 0 <= i < |p| :: p[i] in g)
    && forall i | 0 <= i < |p| - 1 :: p[i + 1] in Successors(g[p[i]])
  }

  /** A path from `start` that comes back to one of its own nodes. */
  ghost predicate IsLasso(g: Graph, start: NodeId, p: seq<NodeId>) {
    && IsPath(g, p)
    && p[0] == start
    && exists i :: 0 <= i < |p| - 1 && p[i] == p[|p| - 1]
  }

  ghost predicate CycleReachable(g: Graph, start: NodeId) {
    exists p :: IsLasso(g, start, p)
  }

  /** `rank` covers a part of the document that no pointer leaves, and falls along every pointer. */
  ghost predicate Ranked(g: Graph, rank: map<NodeId, nat>) {
    && (forall n | n in rank :: n in g)
    && forall n, m | n in rank && m in Successors(g[n]) :: m in rank && rank[m] < rank[n]
  }

  lemma {:induction false} PathDescends(g: Graph, rank: map<NodeId, nat>, p: seq<NodeId>, i: nat, j: nat)
    requires Ranked(g, rank) && IsPath(g, p) && p[0] in rank && i <= j < |p|
    ensures p[i] in rank && p[j] in rank && rank[p[j]] + (j - i) <= rank[p[i]]
  {
    if j == 0 {
    } else if i < j {
      PathDescends(g, rank, p, i, j - 1);
      assert p[j - 1 + 1] in Successors(g[p[j - 1]]);
    } else {
      PathDescends(g, rank, p, 0, j - 1);
      assert p[j - 1 + 1] in Successors(g[p[j - 1]]);
    }
  }

  /** A ranked document has no cycle that can be reached. */
  lemma RankedIsAcyclic(g: Graph, rank: map<NodeId, nat>, start: NodeId)
    requires Ranked(g, rank) && start in rank
    ensures !CycleReachable(g, start)
  {
    forall p | IsLasso(g, start, p)
      ensures false
    {
      var i :| 0 <= i < |p| - 1 && p[i] == p[|p| - 1];
      PathDescends(g, rank, p, i, |p| - 1);
    }
  }

  lemma PathExtends(g: Graph, stack: seq<NodeId>, n: NodeId)
    requires n in g
    requires stack != [] ==> IsPath(g, stack) && n in Successors(g[stack[|stack| - 1]])
    ensures IsPath(g, stack + [n])
  {
  }

  /** A node that is already on the path closes a cycle. */
  lemma BackEdge(g: Graph, stack: seq<NodeId>, n: NodeId)
    requires IsPath(g, stack + [n]) && n in stack
    ensures CycleReachable(g, (stack + [n])[0])
  {
    var p := stack + [n];
    var i :| 0 <= i < |stack| && stack[i] == n;
    assert p[i] == p[|p| - 1];
    assert IsLasso(g, p[0], p);
  }

  /** What the search knows when `stack` is the path of nodes whose visit is under way. */
  ghost predicate SearchInv(g: Graph, onStack: set<NodeId>, done: set<NodeId>, rank: map<NodeId, nat>, stack: seq<NodeId>) {
    && onStack == (set n | n in stack)
    && onStack <= g.Keys
    && onStack !! done
    && (stack != [] ==> IsPath(g, stack))
    && rank.Keys == done
    && Ranked(g, rank)
    && forall n | n in rank :: rank[n] < |done|
  }

  lemma Push(g: Graph, onStack: set<NodeId>, done: set<NodeId>, rank: map<NodeId, nat>, stack: seq<NodeId>, n: NodeId)
    requires SearchInv(g, onStack, done, rank, stack) && n in g && n !in done
    requires IsPath(g, stack + [n])
    ensures SearchInv(g, onStack + {n}, done, rank, stack + [n])
  {
    assert forall m :: m in stack + [n] <==> m in stack || m == n;
  }

  lemma FinishRank(g: Graph, done: set<NodeId>, rank: map<NodeId, nat>, n: NodeId) returns (rank': map<NodeId, nat>)
    requires Ranked(g, rank) && rank.Keys == done && (forall m | m in rank :: rank[m] < |done|)
    requires n in g && n !in done && forall m | m in Successors(g[n]) :: m in done
    ensures rank' == rank[n := |done|] && rank'.Keys == done + {n}
    ensures Ranked(g, rank') && forall m | m in rank' :: rank'[m] < |done + {n}|
  {
    rank' := rank[n := |done|];
    assert |done + {n}| == |done| + 1;
  }

  /** A node whose successors are all finished is ranked above them. */
  lemma Finish(g: Graph, onStack: set<NodeId>, done: set<NodeId>, rank: map<NodeId, nat>, stack: seq<NodeId>, n: NodeId)
    requires SearchInv(g, onStack + {n}, done, rank, stack + [n]) && n in g && n !in onStack && n !in done
    requires forall m | m in Successors(g[n]) :: m in done
    requires onStack == (set m | m in stack) && (stack != [] ==> IsPath(g, stack))
    ensures SearchInv(g, onStack, done + {n}, rank[n := |done|], stack)
  {
    hide IsPath, Ranked;
    var rank' := FinishRank(g, done, rank, n);
  }

  /** The depth-first search: the maps that the recursion shares are the fields of one object. */
  class CycleSearch {
    const g: Graph
    var onStack: set<NodeId>
    var done: set<NodeId>
    ghost var rank: map<NodeId, nat>

    constructor (g: Graph)
      ensures this.g == g && onStack == {} && done == {} && rank == map[]
    {
      this.g, onStack, done, rank := g, {}, {}, map[];
    }

    ghost predicate Valid(stack: seq<NodeId>)
      reads this
    {
      WellLinked(g) && SearchInv(g, onStack, done, rank, stack)
    }

    method Visit(n: NodeId, ghost stack: seq<NodeId>) returns (found: bool)
      requires Valid(stack) && n in g
      requires stack != [] ==> n in Successors(g[stack[|stack| - 1]])
      modifies this
      ensures found ==> CycleReachable(g, (stack + [n])[0])
      ensures !found ==> Valid(stack) && n in done && onStack == old(onStack) && old(done) <= done
      decreases g.Keys - onStack - done, 0
    {
      hide Ranked, CycleReachable, IsPath;
      if n in done {
        return false;
      }
      PathExtends(g, stack, n);
      if n in onStack {
        BackEdge(g, stack, n);
        return true;
      }
      Push(g, onStack, done, rank, stack, n);
      ghost var open := g.Keys - onStack - done;
      onStack := onStack + {n};
      assert n in open && n !in g.Keys - onStack - done;
      found := VisitEach(Successors(g[n]), stack + [n]);
      if found {
        return true;
      }
      Finish(g, onStack - {n}, done, rank, stack, n) by {
        assert onStack - {n} + {n} == onStack;
        assert onStack - {n} == old(onStack);
      }
      onStack := onStack - {n};
      rank := rank[n := |done|];
      done := done + {n};
    }

    /** The loop over the content of the node on top of the stack. */
    method VisitEach(nodes: seq<NodeId>, ghost stack: seq<NodeId>) returns (found: bool)
      requires Valid(stack) && stack != [] && nodes == Successors(g[stack[|stack| - 1]])
      modifies this
      ensures found ==> CycleReachable(g, stack[0])
      ensures !found ==> Valid(stack) && onStack == old(onStack) && old(done) <= done
      ensures !found ==> forall m | m in nodes :: m in done
      decreases g.Keys - onStack - done, 1
    {
      hide CycleReachable, Ranked;
      for i := 0 to |nodes|
        invariant Valid(stack) && onStack == old(onStack) && old(done) <= done
        invariant forall k | 0 <= k < i :: nodes[k] in done
      {
        assert nodes[i] in nodes;
        assert g.Keys - onStack - done <= old(g.Keys - onStack - done);
        found := Visit(nodes[i], stack);
        if found {
          assert (stack + [nodes[i]])[0] == stack[0];
          return true;
        }
      }
      return false;
    }
  }

  /**
   The search is exact: it answers true if and only if a cycle through content or alias
   pointers can be reached; when it answers false, it has ranked everything it can reach.
   */
  method HasAliasCycle(g: Graph, start: NodeId) returns (cyclic: bool, ghost rank: map<NodeId, nat>)
    requires WellLinked(g) && start in g
    ensures cyclic <==> CycleReachable(g, start)
    ensures !cyclic ==> Ranked(g, rank) && start in rank
  {
    var search := new CycleSearch(g);
    cyclic := search.Visit(start, []);
    rank := search.rank;
    if !cyclic {
      RankedIsAcyclic(g, rank, start);
    }
  }
}
