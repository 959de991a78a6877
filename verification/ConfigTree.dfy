/**
 Configuration trees after alias expansion, and the three path operations that layout
 translation is made of: get, set with creation of missing mappings, and delete with pruning
 of the mappings that become empty.  Keys of a mapping are distinct (the loader rejects
 duplicates), so a mapping is a map from key to value; comments and key order are dropped.
 */
module ConfigTree {
  import opened Options

  datatype Node =
    | Null
    | Int(n: int)
    | Text(value: string)
    | List(items: seq<Node>)
    | Map(fields: map<string, Node>)

  /** A dotted path, split. */
  type Path = seq<string>

  function Get(n: Node, p: Path): Option<Node> {
    if p == [] then Some(n)
    else if n.Map? && p[0] in n.fields then Get(n.fields[p[0]], p[1..])
    else None
  }

  /** The mapping below which a value is stored: anything else is replaced by an empty one. */
  function FieldsOf(n: Node): map<string, Node> {
    if n.Map? then n.fields else map[]
  }

  function ChildOf(n: Node, key: string): Node {
    if key in FieldsOf(n) then FieldsOf(n)[key] else Text("")
  }

  function Set(n: Node, p: Path, v: Node): Node
    decreases p
  {
    if p == [] then v else Map(FieldsOf(n)[p[0] := Set(ChildOf(n, p[0]), p[1..], v)])
  }

  /** None when there is nothing at the path. */
  function Delete(n: Node, p: Path): (r: Option<Node>)
    requires p != []
    ensures r.Some? ==> r.value.Map?
    decreases p
  {
    if !n.Map? || p[0] !in n.fields then None
    else if |p| == 1 then Some(Map(n.fields - {p[0]}))
    else
      var child := Delete(n.fields[p[0]], p[1..]);
      if child.None? then None
      else if child.value.fields != map[] then Some(Map(n.fields[p[0] := child.value]))
      else Some(Map(n.fields - {p[0]}))
  }

  function Remove(n: Node, p: Path): Node
    requires p != []
  {
    if Delete(n, p).Some? then Delete(n, p).value else n
  }

  /** A path is followed through any path above it. */
  lemma {:induction false} GetThrough(n: Node, a: Path, p: Path)
    requires a <= p
    ensures Get(n, p) == if Get(n, a).Some? then Get(Get(n, a).value, p[|a|..]) else None
    decreases a
  {
    if a == [] {
      assert p[0..] == p;
    } else if n.Map? && a[0] in n.fields {
      assert p[0] == a[0] && a[1..] <= p[1..];
      GetThrough(n.fields[a[0]], a[1..], p[1..]);
      assert p[1..][|a[1..]|..] == p[|a|..];
    }
  }

  predicate Incomparable(p: Path, q: Path) {
    !(p <= q) && !(q <= p)
  }

  lemma {:induction false} DeleteFinds(n: Node, p: Path)
    requires p != []
    ensures Delete(n, p).Some? <==> Get(n, p).Some?
    decreases p
  {
    if n.Map? && p[0] in n.fields && |p| > 1 {
      DeleteFinds(n.fields[p[0]], p[1..]);
    }
  }

  lemma {:induction false} GetSetSame(n: Node, p: Path, v: Node)
    ensures Get(Set(n, p, v), p) == Some(v)
    decreases p
  {
    if p != [] {
      GetSetSame(ChildOf(n, p[0]), p[1..], v);
    }
  }

  lemma SplitHead(p: Path, q: Path)
    requires p != [] && q != [] && p[0] == q[0]
    ensures p <= q <==> p[1..] <= q[1..]
    ensures Incomparable(p, q) <==> Incomparable(p[1..], q[1..])
  {
    assert p == [p[0]] + p[1..] && q == [q[0]] + q[1..];
  }

  /** Setting one path leaves every path that is neither above nor below it alone. */
  lemma {:induction false} GetSetOther(n: Node, p: Path, v: Node, q: Path)
    requires Incomparable(p, q)
    ensures Get(Set(n, p, v), q) == Get(n, q)
    decreases p
  {
    if p[0] == q[0] {
      SplitHead(p, q);
      GetSetOther(ChildOf(n, p[0]), p[1..], v, q[1..]);
      assert Get(Text(""), q[1..]) == None;
    }
  }

  lemma {:induction false} GetRemoveSame(n: Node, p: Path)
    requires p != []
    ensures Get(Remove(n, p), p) == None
    decreases p
  {
    DeleteFinds(n, p);
    if n.Map? && p[0] in n.fields && |p| > 1 {
      GetRemoveSame(n.fields[p[0]], p[1..]);
      DeleteFinds(n.fields[p[0]], p[1..]);
    }
  }

  /** Deleting a path, with everything above it that becomes empty, leaves every unrelated path alone. */
  lemma {:induction false} GetRemoveOther(n: Node, p: Path, q: Path)
    requires p != [] && Incomparable(p, q)
    ensures Get(Remove(n, p), q) == Get(n, q)
    decreases p
  {
    if Delete(n, p).Some? && p[0] == q[0] {
      SplitHead(p, q);
      if |p| > 1 {
        GetRemoveOther(n.fields[p[0]], p[1..], q[1..]);
        var child := Delete(n.fields[p[0]], p[1..]).value;
        if child.fields == map[] {
          assert Get(child, q[1..]) == None;
        }
      }
    }
  }

  predicate Filled(v: Option<Node>) {
    v.Some? && v.value.Map? && v.value.fields != map[]
  }

  /** What can become of a path that is not at or below a path that is set. */
  lemma {:induction false} SetAbove(n: Node, p: Path, v: Node, a: Path)
    requires !(p <= a)
    ensures Get(Set(n, p, v), a) == Get(n, a) || Filled(Get(Set(n, p, v), a))
    decreases p
  {
    if a == [] {
      assert p[0] in Set(n, p, v).fields;
    } else if p[0] == a[0] {
      SplitHead(p, a);
      SetAbove(ChildOf(n, p[0]), p[1..], v, a[1..]);
      assert Get(Text(""), a[1..]) == None || a[1..] == [];
      if a[1..] == [] {
        assert Get(Set(n, p, v), a) == Some(Set(ChildOf(n, p[0]), p[1..], v));
        assert p[1..][0] in Set(ChildOf(n, p[0]), p[1..], v).fields;
      }
    }
  }

  /** What can become of a path that is not at or below a path that is deleted. */
  lemma {:induction false} RemoveAbove(n: Node, p: Path, a: Path)
    requires p != [] && a != [] && !(p <= a)
    ensures Get(Remove(n, p), a) == Get(n, a) || Get(Remove(n, p), a) == None || Filled(Get(Remove(n, p), a))
    decreases p
  {
    if Delete(n, p).Some? && p[0] == a[0] {
      SplitHead(p, a);
      if |p| > 1 && a[1..] != [] {
        RemoveAbove(n.fields[p[0]], p[1..], a[1..]);
        var child := Delete(n.fields[p[0]], p[1..]).value;
        if child.fields == map[] {
          assert Get(Remove(n, p), a) == None;
        }
      }
    }
  }
}
