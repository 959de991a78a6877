/**
 What the key groups of the v8 layout mean, field by field: which groups are accepted, what each
 key inherits from its group, and what grouping makes of a legacy entry.
 */
module KeyLaws {
  import opened Options
  import opened ConfigTree
  import opened KeyGroups
  import Decimal

  function Field(n: Node, f: string): Option<Node> {
    Get(n, [f])
  }

  lemma FieldIs(n: Node, f: string)
    ensures Field(n, f) == if n.Map? && f in n.fields then Some(n.fields[f]) else None
  {
    var p := [f];
    assert p[1..] == [];
    if n.Map? && f in n.fields {
      assert Get(n, p) == Get(n.fields[f], p[1..]);
      assert Get(n.fields[f], []) == Some(n.fields[f]);
    }
  }

  /** Fields that a key inherits from its group. */
  predicate Inherited(f: string) {
    f in {"base-url", "priority", "prefix", "proxy-url", "headers", "models", "excluded-models", "disable-cooling", "request-retry", "request-scoped-errors"}
  }

  lemma InheritedIsLifted(f: string)
    ensures Inherited(f) <==> Lifted(f)
  {}

  /** All keys of all groups with their groups, in order. */
  function Keys(groups: seq<Node>): seq<(Node, Node)> {
    if groups == [] then []
    else Keys(groups[..|groups| - 1]) + KeysIn(groups[|groups| - 1])
  }

  function KeysIn(group: Node): seq<(Node, Node)> {
    var keys := Field(group, "keys");
    if keys.Some? && keys.value.List? then seq(|keys.value.items|, i requires 0 <= i < |keys.value.items| => (group, keys.value.items[i])) else []
  }

  /** What a legacy entry says about field `f`: the key's own word unless it is null, else the group's. */
  function FieldValue(group: Node, key: Node, f: string): Option<Node> {
    var own := Field(key, f);
    if f != "auth_index" && f != "auth-index" && own.Some? && own.value != Null then own
    else if Inherited(f) then Field(group, f)
    else None
  }

  lemma ExpandKeyField(group: Node, key: Node, f: string)
    requires group.Map? && key.Map?
    ensures Field(ExpandKey(group.fields, key.fields), f) == FieldValue(group, key, f)
  {
    FieldIs(ExpandKey(group.fields, key.fields), f);
    FieldIs(group, f);
    FieldIs(key, f);
    InheritedIsLifted(f);
  }

  lemma GroupExpands(group: Node, provider: string, i: nat, f: string)
    requires provider != COMPAT && GroupOk(group, provider)
    ensures |ExpandGroup(group, provider)| == |KeysIn(group)|
    ensures i < |KeysIn(group)| ==> KeysIn(group)[i].0 == group && Field(ExpandGroup(group, provider)[i], f) == FieldValue(group, KeysIn(group)[i].1, f)
  {
    FieldIs(group, "keys");
    if i < |KeysIn(group)| {
      ExpandKeyField(group, KeysIn(group)[i].1, f);
    }
  }

  /**
   One legacy entry per key, in order, and in each entry the key's own fields override those it
   inherits from its group.
   */
  lemma {:induction false} KeysInherit(groups: seq<Node>, provider: string, i: nat, f: string)
    requires provider != COMPAT && Expand(groups, provider).Ok?
    ensures |Expand(groups, provider).value| == |Keys(groups)|
    ensures i < |Keys(groups)| ==> Field(Expand(groups, provider).value[i], f) == FieldValue(Keys(groups)[i].0, Keys(groups)[i].1, f)
  {
    hide GroupOk, ExpandGroup, KeysIn, FieldValue;
    if groups != [] {
      var n := |groups| - 1;
      KeysInherit(groups[..n], provider, i, f);
      var before := |Keys(groups[..n])|;
      GroupExpands(groups[n], provider, if i < before then 0 else i - before, f);
    }
  }

  /** An OpenAI-compatible group stays one entry: its fields, and its keys under their legacy name without auth indices. */
  lemma {:induction false} CompatKeeps(groups: seq<Node>, i: nat, f: string)
    requires Expand(groups, COMPAT).Ok? && i < |groups|
    ensures |Expand(groups, COMPAT).value| == |groups|
    ensures f !in {"api-key-entries", "keys", "auth_index", "auth-index"} ==> Field(Expand(groups, COMPAT).value[i], f) == Field(groups[i], f)
    ensures f in {"keys", "auth_index", "auth-index"} ==> Field(Expand(groups, COMPAT).value[i], f) == None
    ensures var entries := Field(Expand(groups, COMPAT).value[i], "api-key-entries");
      entries.Some? && entries.value.List? && |entries.value.items| == |KeysIn(groups[i])|
      && forall j | 0 <= j < |KeysIn(groups[i])| :: SameButIndex(KeysIn(groups[i])[j].1, entries.value.items[j])
  {
    hide GroupOk, ExpandGroup;
    var n := |groups| - 1;
    if i < n {
      CompatKeeps(groups[..n], i, f);
    } else {
      if n > 0 {
        CompatKeeps(groups[..n], 0, f);
      } else {
        assert groups[..n] == [];
      }
    }
    CompatGroup(groups[n], f);
  }

  /** The same node without its auth-index fields. */
  ghost predicate SameButIndex(key: Node, entry: Node) {
    && (!key.Map? ==> entry == key)
    && (key.Map? ==> entry.Map? && forall g :: Field(entry, g) == if g == "auth_index" || g == "auth-index" then None else Field(key, g))
  }

  lemma WithoutIndexIs(key: Node)
    ensures SameButIndex(key, WithoutAuthIndex(key))
  {
    if key.Map? {
      forall g ensures Field(WithoutAuthIndex(key), g) == if g == "auth_index" || g == "auth-index" then None else Field(key, g) {
        FieldIs(key, g);
        FieldIs(WithoutAuthIndex(key), g);
      }
    }
  }

  lemma CompatGroup(group: Node, f: string)
    requires GroupOk(group, COMPAT)
    ensures |ExpandGroup(group, COMPAT)| == 1
    ensures var r := ExpandGroup(group, COMPAT)[0];
      && (f !in {"api-key-entries", "keys", "auth_index", "auth-index"} ==> Field(r, f) == Field(group, f))
      && (f in {"keys", "auth_index", "auth-index"} ==> Field(r, f) == None)
      && var entries := Field(r, "api-key-entries");
      entries.Some? && entries.value.List? && |entries.value.items| == |KeysIn(group)|
      && forall j | 0 <= j < |KeysIn(group)| :: SameButIndex(KeysIn(group)[j].1, entries.value.items[j])
  {
    var r, keys := ExpandGroup(group, COMPAT)[0], group.fields["keys"].items;
    FieldIs(group, "keys");
    FieldIs(group, f);
    FieldIs(r, f);
    FieldIs(r, "api-key-entries");
    var entries := r.fields["api-key-entries"].items;
    forall j | 0 <= j < |keys| ensures SameButIndex(keys[j], entries[j]) {
      WithoutIndexIs(keys[j]);
    }
  }

  /** A weight, where a mapping gives one, is an integer of at most one million. */
  predicate FairWeight(n: Node) {
    var w := Field(n, "weight");
    w.Some? ==> w.value.Int? && Decimal.MIN_INT <= w.value.n <= 1_000_000
  }

  /** The shape a group must have to be accepted. */
  ghost predicate Acceptable(group: Node, provider: string) {
    && group.Map? && var keys := Field(group, "keys");
    && keys.Some? && keys.value.List?
    && (forall i | 0 <= i < |keys.value.items| :: FairWeight(keys.value.items[i]))
    && (provider != "openai-compatibility" ==>
          && (forall f | Field(group, f).Some? :: f == "name" || f == "keys" || Inherited(f))
          && forall i | 0 <= i < |keys.value.items| :: keys.value.items[i].Map? && Field(keys.value.items[i], "base-url").None?)
  }

  lemma AcceptableIsOk(group: Node, provider: string)
    ensures Acceptable(group, provider) <==> GroupOk(group, provider)
  {
    FieldIs(group, "keys");
    if group.Map? && "keys" in group.fields && group.fields["keys"].List? {
      var keys := group.fields["keys"].items;
      forall i | 0 <= i < |keys| ensures FairWeight(keys[i]) <==> WeightOk(keys[i]) {
        FieldIs(keys[i], "weight");
      }
      forall i | 0 <= i < |keys| && keys[i].Map? ensures Field(keys[i], "base-url").None? <==> "base-url" !in keys[i].fields {
        FieldIs(keys[i], "base-url");
      }
      forall f ensures Field(group, f).Some? <==> f in group.fields {
        FieldIs(group, f);
      }
    }
  }

  /** A list of groups is accepted if and only if every group has the shape. */
  lemma {:induction false} ExpandAcceptsIff(groups: seq<Node>, provider: string)
    ensures Expand(groups, provider).Ok? <==> forall i | 0 <= i < |groups| :: Acceptable(groups[i], provider)
  {
    hide GroupOk, ExpandGroup, Acceptable;
    if groups != [] {
      var n := |groups| - 1;
      ExpandAcceptsIff(groups[..n], provider);
      AcceptableIsOk(groups[n], provider);
    }
  }

  /** Grouping lifts exactly the inherited fields of an entry and leaves the others to its one key. */
  lemma GroupLifts(entries: seq<Node>, provider: string, i: nat, f: string)
    requires provider != COMPAT && i < |entries| && entries[i].Map?
    ensures var group := Group(entries, provider)[i];
      && Field(group, "name") == Some(Text(provider + "-" + Decimal.Itoa(i + 1)))
      && (Inherited(f) ==> Field(group, f) == Field(entries[i], f))
      && |KeysIn(group)| == 1
      && Field(KeysIn(group)[0].1, f) == if Inherited(f) then None else Field(entries[i], f)
  {
    var group := Group(entries, provider)[i];
    FieldIs(group, "name");
    FieldIs(group, "keys");
    FieldIs(group, f);
    FieldIs(entries[i], f);
    InheritedIsLifted(f);
    FieldIs(KeyPart(entries[i]), f);
    assert group.fields["keys"].items[0] == KeyPart(entries[i]);
  }
}
