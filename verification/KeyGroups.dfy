/**
 API key lists: the legacy layout has one entry per key, the v8 layout has groups that share
 an endpoint and policy fields.  Field names have no dots, so setting a field of an entry is
 an update of its mapping.
 */
module KeyGroups {
  import opened Options
  import opened ConfigTree
  import Decimal

  const COMPAT := "openai-compatibility"
  const SHARED := {"priority", "prefix", "proxy-url", "headers", "models", "excluded-models", "disable-cooling", "request-retry", "request-scoped-errors"}
  const MAX_WEIGHT: int := 1_000_000

  datatype Result<T> = Ok(value: T) | Err

  /** Fields that belong to a group rather than to one of its keys. */
  predicate Lifted(field: string) {
    field == "base-url" || field in SHARED
  }

  predicate AuthIndex(field: string) {
    field == "auth_index" || field == "auth-index"
  }

  predicate WeightOk(n: Node) {
    n.Map? && "weight" in n.fields ==>
      n.fields["weight"].Int? && Decimal.MIN_INT <= n.fields["weight"].n <= MAX_WEIGHT
  }

  function WithoutAuthIndex(n: Node): Node {
    if n.Map? then Map(n.fields - {"auth_index", "auth-index"}) else n
  }

  /** Grouping */

  function LiftedFields(fields: map<string, Node>): map<string, Node> {
    map f | f in fields && Lifted(f) :: fields[f]
  }

  function OwnFields(fields: map<string, Node>): map<string, Node> {
    map f | f in fields && !Lifted(f) :: fields[f]
  }

  function KeyPart(entry: Node): Node {
    if entry.Map? then Map(OwnFields(entry.fields)) else entry
  }

  function GroupEntry(entry: Node, provider: string, index: nat): Node {
    if provider == COMPAT then
      var keys := if entry.Map? && "api-key-entries" in entry.fields then entry.fields["api-key-entries"] else List([]);
      Map((FieldsOf(entry)["keys" := keys]) - {"api-key-entries"})
    else
      Map((map["name" := Text(provider + "-" + Decimal.Itoa(index + 1))] + LiftedFields(FieldsOf(entry)))["keys" := List([KeyPart(entry)])])
  }

  function Group(entries: seq<Node>, provider: string): (r: seq<Node>)
    ensures |r| == |entries|
  {
    seq(|entries|, i requires 0 <= i < |entries| => GroupEntry(entries[i], provider, i))
  }

  method GroupLegacyKeys(keys: Node, provider: string) returns (groups: Node)
    ensures groups == List(Group(if keys.List? then keys.items else [], provider))
  {
    var entries := if keys.List? then keys.items else [];
    var out: seq<Node> := [];
    for index := 0 to |entries|
      invariant |out| == index && forall i | 0 <= i < index :: out[i] == GroupEntry(entries[i], provider, i)
    {
      var group := GroupOne(entries[index], provider, index);
      out := out + [group];
    }
    assert out == Group(entries, provider);
    groups := List(out);
  }

  method GroupOne(entry: Node, provider: string, index: nat) returns (group: Node)
    ensures group == GroupEntry(entry, provider, index)
  {
    if provider == COMPAT {
      var keys := if entry.Map? && "api-key-entries" in entry.fields then entry.fields["api-key-entries"] else List([]);
      return Map(FieldsOf(entry)["keys" := keys] - {"api-key-entries"});
    }
    var lifted, own := SplitFields(FieldsOf(entry));
    var fields := map["name" := Text(provider + "-" + Decimal.Itoa(index + 1))] + lifted;
    return Map(fields["keys" := List([if entry.Map? then Map(own) else entry])]);
  }

  /** The loop that moves the shared fields of an entry to its group. */
  method SplitFields(fields: map<string, Node>) returns (lifted: map<string, Node>, own: map<string, Node>)
    ensures lifted == LiftedFields(fields) && own == OwnFields(fields)
  {
    lifted, own := map[], fields;
    var rest := fields.Keys;
    while rest != {}
      invariant rest <= fields.Keys
      invariant lifted == map f | f in fields && f !in rest && Lifted(f) :: fields[f]
      invariant own == map f | f in fields && (f in rest || !Lifted(f)) :: fields[f]
      decreases rest
    {
      var field :| field in rest;
      rest := rest - {field};
      if Lifted(field) {
        lifted := lifted[field := fields[field]];
        own := own - {field};
      }
    }
  }

  /** Expanding */

  predicate KnownField(field: string) {
    field == "name" || field == "keys" || Lifted(field)
  }

  ghost predicate GroupOk(group: Node, provider: string) {
    && group.Map?
    && "keys" in group.fields && group.fields["keys"].List?
    && var keys := group.fields["keys"].items;
       && (forall i | 0 <= i < |keys| :: WeightOk(keys[i]))
       && (provider != COMPAT ==>
             && (forall f | f in group.fields :: KnownField(f))
             && (forall i | 0 <= i < |keys| :: keys[i].Map? && "base-url" !in keys[i].fields))
  }

  /** A key with its group's fields; what the key itself says wins unless it is null. */
  function ExpandKey(group: map<string, Node>, key: map<string, Node>): Node {
    Map(LiftedFields(group) + map f | f in key && !AuthIndex(f) && !key[f].Null? :: key[f])
  }

  function CleanCompat(fields: map<string, Node>, keys: seq<Node>): Node {
    Map((fields - {"keys", "auth_index", "auth-index"})["api-key-entries" := List(seq(|keys|, i requires 0 <= i < |keys| => WithoutAuthIndex(keys[i])))])
  }

  ghost function ExpandGroup(group: Node, provider: string): seq<Node>
    requires GroupOk(group, provider)
  {
    var keys := group.fields["keys"].items;
    if provider == COMPAT then [CleanCompat(group.fields, keys)]
    else seq(|keys|, i requires 0 <= i < |keys| => ExpandKey(group.fields, keys[i].fields))
  }

  ghost function Expand(groups: seq<Node>, provider: string): Result<seq<Node>> {
    if groups == [] then Ok([])
    else
      var front := Expand(groups[..|groups| - 1], provider);
      if front.Ok? && GroupOk(groups[|groups| - 1], provider) then Ok(front.value + ExpandGroup(groups[|groups| - 1], provider)) else Err
  }

  ghost function ExpandNode(groups: Node, provider: string): Result<Node> {
    if !groups.List? then Err
    else
      var r := Expand(groups.items, provider);
      if r.Ok? then Ok(List(r.value)) else Err
  }

  method ExpandV8Groups(groups: Node, provider: string) returns (r: Result<Node>)
    ensures r == ExpandNode(groups, provider)
  {
    if !groups.List? {
      return Err;
    }
    var out: seq<Node> := [];
    for index := 0 to |groups.items|
      invariant Expand(groups.items[..index], provider) == Ok(out)
    {
      var group := groups.items[index];
      assert groups.items[..index + 1][..index] == groups.items[..index];
      var ok := CheckGroup(group, provider);
      if !ok {
        ExpandFails(groups.items, provider, index);
        return Err;
      }
      var more := ExpandOne(group, provider);
      out := out + more;
    }
    assert groups.items[..|groups.items|] == groups.items;
    return Ok(List(out));
  }

  lemma {:induction false} ExpandFails(groups: seq<Node>, provider: string, index: nat)
    requires index < |groups| && !GroupOk(groups[index], provider)
    ensures Expand(groups, provider) == Err
  {
    if index < |groups| - 1 {
      ExpandFails(groups[..|groups| - 1], provider, index);
    }
  }

  method CheckGroup(group: Node, provider: string) returns (ok: bool)
    ensures ok <==> GroupOk(group, provider)
  {
    if !group.Map? || "keys" !in group.fields || !group.fields["keys"].List? {
      return false;
    }
    var keys := group.fields["keys"].items;
    for i := 0 to |keys|
      invariant forall j | 0 <= j < i :: WeightOk(keys[j])
    {
      if !WeightOk(keys[i]) {
        return false;
      }
    }
    if provider == COMPAT {
      return true;
    }
    var rest := group.fields.Keys;
    while rest != {}
      invariant rest <= group.fields.Keys
      invariant forall f | f in group.fields && f !in rest :: KnownField(f)
      decreases rest
    {
      var field :| field in rest;
      if !KnownField(field) {
        return false;
      }
      rest := rest - {field};
    }
    for i := 0 to |keys|
      invariant forall j | 0 <= j < i :: keys[j].Map? && "base-url" !in keys[j].fields
    {
      if !keys[i].Map? || "base-url" in keys[i].fields {
        return false;
      }
    }
    return true;
  }

  method ExpandOne(group: Node, provider: string) returns (items: seq<Node>)
    requires GroupOk(group, provider)
    ensures items == ExpandGroup(group, provider)
  {
    var keys := group.fields["keys"].items;
    if provider == COMPAT {
      return [CleanCompat(group.fields, keys)];
    }
    items := [];
    for i := 0 to |keys|
      invariant |items| == i && forall j | 0 <= j < i :: items[j] == ExpandKey(group.fields, keys[j].fields)
    {
      var item := FillKey(group.fields, keys[i].fields);
      items := items + [item];
    }
  }

  /** The two loops that fill one legacy entry: group fields first, then the key's own. */
  method FillKey(group: map<string, Node>, key: map<string, Node>) returns (item: Node)
    ensures item == ExpandKey(group, key)
  {
    var lifted, _ := SplitFields(group);
    var own: map<string, Node> := map[];
    var rest := key.Keys;
    while rest != {}
      invariant rest <= key.Keys
      invariant own == map f | f in key && f !in rest && !AuthIndex(f) && !key[f].Null? :: key[f]
      decreases rest
    {
      var field :| field in rest;
      rest := rest - {field};
      if !AuthIndex(field) && !key[field].Null? {
        own := own[field := key[field]];
      }
    }
    return Map(lifted + own);
  }

  /** Round trip */

  /**
   What grouping and expanding make of an entry: null key fields and auth-index fields go, shared
   fields stay, null or not.  An OpenAI-compatible entry keeps its fields, with its own list of keys
   under its own name.
   */
  function Clean(entry: Node, provider: string): Node {
    if provider == COMPAT then
      var fields := FieldsOf(entry);
      CleanCompat(fields, if "api-key-entries" in fields && fields["api-key-entries"].List? then fields["api-key-entries"].items else [])
    else if entry.Map? then
      Map(map f | f in entry.fields && (Lifted(f) || (!AuthIndex(f) && !entry.fields[f].Null?)) :: entry.fields[f])
    else entry
  }

  function CleanAll(entries: seq<Node>, provider: string): (r: seq<Node>)
    ensures |r| == |entries|
  {
    seq(|entries|, i requires 0 <= i < |entries| => Clean(entries[i], provider))
  }

  /** An OpenAI-compatible entry survives when its list of keys, if any, is a list with acceptable weights; any other when it is a mapping with one. */
  predicate Groupable(entry: Node, provider: string) {
    if provider == COMPAT then
      "api-key-entries" in FieldsOf(entry) ==>
        var keys := FieldsOf(entry)["api-key-entries"];
        keys.List? && forall i | 0 <= i < |keys.items| :: WeightOk(keys.items[i])
    else entry.Map? && WeightOk(entry)
  }

  predicate AllGroupable(entries: seq<Node>, provider: string) {
    forall i | 0 <= i < |entries| :: Groupable(entries[i], provider)
  }

  lemma GroupedEntryOk(entry: Node, provider: string, index: nat)
    ensures GroupOk(GroupEntry(entry, provider, index), provider) <==> Groupable(entry, provider)
  {
    var group := GroupEntry(entry, provider, index);
    if provider == COMPAT {
      var keys := if entry.Map? && "api-key-entries" in entry.fields then entry.fields["api-key-entries"] else List([]);
      assert group.fields["keys"] == keys;
    } else {
      var keys := group.fields["keys"].items;
      assert keys == [KeyPart(entry)];
      assert WeightOk(KeyPart(entry)) <==> WeightOk(entry);
      assert forall f | f in group.fields :: KnownField(f);
      assert keys[0] == KeyPart(entry);
    }
  }

  lemma CompatEntryExpands(entry: Node, index: nat)
    requires Groupable(entry, COMPAT) && GroupOk(GroupEntry(entry, COMPAT, index), COMPAT)
    ensures ExpandGroup(GroupEntry(entry, COMPAT, index), COMPAT) == [Clean(entry, COMPAT)]
  {
    var group := GroupEntry(entry, COMPAT, index);
    var keys := if entry.Map? && "api-key-entries" in entry.fields then entry.fields["api-key-entries"] else List([]);
    assert group.fields["keys"] == keys;
    assert CleanCompat(group.fields, keys.items) == CleanCompat(FieldsOf(entry), keys.items);
  }

  lemma SharedEntryExpands(entry: Node, provider: string, index: nat)
    requires provider != COMPAT && Groupable(entry, provider) && GroupOk(GroupEntry(entry, provider, index), provider)
    ensures ExpandGroup(GroupEntry(entry, provider, index), provider) == [Clean(entry, provider)]
  {
    hide GroupOk, CleanCompat;
    var group := GroupEntry(entry, provider, index);
    assert group.fields["keys"].items == [KeyPart(entry)];
    assert LiftedFields(group.fields) == LiftedFields(entry.fields);
    assert ExpandKey(group.fields, KeyPart(entry).fields) == Clean(entry, provider);
  }

  lemma GroupedEntryExpands(entry: Node, provider: string, index: nat)
    requires Groupable(entry, provider)
    ensures GroupOk(GroupEntry(entry, provider, index), provider)
    ensures ExpandGroup(GroupEntry(entry, provider, index), provider) == [Clean(entry, provider)]
  {
    hide GroupOk, GroupEntry, ExpandGroup, Clean;
    GroupedEntryOk(entry, provider, index);
    if provider == COMPAT {
      CompatEntryExpands(entry, index);
    } else {
      SharedEntryExpands(entry, provider, index);
    }
  }

  /**
   Grouping a legacy list and expanding it again succeeds exactly when groups can hold every entry,
   and then gives every entry back up to null and auth-index fields.
   */
  lemma {:induction false} GroupThenExpand(entries: seq<Node>, provider: string)
    ensures Expand(Group(entries, provider), provider) == if AllGroupable(entries, provider) then Ok(CleanAll(entries, provider)) else Err
  {
    hide GroupOk, ExpandGroup, GroupEntry, Clean, Groupable;
    if entries == [] {
      assert Group(entries, provider) == [] && CleanAll(entries, provider) == [];
    } else {
      var n := |entries| - 1;
      var front, last := entries[..n], entries[n];
      GroupThenExpand(front, provider);
      assert Group(entries, provider)[..n] == Group(front, provider);
      GroupedEntryOk(last, provider, n);
      assert AllGroupable(entries, provider) <==> AllGroupable(front, provider) && Groupable(last, provider);
      if Groupable(last, provider) {
        GroupedEntryExpands(last, provider, n);
        assert CleanAll(entries, provider) == CleanAll(front, provider) + [Clean(last, provider)];
      }
    }
  }
}
