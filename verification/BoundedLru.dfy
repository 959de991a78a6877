/**
 The bounded least-recently-used cache: a map from keys to elements of a doubly linked list that
 is kept in order of use.  The list is a sequence of element objects, the map points at the same
 objects.  The mutex makes each method one step; the value a creator would return is a parameter.
 */
module BoundedLru {
  import opened Options
  import opened Recency

  class Element<K, V> {
    const key: K
    const value: V

    constructor (key: K, value: V)
      ensures this.key == key && this.value == value
    {
      this.key, this.value := key, value;
    }
  }

  function PairOf<K, V>(e: Element<K, V>): Pair<K, V> {
    Pair(e.key, e.value)
  }

  function Pairs<K, V>(order: seq<Element<K, V>>): (s: seq<Pair<K, V>>)
    ensures |s| == |order| && forall i :: 0 <= i < |s| ==> s[i] == PairOf(order[i])
  {
    seq(|order|, i requires 0 <= i < |order| => PairOf(order[i]))
  }

  function KeyOf<K, V>(e: Element<K, V>): K {
    e.key
  }

  lemma PairsWithout<K(!new), V>(entries: map<K, Element<K, V>>, order: seq<Element<K, V>>, i: nat)
    requires Agree(entries, order, KeyOf) && i < |order|
    ensures Pairs(order[..i] + order[i + 1..]) == Without(Pairs(order), order[i].key)
  {
    DistinctPairs(entries, order);
    var rest := LeftAfter(order, i);
    assert Pairs(rest) == Pairs(order)[..i] + Pairs(order)[i + 1..];
    WithoutAt(Pairs(order), i);
  }

  lemma DistinctPairs<K(!new), V>(entries: map<K, Element<K, V>>, order: seq<Element<K, V>>)
    requires Agree(entries, order, KeyOf)
    ensures Distinct(Pairs(order))
  {
    assert forall i :: 0 <= i < |order| ==> KeyOf(order[i]) == Pairs(order)[i].key;
  }

  lemma PairsPush<K, V>(order: seq<Element<K, V>>, e: Element<K, V>)
    ensures Pairs([e] + order) == [PairOf(e)] + Pairs(order)
  {}

  /** Most recent first; `key` is used, and `created` is its value if it was not there. */
  function Used<K(==), V>(s: seq<Pair<K, V>>, key: K, created: V, capacity: nat): seq<Pair<K, V>> {
    if Has(s, key) then [At(s, key)] + Without(s, key) else Take([Pair(key, created)] + s, capacity)
  }

  function Touched<K(==), V>(s: seq<Pair<K, V>>, key: K): seq<Pair<K, V>> {
    if Has(s, key) then [At(s, key)] + Without(s, key) else s
  }

  class Cache<K(!new, ==), V(==)> {
    const capacity: nat
    var entries: map<K, Element<K, V>>
    var order: seq<Element<K, V>>
    /** Every pair ever created, and every pair handed to the eviction callback. */
    ghost var made: multiset<Pair<K, V>>
    ghost var scheduled: multiset<Pair<K, V>>

    function Contents(): seq<Pair<K, V>>
      reads this
    {
      Pairs(order)
    }

    /** Index and list hold the same elements, one per key, within capacity; nothing created is lost. */
    ghost predicate Valid()
      reads this
    {
      && capacity >= 1 && |order| <= capacity
      && Indexed()
      && made == multiset(Contents()) + scheduled
    }

    ghost predicate Indexed()
      reads this
    {
      Agree(entries, order, KeyOf)
    }

    constructor (capacity: int)
      ensures Valid() && Contents() == [] && made == multiset{} && scheduled == multiset{}
      ensures this.capacity == if capacity < 1 then 1 else capacity
    {
      this.capacity := if capacity < 1 then 1 else capacity;
      entries, order := map[], [];
      made, scheduled := multiset{}, multiset{};
    }

    lemma IndexIsContents(key: K)
      requires Indexed()
      ensures key in entries <==> Has(Contents(), key)
      ensures key in entries ==> At(Contents(), key) == PairOf(entries[key])
    {
      DistinctPairs(entries, order);
      var i := WithoutIndex(Contents(), key);
      assert forall j :: 0 <= j < |order| ==> KeyOf(order[j]) == Contents()[j].key;
      if key in entries {
        var j :| 0 <= j < |order| && order[j] == entries[key];
        assert Contents()[j].key == key;
      }
    }

    /** Take the element of `key` out of the list and the index. */
    method Unlink(key: K) returns (e: Element<K, V>)
      requires Indexed() && key in entries
      modifies this`order, this`entries
      ensures e == old(entries)[key] && e.key == key
      ensures Indexed() && Contents() == Without(old(Contents()), key)
      ensures entries == old(entries) - {key}
    {
      hide Agree, Pairs;
      var i := Locate(entries, order, KeyOf, key);
      AgreeWithout(entries, order, KeyOf, i);
      PairsWithout(entries, order, i);
      e := order[i];
      entries := entries - {e.key};
      order := order[..i] + order[i + 1..];
    }

    method MoveToFront(key: K) returns (value: V)
      requires Valid() && key in entries
      modifies this`order, this`entries
      ensures Valid() && Contents() == Touched(old(Contents()), key)
      ensures Has(old(Contents()), key) && value == At(old(Contents()), key).value
    {
      hide Agree, Without, Has, At, Pairs;
      IndexIsContents(key);
      ghost var s := Contents();
      DistinctPairs(entries, order);
      WithoutMeans(s, key);
      var e := Unlink(key);
      AgreePush(entries, order, KeyOf, e);
      PairsPush(order, e);
      order := [e] + order;
      entries := entries[key := e];
      value := e.value;
      assert multiset([PairOf(e)] + Without(s, key)) == multiset{PairOf(e)} + multiset(Without(s, key));
    }

    method GetOrAdd(key: K, created: V) returns (value: V, evicted: Option<Pair<K, V>>)
      requires Valid()
      modifies this
      ensures Valid() && Contents() == Used(old(Contents()), key, created, capacity)
      ensures value == if Has(old(Contents()), key) then At(old(Contents()), key).value else created
      ensures made == old(made) + if Has(old(Contents()), key) then multiset{} else multiset{Pair(key, created)}
      ensures scheduled == old(scheduled) + if evicted.Some? then multiset{evicted.value} else multiset{}
      ensures evicted.Some? <==> !Has(old(Contents()), key) && |old(order)| == capacity
      ensures evicted.Some? ==> evicted.value == old(Contents())[capacity - 1] && evicted.value.key != key
    {
      hide Indexed, Pairs, Has, At, Without, Take;
      IndexIsContents(key);
      if key in entries {
        value := MoveToFront(key);
        return value, None;
      }
      evicted := Add(key, created);
      return created, evicted;
    }

    method Add(key: K, created: V) returns (evicted: Option<Pair<K, V>>)
      requires Valid() && key !in entries
      modifies this
      ensures Valid() && Contents() == Take([Pair(key, created)] + old(Contents()), capacity)
      ensures made == old(made) + multiset{Pair(key, created)}
      ensures scheduled == old(scheduled) + if evicted.Some? then multiset{evicted.value} else multiset{}
      ensures evicted.Some? <==> |old(order)| == capacity
      ensures evicted.Some? ==> evicted.value == old(Contents())[capacity - 1] && evicted.value.key != key
    {
      IndexIsContents(key);
      hide Indexed, Pairs;
      ghost var s := Contents();
      PushFront(key, created);
      evicted := None;
      if |order| > capacity {
        assert Contents()[capacity] == s[capacity - 1];
        var oldest := PopBack();
        evicted := Some(oldest);
      }
    }

    method PushFront(key: K, created: V)
      requires Indexed() && key !in entries && made == multiset(Contents()) + scheduled
      modifies this`order, this`entries, this`made
      ensures Indexed() && Contents() == [Pair(key, created)] + old(Contents())
      ensures made == old(made) + multiset{Pair(key, created)} && made == multiset(Contents()) + scheduled
    {
      hide Agree;
      var e := new Element(key, created);
      AgreePush(entries, order, KeyOf, e);
      PairsPush(order, e);
      order := [e] + order;
      entries := entries[key := e];
      made := made + multiset{Pair(key, created)};
    }

    method PopBack() returns (oldest: Pair<K, V>)
      requires Indexed() && |order| > 0 && made == multiset(Contents()) + scheduled
      modifies this`order, this`entries, this`scheduled
      ensures Indexed() && oldest == old(Contents())[|old(order)| - 1]
      ensures Contents() == old(Contents())[..|old(order)| - 1]
      ensures scheduled == old(scheduled) + multiset{oldest} && made == multiset(Contents()) + scheduled
    {
      hide Agree, Without;
      var n := |order| - 1;
      var e := order[n];
      ghost var s := Contents();
      assert s == s[..n] + [s[n]];
      AgreeWithout(entries, order, KeyOf, n);
      assert order[..n] + order[n + 1..] == order[..n];
      oldest := Pair(e.key, e.value);
      entries := entries - {e.key};
      order := order[..n];
      assert Contents() == s[..n];
      scheduled := scheduled + multiset{oldest};
    }

    method Get(key: K) returns (value: Option<V>)
      requires Valid()
      modifies this`order, this`entries
      ensures Valid() && Contents() == Touched(old(Contents()), key)
      ensures value == if Has(old(Contents()), key) then Some(At(old(Contents()), key).value) else None
    {
      IndexIsContents(key);
      if key !in entries {
        return None;
      }
      var v := MoveToFront(key);
      return Some(v);
    }

    method Delete(key: K) returns (removed: Option<Pair<K, V>>)
      requires Valid()
      modifies this
      ensures Valid() && Contents() == Without(old(Contents()), key)
      ensures removed == if Has(old(Contents()), key) then Some(At(old(Contents()), key)) else None
      ensures made == old(made)
      ensures scheduled == old(scheduled) + if removed.Some? then multiset{removed.value} else multiset{}
    {
      hide Has, Without, At, Agree;
      IndexIsContents(key);
      ghost var s := Contents();
      DistinctPairs(entries, order);
      WithoutMeans(s, key);
      if key !in entries {
        WithoutAbsent(s, key);
        return None;
      }
      var e := Unlink(key);
      removed := Some(Pair(e.key, e.value));
      scheduled := scheduled + multiset{removed.value};
    }

    method Len() returns (n: nat)
      requires Valid()
      ensures n == |Contents()|
    {
      SameSize();
      return |entries|;
    }

    lemma SameSize()
      requires Indexed()
      ensures |entries| == |order|
    {
      DistinctPairs(entries, order);
      KeysOf(Contents());
      forall k ensures k in entries.Keys <==> k in KeySet(Contents()) {
        IndexIsContents(k);
      }
      assert entries.Keys == KeySet(Contents());
      assert |entries.Keys| == |entries|;
    }
  }

  function KeySet<K, V>(s: seq<Pair<K, V>>): set<K> {
    set i | 0 <= i < |s| :: s[i].key
  }

  lemma DistinctPush<K(!new), V>(p: Pair<K, V>, s: seq<Pair<K, V>>)
    requires Distinct(s) && !Has(s, p.key)
    ensures Distinct([p] + s)
  {}

  lemma {:induction false} KeysOf<K(!new), V>(s: seq<Pair<K, V>>)
    requires Distinct(s)
    ensures |KeySet(s)| == |s|
  {
    if s != [] {
      var n := |s| - 1;
      KeysOf(s[..n]);
      assert KeySet(s) == KeySet(s[..n]) + {s[n].key};
    }
  }

  /** What is kept, over a whole history of calls */

  datatype Call<K, V> = Use(key: K, created: V) | Look(key: K) | Drop(key: K)

  function AfterCall<K(==), V>(s: seq<Pair<K, V>>, call: Call<K, V>, capacity: nat): seq<Pair<K, V>> {
    match call
    case Use(key, created) => Used(s, key, created, capacity)
    case Look(key) => Touched(s, key)
    case Drop(key) => Without(s, key)
  }

  function After<K(==), V>(history: seq<Call<K, V>>, capacity: nat): seq<Pair<K, V>> {
    if history == [] then [] else AfterCall(After(history[..|history| - 1], capacity), history[|history| - 1], capacity)
  }

  /** When `key` was last used or looked up; -1 if never. */
  function LastAccess<K(==), V>(history: seq<Call<K, V>>, key: K): (i: int)
    ensures -1 <= i < |history|
  {
    if history == [] then -1
    else if !history[|history| - 1].Drop? && history[|history| - 1].key == key then |history| - 1
    else LastAccess(history[..|history| - 1], key)
  }

  /** Later accesses come first. */
  ghost predicate ByAccess<K(!new), V>(s: seq<Pair<K, V>>, history: seq<Call<K, V>>) {
    forall i, j | 0 <= i < j < |s| :: LastAccess(history, s[i].key) > LastAccess(history, s[j].key)
  }

  lemma {:induction false} InFront<K(!new), V>(p: Pair<K, V>, rest: seq<Pair<K, V>>)
    requires Distinct(rest) && !Has(rest, p.key)
    ensures Distinct([p] + rest) && Has([p] + rest, p.key)
    ensures ([p] + rest)[0] == p && ([p] + rest)[1..] == rest && forall q | q in [p] + rest :: q == p || q in rest
  {
    assert ([p] + rest)[0].key == p.key;
  }

  lemma {:induction false} Shorter<K(!new), V>(s: seq<Pair<K, V>>, rest: seq<Pair<K, V>>, key: K)
    requires Distinct(s) && !Has(s, key) && rest <= s
    ensures Distinct(rest) && !Has(rest, key) && forall p | p in rest :: p in s
  {
    assert forall i | 0 <= i < |rest| :: rest[i] == s[i] && rest[i].key != key;
  }

  /** A call leaves the order of the others alone and puts its own key, if cached, in front. */
  lemma {:induction false} CallMeans<K(!new), V>(s: seq<Pair<K, V>>, call: Call<K, V>, capacity: nat)
    requires Distinct(s) && capacity >= 1 && |s| <= capacity
    ensures var s' := AfterCall(s, call, capacity);
      && Distinct(s') && |s'| <= capacity
      && (forall p | p in s' :: p in s || (call.Use? && p == Pair(call.key, call.created) && !Has(s, call.key)))
      && (Has(s', call.key) ==> !call.Drop? && |s'| > 0 && s'[0].key == call.key)
      && (var rest := if Has(s', call.key) then s'[1..] else s';
          rest == Without(s, call.key) || (call.Use? && !Has(s, call.key) && |s| == capacity && rest == s[..capacity - 1]))
  {
    hide Has, Without, At, Distinct;
    WithoutMeans(s, call.key);
    var key, others := call.key, Without(s, call.key);
    if call.Drop? {
    } else if Has(s, key) {
      InFront(At(s, key), others);
      assert AfterCall(s, call, capacity) == [At(s, key)] + others;
      forall q | q in AfterCall(s, call, capacity) ensures q in s {
        assert q == At(s, key) || q in others;
      }
    } else if call.Look? {
      WithoutAbsent(s, key);
    } else {
      WithoutAbsent(s, key);
      var p, rest := Pair(key, call.created), if |s| == capacity then s[..capacity - 1] else s;
      Shorter(s, rest, key);
      InFront(p, rest);
      assert Take([p] + s, capacity) == [p] + rest;
    }
  }

  lemma {:induction false} AfterIsDistinct<K(!new), V>(history: seq<Call<K, V>>, capacity: nat)
    requires capacity >= 1
    ensures Distinct(After(history, capacity)) && |After(history, capacity)| <= capacity
  {
    if history != [] {
      var n := |history| - 1;
      AfterIsDistinct(history[..n], capacity);
      CallMeans(After(history[..n], capacity), history[n], capacity);
    }
  }

  /** Keys that the last call did not name keep their last access. */
  lemma {:induction false} StillOrdered<K(!new), V>(rest: seq<Pair<K, V>>, history: seq<Call<K, V>>)
    requires history != [] && ByAccess(rest, history[..|history| - 1])
    requires forall p | p in rest :: p.key != history[|history| - 1].key
    ensures ByAccess(rest, history) && forall p | p in rest :: LastAccess(history, p.key) < |history| - 1
  {
    assert forall i | 0 <= i < |rest| :: rest[i] in rest && LastAccess(history, rest[i].key) == LastAccess(history[..|history| - 1], rest[i].key);
  }

  lemma {:induction false} FrontOrdered<K(!new), V>(p: Pair<K, V>, rest: seq<Pair<K, V>>, history: seq<Call<K, V>>)
    requires history != [] && !history[|history| - 1].Drop? && history[|history| - 1].key == p.key
    requires ByAccess(rest, history) && forall q | q in rest :: LastAccess(history, q.key) < |history| - 1
    ensures ByAccess([p] + rest, history)
  {
    assert LastAccess(history, p.key) == |history| - 1;
    hide LastAccess;
    assert forall i | 0 <= i < |rest| :: rest[i] in rest;
  }

  lemma {:induction false} RestHasNot<K(!new), V>(s: seq<Pair<K, V>>, rest: seq<Pair<K, V>>, key: K, capacity: nat)
    requires Distinct(s) && (rest == Without(s, key) || (!Has(s, key) && rest == Take(s, capacity)) || (!Has(s, key) && |s| == capacity > 0 && rest == s[..capacity - 1]))
    ensures forall p | p in rest :: p.key != key
  {
    WithoutMeans(s, key);
  }

  lemma {:induction false} RestOrdered<K(!new), V>(s: seq<Pair<K, V>>, rest: seq<Pair<K, V>>, key: K, history: seq<Call<K, V>>)
    requires Distinct(s) && ByAccess(s, history)
    requires rest == Without(s, key) || (|s| > 0 && rest == s[..|s| - 1])
    ensures ByAccess(rest, history)
  {
    var i := WithoutIndex(s, key);
  }

  lemma {:induction false} NothingOrdered<K(!new), V>(history: seq<Call<K, V>>)
    ensures ByAccess([], history)
  {}

  /** The cache is always in order of last access. */
  lemma {:induction false} OrderedByAccess<K(!new), V>(history: seq<Call<K, V>>, capacity: nat)
    requires capacity >= 1
    ensures ByAccess(After(history, capacity), history)
  {
    hide AfterCall, Has, Without, LastAccess, Distinct, ByAccess;
    if history == [] {
      NothingOrdered(history);
    } else {
      var n := |history| - 1;
      var before, call := history[..n], history[n];
      var s, s' := After(before, capacity), After(history, capacity);
      OrderedByAccess(before, capacity);
      AfterIsDistinct(before, capacity);
      CallMeans(s, call, capacity);
      var rest := if Has(s', call.key) then s'[1..] else s';
      RestOrdered(s, rest, call.key, before);
      RestHasNot(s, rest, call.key, capacity);
      StillOrdered(rest, history);
      if Has(s', call.key) {
        FrontOrdered(s'[0], rest, history);
        assert s' == [s'[0]] + rest;
      }
    }
  }

  /** A cached value is the one created when its key was last inserted, and has been cached ever since. */
  lemma {:induction false} ValueIsLatest<K(!new), V>(history: seq<Call<K, V>>, capacity: nat, p: Pair<K, V>) returns (i: nat)
    requires capacity >= 1 && p in After(history, capacity)
    ensures i < |history| && history[i] == Use(p.key, p.value) && !Has(After(history[..i], capacity), p.key)
    ensures forall n | i < n <= |history| :: p in After(history[..n], capacity)
  {
    hide AfterCall, Without, Distinct, Has;
    var n := |history| - 1;
    var s := After(history[..n], capacity);
    AfterIsDistinct(history[..n], capacity);
    CallMeans(s, history[n], capacity);
    assert history[..n + 1] == history;
    if p in s {
      i := ValueIsLatest(history[..n], capacity, p);
      assert history[..n][..i] == history[..i];
      assert forall k | i < k <= n :: history[..n][..k] == history[..k];
    } else {
      i := n;
    }
  }

  lemma {:induction false} OthersStay<K(!new), V>(s: seq<Pair<K, V>>, call: Call<K, V>, capacity: nat, p: Pair<K, V>)
    requires Distinct(s) && capacity >= 1 && |s| <= capacity && p in s && p.key != call.key
    requires p !in AfterCall(s, call, capacity)
    ensures call.Use? && !Has(s, call.key) && |s| == capacity && p !in s[..capacity - 1]
  {
    CallMeans(s, call, capacity);
    WithoutMeans(s, call.key);
    var s' := AfterCall(s, call, capacity);
    if Has(s', call.key) {
      assert s' == [s'[0]] + s'[1..];
    }
  }

  /** Looking a key up or using it never loses it. */
  lemma {:induction false} OwnStays<K(!new), V>(s: seq<Pair<K, V>>, call: Call<K, V>, capacity: nat, p: Pair<K, V>)
    requires Distinct(s) && p in s && p.key == call.key && p !in AfterCall(s, call, capacity)
    ensures call.Drop?
  {
    var i :| 0 <= i < |s| && s[i] == p;
    WithoutAt(s, i);
  }

  lemma {:induction false} LastIsOldest<K(!new), V>(s: seq<Pair<K, V>>, history: seq<Call<K, V>>, p: Pair<K, V>, capacity: nat)
    requires ByAccess(s, history) && |s| == capacity >= 1 && p in s && p !in s[..capacity - 1]
    ensures forall q | q in s && q != p :: LastAccess(history, q.key) > LastAccess(history, p.key)
  {
    hide LastAccess;
    assert forall j | 0 <= j < capacity - 1 :: s[j] in s[..capacity - 1];
    assert s[capacity - 1] == p;
  }

  /** A pair leaves the cache only by deletion, or when a new key arrives at a full cache and every other pair was accessed later. */
  lemma {:induction false} EvictsLeastRecent<K(!new), V>(history: seq<Call<K, V>>, capacity: nat, call: Call<K, V>, p: Pair<K, V>)
    requires capacity >= 1 && p in After(history, capacity) && p !in After(history + [call], capacity)
    ensures call.key == p.key ==> call.Drop?
    ensures call.key != p.key ==>
      && call.Use? && !Has(After(history, capacity), call.key) && |After(history, capacity)| == capacity
      && forall q | q in After(history, capacity) && q != p :: LastAccess(history, q.key) > LastAccess(history, p.key)
  {
    var s := After(history, capacity);
    assert (history + [call])[..|history|] == history;
    AfterIsDistinct(history, capacity);
    OrderedByAccess(history, capacity);
    assert After(history + [call], capacity) == AfterCall(s, call, capacity);
    hide After, LastAccess, Has, AfterCall;
    if call.key == p.key {
      OwnStays(s, call, capacity, p);
    } else {
      OthersStay(s, call, capacity, p);
      LastIsOldest(s, history, p, capacity);
    }
  }

  /** The distinct keys of `history`, the latest used first. */
  function LatestFirst<K(==)>(history: seq<K>): seq<K> {
    if history == [] then [] else
      var last := history[|history| - 1];
      [last] + Less(LatestFirst(history[..|history| - 1]), last)
  }

  function Less<K(==)>(s: seq<K>, k: K): seq<K> {
    if s == [] then [] else if s[0] == k then Less(s[1..], k) else [s[0]] + Less(s[1..], k)
  }

  function Keys<K, V>(s: seq<Pair<K, V>>): (r: seq<K>)
    ensures |r| == |s| && forall i :: 0 <= i < |r| ==> r[i] == s[i].key
  {
    seq(|s|, i requires 0 <= i < |s| => s[i].key)
  }

  function CalledKeys<K, V>(history: seq<Call<K, V>>): (r: seq<K>)
    ensures |r| == |history| && forall i :: 0 <= i < |r| ==> r[i] == history[i].key
  {
    seq(|history|, i requires 0 <= i < |history| => history[i].key)
  }

  lemma {:induction false} LessAbsent<K>(s: seq<K>, k: K)
    requires k !in s
    ensures Less(s, k) == s
  {
    if s != [] {
      LessAbsent(s[1..], k);
    }
  }

  lemma {:induction false} LessMeans<K(!new)>(s: seq<K>, k: K)
    ensures forall x :: x in Less(s, k) <==> x in s && x != k
    ensures NoRepeats(s) ==> NoRepeats(Less(s, k))
  {
    if s != [] {
      LessMeans(s[1..], k);
      assert s == [s[0]] + s[1..];
      if NoRepeats(s) {
        assert forall j :: 0 <= j < |s[1..]| ==> s[1..][j] == s[j + 1];
        assert NoRepeats(s[1..]);
        assert s[0] !in s[1..];
      }
    }
  }

  ghost predicate NoRepeats<K(!new)>(s: seq<K>) {
    forall i, j :: 0 <= i < j < |s| ==> s[i] != s[j]
  }

  lemma {:induction false} LessAt<K(!new)>(s: seq<K>, i: nat)
    requires NoRepeats(s) && i < |s|
    ensures Less(s, s[i]) == s[..i] + s[i + 1..]
  {
    if i == 0 {
      LessAbsent(s[1..], s[0]);
    } else {
      assert forall j :: 0 <= j < |s[1..]| ==> s[1..][j] == s[j + 1];
      LessAt(s[1..], i - 1);
      assert s[..i] + s[i + 1..] == [s[0]] + (s[1..][..i - 1] + s[1..][i..]);
    }
  }

  /** Using a key in a list cut to `capacity` is cutting the longer list after the use. */
  lemma CutAfterUse<K(!new)>(full: seq<K>, k: K, capacity: nat)
    requires NoRepeats(full) && capacity >= 1
    ensures Take([k] + Less(full, k), capacity) ==
      if k in Take(full, capacity) then [k] + Less(Take(full, capacity), k) else Take([k] + Take(full, capacity), capacity)
  {
    var cut := Take(full, capacity);
    if k in full {
      var i :| 0 <= i < |full| && full[i] == k;
      LessAt(full, i);
      if i < capacity {
        assert cut[i] == k;
        LessAt(cut, i);
        CutMiddle(full, i, capacity);
      } else {
        assert k !in cut;
        assert Take([k] + (full[..i] + full[i + 1..]), capacity) == Take([k] + cut, capacity);
      }
    } else {
      LessAbsent(full, k);
    }
  }

  lemma CutMiddle<K>(full: seq<K>, i: nat, capacity: nat)
    requires i < |full| && i < capacity
    ensures var cut := Take(full, capacity);
      Take([full[i]] + (full[..i] + full[i + 1..]), capacity) == [full[i]] + (cut[..i] + cut[i + 1..])
  {
    var cut := Take(full, capacity);
    var moved := [full[i]] + (full[..i] + full[i + 1..]);
    if |full| > capacity {
      assert cut[..i] == full[..i] && cut[i + 1..] == full[i + 1..capacity];
      assert full[i + 1..] == full[i + 1..capacity] + full[capacity..];
      assert moved == [full[i]] + (full[..i] + full[i + 1..capacity]) + full[capacity..];
    }
  }

  lemma KeysDistinct<K(!new), V>(s: seq<Pair<K, V>>, key: K)
    requires Distinct(s)
    ensures NoRepeats(Keys(s)) && (Has(s, key) <==> key in Keys(s))
  {
    if Has(s, key) {
      var i :| 0 <= i < |s| && s[i].key == key;
      assert Keys(s)[i] == key;
    }
  }

  lemma UsedKeys<K(!new), V>(s: seq<Pair<K, V>>, key: K, created: V, capacity: nat)
    requires Distinct(s) && capacity >= 1
    ensures Distinct(Used(s, key, created, capacity))
    ensures Keys(Used(s, key, created, capacity)) ==
      if key in Keys(s) then [key] + Less(Keys(s), key) else Take([key] + Keys(s), capacity)
  {
    hide Less;
    KeysDistinct(s, key);
    if Has(s, key) {
      WithoutMeans(s, key);
      var i := WithoutIndex(s, key);
      DistinctPush(s[i], Without(s, key));
      LessAt(Keys(s), i);
      KeysMoved(s, i);
    } else {
      DistinctPush(Pair(key, created), s);
      assert Keys(Take([Pair(key, created)] + s, capacity)) == Take([key] + Keys(s), capacity);
    }
  }

  lemma KeysMoved<K(!new), V>(s: seq<Pair<K, V>>, i: nat)
    requires i < |s|
    ensures Keys([s[i]] + (s[..i] + s[i + 1..])) == [s[i].key] + (Keys(s)[..i] + Keys(s)[i + 1..])
  {}

  lemma {:induction false} LatestFirstDistinct<K(!new)>(history: seq<K>)
    ensures NoRepeats(LatestFirst(history))
  {
    if history != [] {
      var n := |history| - 1;
      LatestFirstDistinct(history[..n]);
      LessMeans(LatestFirst(history[..n]), history[n]);
      RepeatsPush(history[n], Less(LatestFirst(history[..n]), history[n]));
    }
  }

  lemma RepeatsPush<K(!new)>(k: K, s: seq<K>)
    requires NoRepeats(s) && k !in s
    ensures NoRepeats([k] + s)
  {}

  /** After any history of uses alone, exactly the most recently used distinct keys are cached, in that order. */
  lemma {:induction false} KeepsMostRecent<K(!new), V>(history: seq<Call<K, V>>, capacity: nat)
    requires capacity >= 1 && forall i | 0 <= i < |history| :: history[i].Use?
    ensures Keys(After(history, capacity)) == Take(LatestFirst(CalledKeys(history)), capacity)
  {
    if history != [] {
      var n := |history| - 1;
      var last := history[n];
      KeepsMostRecent(history[..n], capacity);
      AfterIsDistinct(history[..n], capacity);
      assert CalledKeys(history)[..n] == CalledKeys(history[..n]);
      LatestFirstDistinct(CalledKeys(history[..n]));
      CutAfterUse(LatestFirst(CalledKeys(history[..n])), last.key, capacity);
      UsedKeys(After(history[..n], capacity), last.key, last.created, capacity);
    }
  }
}
