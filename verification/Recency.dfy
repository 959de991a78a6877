/**
 Keyed lists ordered by most recent use, and the agreement of such a list of element objects with
 an index into it; shared by the caches built on a linked list and a map.
 */
module Recency {

  datatype Pair<K, V> = Pair(key: K, value: V)

  predicate Has<K(==), V>(s: seq<Pair<K, V>>, key: K) {
    exists i :: 0 <= i < |s| && s[i].key == key
  }

  ghost predicate Distinct<K(!new), V>(s: seq<Pair<K, V>>) {
    forall i, j :: 0 <= i < j < |s| ==> s[i].key != s[j].key
  }

  function Without<K(==), V>(s: seq<Pair<K, V>>, key: K): seq<Pair<K, V>> {
    if s == [] then [] else if s[0].key == key then s[1..] else [s[0]] + Without(s[1..], key)
  }

  function At<K(==), V>(s: seq<Pair<K, V>>, key: K): (p: Pair<K, V>)
    requires Has(s, key)
    ensures p in s && p.key == key
  {
    if s[0].key == key then s[0] else
      assert Has(s[1..], key) by {
        var i :| 0 <= i < |s| && s[i].key == key;
        assert s[1..][i - 1].key == key;
      }
      At(s[1..], key)
  }

  function Take<T>(s: seq<T>, n: nat): seq<T> {
    if |s| > n then s[..n] else s
  }

  /** Removing the element at `i` of a list with distinct keys. */
  lemma {:induction false} WithoutAt<K(!new), V>(s: seq<Pair<K, V>>, i: nat)
    requires Distinct(s) && i < |s|
    ensures Without(s, s[i].key) == s[..i] + s[i + 1..]
    ensures Has(s, s[i].key) && At(s, s[i].key) == s[i]
  {
    if i > 0 {
      WithoutAt(s[1..], i - 1);
      assert s[1..][i - 1] == s[i] && s[0].key != s[i].key;
      assert [s[0]] + (s[1..][..i - 1] + s[1..][i..]) == s[..i] + s[i + 1..];
    }
  }

  lemma {:induction false} WithoutAbsent<K(!new), V>(s: seq<Pair<K, V>>, key: K)
    requires !Has(s, key)
    ensures Without(s, key) == s
  {
    if s != [] {
      assert forall i :: 0 <= i < |s[1..]| ==> s[1..][i] == s[i + 1];
      WithoutAbsent(s[1..], key);
    }
  }

  lemma WithoutIndex<K(!new), V>(s: seq<Pair<K, V>>, key: K) returns (i: nat)
    requires Distinct(s)
    ensures i <= |s| && (i < |s| <==> Has(s, key))
    ensures i < |s| ==> s[i].key == key && At(s, key) == s[i] && Without(s, key) == s[..i] + s[i + 1..]
    ensures i == |s| ==> Without(s, key) == s
  {
    if Has(s, key) {
      i :| 0 <= i < |s| && s[i].key == key;
      WithoutAt(s, i);
    } else {
      i := |s|;
      WithoutAbsent(s, key);
    }
  }

  lemma RemovedAt<K(!new), V>(s: seq<Pair<K, V>>, i: nat)
    requires Distinct(s) && i < |s|
    ensures Distinct(s[..i] + s[i + 1..])
    ensures forall p | p in s[..i] + s[i + 1..] :: p in s && p.key != s[i].key
    ensures forall p | p in s && p.key != s[i].key :: p in s[..i] + s[i + 1..]
  {
    var a, b := s[..i], s[i + 1..];
    assert s == a + [s[i]] + b;
    assert forall j :: 0 <= j < |a| ==> a[j].key != s[i].key;
    assert forall j :: 0 <= j < |b| ==> b[j] == s[i + 1 + j] && b[j].key != s[i].key;
  }

  lemma SplitAt<T>(s: seq<T>, i: nat)
    requires i < |s|
    ensures multiset(s) == multiset(s[..i] + s[i + 1..]) + multiset{s[i]}
  {
    assert s == s[..i] + [s[i]] + s[i + 1..];
  }

  /** What removal keeps: the other pairs, in order, with distinct keys. */
  lemma WithoutMeans<K(!new), V>(s: seq<Pair<K, V>>, key: K)
    requires Distinct(s)
    ensures Distinct(Without(s, key)) && !Has(Without(s, key), key)
    ensures |Without(s, key)| == |s| - if Has(s, key) then 1 else 0
    ensures Has(s, key) ==> multiset(s) == multiset(Without(s, key)) + multiset{At(s, key)}
    ensures forall p | p in Without(s, key) :: p in s && p.key != key
    ensures forall p | p in s && p.key != key :: p in Without(s, key)
  {
    hide Without, At;
    var i := WithoutIndex(s, key);
    if i < |s| {
      RemovedAt(s, i);
      SplitAt(s, i);
    }
  }

  /** Lists of element objects with an index */

  /** Index and list hold the same elements, one per key. */
  ghost predicate Agree<K, E>(index: map<K, E>, order: seq<E>, key: E -> K) {
    && (forall i, j :: 0 <= i < j < |order| ==> key(order[i]) != key(order[j]))
    && (forall i :: 0 <= i < |order| ==> key(order[i]) in index && index[key(order[i])] == order[i])
    && (forall k | k in index :: index[k] in order && key(index[k]) == k)
  }

  /** The elements left when the one at `i` is taken out, and where they were. */
  lemma LeftAfter<E>(order: seq<E>, i: nat) returns (rest: seq<E>)
    requires i < |order|
    ensures rest == order[..i] + order[i + 1..] && |rest| == |order| - 1
    ensures forall j :: 0 <= j < |rest| ==> rest[j] == order[if j < i then j else j + 1]
    ensures forall e | e in order && e != order[i] :: e in rest
  {
    rest := order[..i] + order[i + 1..];
    assert order == order[..i] + [order[i]] + order[i + 1..];
  }

  lemma AgreeWithout<K, E>(index: map<K, E>, order: seq<E>, key: E -> K, i: nat)
    requires Agree(index, order, key) && i < |order|
    ensures Agree(index - {key(order[i])}, order[..i] + order[i + 1..], key)
  {
    var rest := LeftAfter(order, i);
    assert forall j :: 0 <= j < |rest| ==> key(rest[j]) != key(order[i]) && index[key(rest[j])] == rest[j];
  }

  lemma AgreePush<K, E>(index: map<K, E>, order: seq<E>, key: E -> K, e: E)
    requires Agree(index, order, key) && key(e) !in index
    ensures Agree(index[key(e) := e], [e] + order, key) && e !in order
  {}

  /** Where the list holds the element of key `k`. */
  method Locate<K(==), E(==)>(index: map<K, E>, order: seq<E>, ghost key: E -> K, k: K) returns (i: nat)
    requires Agree(index, order, key) && k in index
    ensures i < |order| && order[i] == index[k] && key(order[i]) == k
  {
    i := 0;
    while order[i] != index[k]
      invariant i < |order|
      invariant forall j :: 0 <= j < i ==> order[j] != index[k]
      decreases |order| - i
    {
      i := i + 1;
      assert i < |order| by {
        assert index[k] in order;
      }
    }
  }
}
