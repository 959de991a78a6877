/** Choice of the entries to evict: the oldest by timestamp, ties broken arbitrarily. */
module Eviction {

  function Min(a: nat, b: nat): nat {
    if a < b then a else b
  }

  ghost predicate AreOldest<K>(stamps: map<K, int>, count: nat, victims: set<K>) {
    && victims <= stamps.Keys
    && |victims| == Min(count, |stamps|)
    && forall v, k | v in victims && k in stamps && k !in victims :: stamps[v] <= stamps[k]
  }

  method Oldest<K(==)>(stamps: map<K, int>) returns (oldest: K)
    requires |stamps| > 0
    ensures oldest in stamps
    ensures forall k | k in stamps :: stamps[oldest] <= stamps[k]
  {
    var rest := stamps.Keys;
    assert rest != {} by {
      assert |stamps.Keys| == |stamps|;
    }
    oldest :| oldest in rest;
    while rest != {}
      invariant oldest in stamps
      invariant rest <= stamps.Keys
      invariant forall k | k in stamps && k !in rest :: stamps[oldest] <= stamps[k]
      decreases rest
    {
      var k :| k in rest;
      if stamps[k] < stamps[oldest] {
        oldest := k;
      }
      rest := rest - {k};
    }
  }

  method OldestKeys<K(==)>(stamps: map<K, int>, count: nat) returns (victims: set<K>)
    ensures AreOldest(stamps, count, victims)
  {
    victims := {};
    var rest := stamps;
    while |victims| < count && |rest| > 0
      invariant victims <= stamps.Keys && rest == stamps - victims
      invariant |victims| + |rest| == |stamps|
      invariant |victims| <= count
      invariant forall v, k | v in victims && k in rest :: stamps[v] <= stamps[k]
      decreases |rest|
    {
      var k := Oldest(rest);
      victims := victims + {k};
      var next := rest - {k};
      assert next.Keys == rest.Keys - {k};
      assert |next.Keys| == |next| && |rest.Keys| == |rest|;
      rest := next;
    }
  }
}
