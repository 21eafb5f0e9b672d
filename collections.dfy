/** Duplicate-free sequences, shared by the ranking, the cache and the container. */
module Collections {

  /** No element occurs twice. */
  predicate Distinct<T(==)>(s: seq<T>)
  {
    forall i, j :: 0 <= i < j < |s| ==> s[i] != s[j]
  }

  /** A duplicate-free list of exactly the keys of a map is as long as the map. */
  lemma {:induction false} DistinctKeysCount<V>(keys: seq<string>, m: map<string, V>)
    requires Distinct(keys)
    requires forall k :: k in keys <==> k in m
    ensures |keys| == |m|
  {
    if keys == [] {
      assert m.Keys == {};
    } else {
      var k := keys[0];
      var rest := keys[1..];
      assert keys == [k] + rest;
      forall x | x in rest ensures x != k {
        var j :| 0 <= j < |rest| && rest[j] == x;
        assert keys[j + 1] == x;
      }
      assert Distinct(rest) by {
        forall i, j | 0 <= i < j < |rest| ensures rest[i] != rest[j] {
          assert keys[i + 1] == rest[i] && keys[j + 1] == rest[j];
        }
      }
      DistinctKeysCount(rest, m - {k});
      assert (m - {k}).Keys == m.Keys - {k};
    }
  }
}
