/**
 The two indices of the duplicate finder are both maps from a key (a file
 length, or a rendered digest) to the list of paths seen with that key, in
 the order they were seen. This module holds what the two share: the
 `entry(k).or_insert(Vec::new()).push(v)` step (src/main.rs:36, 78) and the
 singleton pruning of `remove_uniques` / `remove_uniques_`
 (src/main.rs:40-56), which differ only in the key type and are one generic
 method here.
 */
module MultiMap {

  /** The bucket for `k`, or the empty list if there is none. */
  function Bucket<K, V>(m: map<K, seq<V>>, k: K): seq<V> {
    if k in m then m[k] else []
  }

  /** `m.entry(k).or_insert(Vec::new()).push(v)`. */
  function Insert<K, V>(m: map<K, seq<V>>, k: K, v: V): (r: map<K, seq<V>>)
    ensures r.Keys == m.Keys + {k}
    ensures r[k] == Bucket(m, k) + [v]
    ensures forall k' :: k' in m && k' != k ==> r[k'] == m[k']
  {
    m[k := Bucket(m, k) + [v]]
  }

  /** Some key of a non-empty map. */
  ghost function AnyKey<K, V>(m: map<K, V>): (k: K)
    requires m != map[]
    ensures k in m
  {
    var k :| k in m; k
  }

  /** Every value held by any bucket, with multiplicity. */
  ghost function Flatten<K, V>(m: map<K, seq<V>>): multiset<V>
    decreases |m|
  {
    if m == map[] then multiset{}
    else multiset(m[AnyKey(m)]) + Flatten(m - {AnyKey(m)})
  }

  /** Flatten may be unfolded at any key, not only the one it picks. */
  lemma {:induction false} FlattenRemove<K, V>(m: map<K, seq<V>>, k: K)
    requires k in m
    ensures Flatten(m) == multiset(m[k]) + Flatten(m - {k})
    decreases |m|
  {
    var j := AnyKey(m);
    if j != k {
      FlattenRemove(m - {j}, k);
      FlattenRemove(m - {k}, j);
      assert m - {j} - {k} == m - {k} - {j};
    }
  }

  /** Replacing a bucket: the index holds the new bucket and the rest. */
  lemma FlattenUpdate<K, V>(m: map<K, seq<V>>, k: K, b: seq<V>)
    ensures Flatten(m[k := b]) == multiset(b) + Flatten(m - {k})
  {
    FlattenRemove(m[k := b], k);
    assert m[k := b] - {k} == m - {k};
  }

  /** The index holds the bucket of any key, empty or not, and the rest. */
  lemma FlattenBucket<K, V>(m: map<K, seq<V>>, k: K)
    ensures Flatten(m) == multiset(Bucket(m, k)) + Flatten(m - {k})
  {
    if k in m {
      FlattenRemove(m, k);
    } else {
      assert m - {k} == m;
    }
  }

  /** Inserting adds exactly one copy of the value to the index. */
  lemma FlattenInsert<K, V>(m: map<K, seq<V>>, k: K, v: V)
    ensures Flatten(Insert(m, k, v)) == Flatten(m) + multiset{v}
  {
    var b := Bucket(m, k);
    FlattenUpdate(m, k, b + [v]);
    FlattenBucket(m, k);
    assert multiset(b + [v]) == multiset(b) + multiset{v};
    var rest := Flatten(m - {k});
    assert (multiset(b) + multiset{v}) + rest == (multiset(b) + rest) + multiset{v};
  }

  /** A value is in the index exactly when some bucket holds it. */
  lemma {:induction false} FlattenMember<K, V>(m: map<K, seq<V>>, v: V)
    ensures v in Flatten(m) <==> exists k :: k in m && v in m[k]
    decreases |m|
  {
    if m != map[] {
      var j :| j in m;
      var rest := m - {j};
      FlattenRemove(m, j);
      FlattenMember(rest, v);
      if v in Flatten(m) {
        if v !in m[j] {
          var k :| k in rest && v in rest[k];
          assert k in m && v in m[k];
        }
      }
      if exists k :: k in m && v in m[k] {
        var k :| k in m && v in m[k];
        if k != j {
          assert k in rest && v in rest[k];
        }
      }
    }
  }

  /** An index of non-empty buckets holds no values exactly when it has no keys. */
  lemma FlattenEmpty<K, V>(m: map<K, seq<V>>)
    requires forall k :: k in m ==> |m[k]| > 0
    ensures Flatten(m) == multiset{} <==> m == map[]
  {
    if m != map[] {
      var k :| k in m;
      FlattenMember(m, m[k][0]);
    }
  }

  /** A map that keeps some buckets of another, unchanged, holds no more values. */
  lemma {:induction false} FlattenSubmap<K, V>(small: map<K, seq<V>>, big: map<K, seq<V>>)
    requires small.Keys <= big.Keys
    requires forall k :: k in small ==> small[k] == big[k]
    ensures Flatten(small) <= Flatten(big)
    decreases |small|
  {
    if small != map[] {
      var k :| k in small;
      FlattenRemove(small, k);
      FlattenRemove(big, k);
      FlattenSubmap(small - {k}, big - {k});
    }
  }

  /** The index with every singleton bucket removed. */
  function Pruned<K, V>(m: map<K, seq<V>>): (r: map<K, seq<V>>)
    ensures forall k :: k in m && |m[k]| != 1 ==> k in r
    ensures forall k :: k in r ==> k in m && |m[k]| != 1 && r[k] == m[k]
  {
    map k | k in m && |m[k]| != 1 :: m[k]
  }

  /** `remove_uniques` / `remove_uniques_`: walk a snapshot of the keys, in
      whatever order the map yields them, and drop every key whose bucket
      holds exactly one path. */
  method RemoveUniques<K, V>(dict: map<K, seq<V>>) returns (pruned: map<K, seq<V>>)
    ensures pruned == Pruned(dict)
    ensures pruned.Keys <= dict.Keys
    ensures forall k :: k in pruned ==> |pruned[k]| != 1
  {
    pruned := dict;
    var copy := dict.Keys;
    while copy != {}
      invariant copy <= dict.Keys
      invariant forall k :: k in dict && (k in copy || |dict[k]| != 1) ==> k in pruned
      invariant forall k :: k in pruned ==> k in dict && (k in copy || |dict[k]| != 1)
      invariant forall k :: k in pruned ==> pruned[k] == dict[k]
      decreases copy
    {
      var size :| size in copy;
      if |dict[size]| == 1 {
        pruned := pruned - {size};
      }
      copy := copy - {size};
    }
  }

  /** Pruning twice is pruning once. */
  lemma PrunedIdempotent<K, V>(m: map<K, seq<V>>)
    ensures Pruned(Pruned(m)) == Pruned(m)
  {
  }

  /** Pruning only removes: the key set and the paths held both shrink. */
  lemma PrunedShrinks<K, V>(m: map<K, seq<V>>)
    ensures Pruned(m).Keys <= m.Keys
    ensures Flatten(Pruned(m)) <= Flatten(m)
  {
    FlattenSubmap(Pruned(m), m);
  }

  /** When no bucket was empty to begin with, every surviving bucket holds at least two values. */
  lemma PrunedAtLeastTwo<K, V>(m: map<K, seq<V>>)
    requires forall k :: k in m ==> |m[k]| > 0
    ensures forall k :: k in Pruned(m) ==> |Pruned(m)[k]| >= 2
  {
  }
}
