/**
 Two-level maps, user then instance, whose inner maps are dropped when they run empty.
 They stand for a flat map keyed by the pair.
 */
module TwoLevel {
  import opened Common

  type Nested<K, V> = map<K, map<K, V>>

  /** The flat view. */
  function Find<K, V>(m: Nested<K, V>, u: K, i: K): Option<V> {
    if u in m && i in m[u] then Some(m[u][i]) else None
  }

  function Put<K, V>(m: Nested<K, V>, u: K, i: K, v: V): Nested<K, V> {
    var bucket := if u in m then m[u] else map[];
    m[u := bucket[i := v]]
  }

  /** Takes an entry out, and its bucket with it when that was the last one. */
  function Drop<K, V>(m: Nested<K, V>, u: K, i: K): Nested<K, V> {
    if u !in m then m
    else
      var bucket := m[u] - {i};
      if bucket == map[] then m - {u} else m[u := bucket]
  }

  ghost predicate NoEmptyBucket<K, V>(m: Nested<K, V>) {
    forall u | u in m :: m[u] != map[]
  }

  /** Putting and dropping change the flat map at one key, and leave no empty bucket. */
  lemma FindPut<K, V>(m: Nested<K, V>, u: K, i: K, v: V, u': K, i': K)
    ensures Find(Put(m, u, i, v), u', i') == if u' == u && i' == i then Some(v) else Find(m, u', i')
    ensures NoEmptyBucket(m) ==> NoEmptyBucket(Put(m, u, i, v))
  {
    var bucket := if u in m then m[u] else map[];
    assert i in bucket[i := v];
  }

  lemma FindDrop<K, V>(m: Nested<K, V>, u: K, i: K, u': K, i': K)
    ensures Find(Drop(m, u, i), u', i') == if u' == u && i' == i then None else Find(m, u', i')
    ensures NoEmptyBucket(m) ==> NoEmptyBucket(Drop(m, u, i))
  {
    if u in m && u' == u && i' in m[u] && i' != i {
      assert i' in m[u] - {i};
    }
  }

  /** Dropping done step by step: shrink the bucket, then take the bucket out once it has size zero. */
  lemma DropBySize<K, V>(m: Nested<K, V>, u: K, i: K)
    requires u in m
    ensures i !in m[u] ==> m[u := m[u] - {i}] == m
    ensures var shrunk := m[u := m[u] - {i}];
      Drop(m, u, i) == if |m[u] - {i}| == 0 then shrunk - {u} else shrunk
  {
    var bucket := m[u] - {i};
    if i !in m[u] {
      assert bucket == m[u];
    }
    assert m[u := bucket] - {u} == m - {u};
    assert |bucket| == 0 <==> bucket == map[];
  }
}
