/**
  A JavaScript `Map` as the list of its entries in insertion order.

  `Set` on a key that is present overwrites its value where it stands;
  `Set` on a new key appends the entry; `Delete` removes the entry and keeps
  the others in their order. The entries of a map built only by `Set` and
  `Delete` have distinct keys (`DistinctKeys`).
 */
module OrderedMap {
  import opened Wrappers

  /** The keys, in insertion order (`Array.from(m.keys())`). */
  function Keys<K, V>(m: seq<(K, V)>): seq<K>
  {
    seq(|m|, i requires 0 <= i < |m| => m[i].0)
  }

  /** The values, in insertion order (`Array.from(m.values())`). */
  function Values<K, V>(m: seq<(K, V)>): seq<V>
  {
    seq(|m|, i requires 0 <= i < |m| => m[i].1)
  }

  ghost predicate DistinctKeys<K, V>(m: seq<(K, V)>)
  {
    forall i, j :: 0 <= i < j < |m| ==> m[i].0 != m[j].0
  }

  /** `m.get(k)`: the value stored under `k`, or `None` (`undefined`). */
  function Get<K(==), V>(m: seq<(K, V)>, k: K): (r: Option<V>)
    ensures r.Some? <==> k in Keys(m)
    ensures r.Some? ==> (k, r.value) in m
  {
    if m == [] then None
    else if m[0].0 == k then
      assert Keys(m)[0] == k;
      Some(m[0].1)
    else
      var r := Get(m[1..], k);
      assert Keys(m) == [m[0].0] + Keys(m[1..]);
      r
  }

  /** `m.set(k, v)`: overwrite in place, or append a new entry. */
  function Set<K(==), V>(m: seq<(K, V)>, k: K, v: V): seq<(K, V)>
  {
    if m == [] then [(k, v)]
    else if m[0].0 == k then [(k, v)] + m[1..]
    else [m[0]] + Set(m[1..], k, v)
  }

  /** `m.delete(k)`: drop the entry of `k`, if there is one. */
  function Delete<K(==), V>(m: seq<(K, V)>, k: K): seq<(K, V)>
  {
    if m == [] then []
    else if m[0].0 == k then m[1..]
    else [m[0]] + Delete(m[1..], k)
  }

  /** In a map with distinct keys, the entry of a key determines `Get`. */
  lemma {:induction false} GetEntry<K, V>(m: seq<(K, V)>, i: nat)
    requires DistinctKeys(m) && i < |m|
    ensures Get(m, m[i].0) == Some(m[i].1)
  {
    if i > 0 {
      GetEntry(m[1..], i - 1);
    }
  }

  /** Setting a key already present replaces its entry in place: same length, same position. */
  lemma {:induction false} SetPresent<K, V>(m: seq<(K, V)>, i: nat, v: V)
    requires DistinctKeys(m) && i < |m|
    ensures Set(m, m[i].0, v) == m[i := (m[i].0, v)]
    ensures Keys(Set(m, m[i].0, v)) == Keys(m)
    ensures Values(Set(m, m[i].0, v)) == Values(m)[i := v]
  {
    if i > 0 {
      SetPresent(m[1..], i - 1, v);
      assert m[i := (m[i].0, v)] == [m[0]] + m[1..][i - 1 := (m[i].0, v)];
    }
  }

  /** Setting a new key appends its entry at the end. */
  lemma {:induction false} SetAbsent<K, V>(m: seq<(K, V)>, k: K, v: V)
    requires k !in Keys(m)
    ensures Set(m, k, v) == m + [(k, v)]
    ensures Keys(Set(m, k, v)) == Keys(m) + [k]
    ensures Values(Set(m, k, v)) == Values(m) + [v]
  {
    if m != [] {
      assert Keys(m) == [m[0].0] + Keys(m[1..]);
      SetAbsent(m[1..], k, v);
      assert m + [(k, v)] == [m[0]] + (m[1..] + [(k, v)]);
    }
  }

  /** `Set` keeps the keys distinct. */
  lemma SetDistinct<K, V>(m: seq<(K, V)>, k: K, v: V)
    requires DistinctKeys(m)
    ensures DistinctKeys(Set(m, k, v))
  {
    if k in Keys(m) {
      var i :| 0 <= i < |m| && m[i].0 == k;
      SetPresent(m, i, v);
    } else {
      SetAbsent(m, k, v);
    }
  }

  /** After `m.set(k, v)`, `get(k)` is `v` and every other key reads as before. */
  lemma {:induction false} GetSet<K, V>(m: seq<(K, V)>, k: K, v: V, k': K)
    ensures Get(Set(m, k, v), k') == if k' == k then Some(v) else Get(m, k')
  {
    if m != [] && m[0].0 != k {
      GetSet(m[1..], k, v, k');
    }
  }

  /** Deleting an absent key changes nothing. */
  lemma {:induction false} DeleteAbsent<K, V>(m: seq<(K, V)>, k: K)
    requires k !in Keys(m)
    ensures Delete(m, k) == m
  {
    if m != [] {
      assert Keys(m) == [m[0].0] + Keys(m[1..]);
      DeleteAbsent(m[1..], k);
    }
  }

  /** Deleting a present key removes exactly its entry; the others keep their order. */
  lemma {:induction false} DeletePresent<K, V>(m: seq<(K, V)>, i: nat)
    requires DistinctKeys(m) && i < |m|
    ensures Delete(m, m[i].0) == m[..i] + m[i + 1..]
    ensures Values(Delete(m, m[i].0)) == Values(m)[..i] + Values(m)[i + 1..]
  {
    DeleteAt(m, i);
    var u := m[..i] + m[i + 1..];
    assert forall j :: 0 <= j < |u| ==> Values(u)[j] == (Values(m)[..i] + Values(m)[i + 1..])[j];
  }

  lemma {:induction false} DeleteAt<K, V>(m: seq<(K, V)>, i: nat)
    requires DistinctKeys(m) && i < |m|
    ensures Delete(m, m[i].0) == m[..i] + m[i + 1..]
  {
    if i > 0 {
      DeleteAt(m[1..], i - 1);
      assert m[..i] + m[i + 1..] == [m[0]] + (m[1..][..i - 1] + m[1..][i..]);
    }
  }

  /** `Delete` keeps the keys distinct and removes the key. */
  lemma DeleteDistinct<K, V>(m: seq<(K, V)>, k: K)
    requires DistinctKeys(m)
    ensures DistinctKeys(Delete(m, k))
    ensures k !in Keys(Delete(m, k))
  {
    if k in Keys(m) {
      var i :| 0 <= i < |m| && m[i].0 == k;
      DeletePresent(m, i);
    } else {
      DeleteAbsent(m, k);
    }
  }

  /** After `m.delete(k)`, `get(k)` is `undefined` and every other key reads as before. */
  lemma {:induction false} GetDelete<K, V>(m: seq<(K, V)>, k: K, k': K)
    requires DistinctKeys(m)
    ensures Get(Delete(m, k), k') == if k' == k then None else Get(m, k')
  {
    if m != [] {
      if m[0].0 == k {
        assert Keys(m) == [m[0].0] + Keys(m[1..]);
        if k' == k {
          assert k !in Keys(m[1..]);
        }
      } else {
        GetDelete(m[1..], k, k');
      }
    }
  }

  /** Deleting the same key twice is the same as deleting it once. */
  lemma DeleteIdempotent<K, V>(m: seq<(K, V)>, k: K)
    requires DistinctKeys(m)
    ensures Delete(Delete(m, k), k) == Delete(m, k)
  {
    DeleteDistinct(m, k);
    DeleteAbsent(Delete(m, k), k);
  }
}
