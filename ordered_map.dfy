/**
 * A JavaScript `Map`: key/value pairs in insertion order. `set` on a present
 * key replaces the value where it stands; `set` on a new key appends; `delete`
 * removes the key and keeps the order of the rest.
 */
module OrderedMap {
  import opened Wrappers
  import opened Sequences

  type OMap<K, V> = seq<(K, V)>

  function Keys<K, V>(m: OMap<K, V>): seq<K> {
    seq(|m|, i requires 0 <= i < |m| => m[i].0)
  }

  /** The map invariant: no key appears twice. */
  predicate DistinctKeys<K(==), V>(m: OMap<K, V>) {
    forall i, j :: 0 <= i < j < |m| ==> m[i].0 != m[j].0
  }

  /** `m.get(k)` */
  function Get<K(==), V>(m: OMap<K, V>, k: K): (r: Option<V>)
    ensures r.None? <==> k !in Keys(m)
    ensures r.Some? ==> exists i :: 0 <= i < |m| && m[i] == (k, r.value)
    ensures DistinctKeys(m) ==> forall i :: 0 <= i < |m| && m[i].0 == k ==> r == Some(m[i].1)
    decreases |m|
  {
    if m == [] then None
    else
      assert Keys(m) == [m[0].0] + Keys(m[1..]);
      if m[0].0 == k then Some(m[0].1)
      else
        assert forall i :: 0 <= i < |m| - 1 ==> m[1..][i] == m[i + 1];
        Get(m[1..], k)
  }

  /** `m.set(k, v)` */
  function Set<K(==), V>(m: OMap<K, V>, k: K, v: V): OMap<K, V>
    decreases |m|
  {
    if m == [] then [(k, v)]
    else if m[0].0 == k then [(k, v)] + m[1..]
    else [m[0]] + Set(m[1..], k, v)
  }

  /** `set` keeps the key order: a present key stays where it is, a new key goes last. */
  lemma {:induction false} SetKeys<K, V>(m: OMap<K, V>, k: K, v: V)
    ensures Keys(Set(m, k, v)) == if k in Keys(m) then Keys(m) else Keys(m) + [k]
    decreases |m|
  {
    if m != [] {
      assert Keys(m) == [m[0].0] + Keys(m[1..]);
      if m[0].0 != k {
        SetKeys(m[1..], k, v);
        assert Keys(Set(m, k, v)) == [m[0].0] + Keys(Set(m[1..], k, v));
      } else {
        assert Keys(Set(m, k, v)) == Keys(m);
      }
    }
  }

  /** After `set`, `get(k)` gives the new value and every other key reads as before. */
  lemma {:induction false} SetGet<K, V>(m: OMap<K, V>, k: K, v: V, x: K)
    ensures Get(Set(m, k, v), x) == if x == k then Some(v) else Get(m, x)
    decreases |m|
  {
    if m != [] && m[0].0 != k {
      SetGet(m[1..], k, v, x);
      assert Set(m, k, v)[1..] == Set(m[1..], k, v);
    } else if m != [] {
      assert Set(m, k, v)[1..] == m[1..];
    }
  }

  /** `set` never makes a key appear twice. */
  lemma {:induction false} SetDistinct<K, V>(m: OMap<K, V>, k: K, v: V)
    requires DistinctKeys(m)
    ensures DistinctKeys(Set(m, k, v))
  {
    SetKeys(m, k, v);
    var r := Set(m, k, v);
    forall i, j | 0 <= i < j < |r| ensures r[i].0 != r[j].0 {
      assert r[i].0 == Keys(r)[i] && r[j].0 == Keys(r)[j];
      assert |Keys(m)| == |m|;
      if j < |m| {
        assert Keys(m)[i] == m[i].0 && Keys(m)[j] == m[j].0;
      }
    }
  }

  /** `m.delete(k)` */
  function Delete<K(==,!new), V(==)>(m: OMap<K, V>, k: K): (r: OMap<K, V>)
    ensures k !in Keys(r)
    ensures forall x :: x != k ==> Get(r, x) == Get(m, x)
    ensures Subsequence(r, m)
    ensures DistinctKeys(m) ==> DistinctKeys(r)
    ensures k !in Keys(m) ==> r == m
    ensures DistinctKeys(m) && k in Keys(m) ==> |r| == |m| - 1
    decreases |m|
  {
    if m == [] then []
    else
      var rest := Delete(m[1..], k);
      assert Keys(m) == [m[0].0] + Keys(m[1..]);
      if m[0].0 == k then
        SubsequenceWeaken(rest, m[1..], m[0]);
        assert [m[0]] + m[1..] == m;
        rest
      else
        var r := [m[0]] + rest;
        assert Keys(r) == [m[0].0] + Keys(rest);
        assert r[1..] == rest;
        SubsequenceMembers(rest, m[1..]);
        assert forall j :: 0 <= j < |rest| ==> rest[j] in m[1..];
        assert DistinctKeys(m) ==> forall j :: 0 <= j < |rest| ==> rest[j].0 != m[0].0;
        r
  }
}
