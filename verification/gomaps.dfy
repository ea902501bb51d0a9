/** Go maps that may be nil, as `Option<map<K, V>>` (None is nil): writing
    to a nil map first replaces it by an empty one, deleting from a nil map
    does nothing, and reading a missing key gives the zero value. */
module GoMaps {
  import opened Wrappers

  /** `if m == nil { m = make(...) }; m[k] = v` */
  function Put<K(!new), V>(m: Option<map<K, V>>, k: K, v: V): (r: Option<map<K, V>>)
    ensures r.Some? && k in r.value && r.value[k] == v
    ensures forall j :: j != k ==> (j in r.value <==> m.Some? && j in m.value)
    ensures forall j :: j != k && j in r.value ==> r.value[j] == m.value[j]
  {
    Some(m.GetOr(map[])[k := v])
  }

  /** `if m != nil { delete(m, k) }` */
  function Delete<K(!new), V>(m: Option<map<K, V>>, k: K): (r: Option<map<K, V>>)
    ensures r.None? <==> m.None?
    ensures r.Some? ==> k !in r.value
    ensures r.Some? ==> forall j :: j != k ==> (j in r.value <==> j in m.value)
    ensures r.Some? ==> forall j :: j != k && j in r.value ==> r.value[j] == m.value[j]
  {
    if m.None? then None else Some(m.value - {k})
  }

  /** `m[k]`: the zero value `zero` when m is nil or lacks k. */
  function Get<K, V>(m: Option<map<K, V>>, k: K, zero: V): V {
    if m.Some? && k in m.value then m.value[k] else zero
  }

  /** Reading a key back after writing it. */
  lemma GetPut<K(!new), V>(m: Option<map<K, V>>, k: K, v: V, j: K, zero: V)
    ensures Get(Put(m, k, v), j, zero) == if j == k then v else Get(m, j, zero)
  {
  }

  /** Deleting a key that is not there changes nothing, nil included. */
  lemma DeleteAbsent<K(!new), V>(m: Option<map<K, V>>, k: K)
    requires m.None? || k !in m.value
    ensures Delete(m, k) == m
  {
    if m.Some? {
      assert m.value - {k} == m.value;
    }
  }

  /** Deleting after writing leaves the key absent and the others as they
      were. */
  lemma DeletePut<K(!new), V>(m: Option<map<K, V>>, k: K, v: V, zero: V)
    ensures Delete(Put(m, k, v), k).Some?
    ensures k !in Delete(Put(m, k, v), k).value
    ensures forall j :: j != k ==> Get(Delete(Put(m, k, v), k), j, zero) == Get(m, j, zero)
  {
  }
}
