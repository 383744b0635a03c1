/** Java's nullable references, made explicit. */
module Wrappers {

  datatype Option<+T> = None | Some(value: T)

  /** The value stored under `k`, or `None` where `m` has no entry (a `Map.get` that may return null). */
  function Lookup<K, T>(m: map<K, T>, k: K): (r: Option<T>)
    ensures r.Some? <==> k in m
    ensures r.Some? ==> r.value == m[k]
  {
    if k in m then Some(m[k]) else None
  }
}
