/** Go values the plugins rely on: a nil-able error, a runtime panic, and the
    zero value that indexing a missing map key yields. */
module GoValues {

  datatype Option<+T> = None | Some(value: T)

  /** A Go `error` as the plugins use it: nil, or the text `err.Error()` returns. */
  type Error = Option<string>

  /** How a Go call ends: it returns a value, or the process panics
      (for the plugins: "index out of range [1] with length 1"). */
  datatype Exit<+T> = Returns(value: T) | Panics

  /** `m[k]` in Go: the stored value, or the zero value when `k` is absent
      (also for a nil map, which is the empty map here). */
  function Get<K, V>(m: map<K, V>, k: K, zero: V): (v: V)
    ensures k in m ==> v == m[k]
    ensures k !in m ==> v == zero
  {
    if k in m then m[k] else zero
  }
}
