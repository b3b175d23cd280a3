/** Failure-carrying values used across the model. */
module Wrappers {

  /** A value that may be absent: JavaScript's `undefined`/`null` or a missing map entry. */
  datatype Option<+T> = None | Some(value: T) {

    /** The wrapped value, or `default` when absent (JavaScript's `??`). */
    function GetOr(default: T): T {
      match this
      case Some(v) => v
      case None => default
    }
  }

  /** Either a result or the error the source throws or returns. */
  datatype Result<+T, +E> = Ok(value: T) | Err(error: E)

  /** `m.get(k)` on a JavaScript Map. */
  function Get<K, V>(m: map<K, V>, k: K): Option<V> {
    if k in m then Some(m[k]) else None
  }

  /** No element occurs twice. */
  predicate NoDup<T(==)>(s: seq<T>) {
    forall i, j :: 0 <= i < j < |s| ==> s[i] != s[j]
  }
}
