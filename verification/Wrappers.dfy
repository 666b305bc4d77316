/** The optional value the tables use for nullable columns and absent rows. */
module Wrappers {
  datatype Option<+T> = None | Some(value: T)

  /** The row stored under a key, if there is one. */
  function Get<K, V>(m: map<K, V>, k: K): Option<V> {
    if k in m then Some(m[k]) else None
  }
}
