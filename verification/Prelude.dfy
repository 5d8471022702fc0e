/** Types that every module of the model shares. */
module Prelude {

  datatype Option<+T> = None | Some(value: T)

  /** The source's `Result`: a value, or the error that stopped the operation. */
  datatype Result<+T, +E> = Ok(value: T) | Err(error: E)

  type Bytes = seq<bv8>

  function Find<K, V>(m: map<K, V>, k: K): Option<V> { if k in m then Some(m[k]) else None }
}
