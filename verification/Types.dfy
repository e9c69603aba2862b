/** Shared vocabulary. */
module Types {
  datatype Option<T> = None | Some(value: T)

  datatype Result<T, E> = Ok(value: T) | Err(error: E)

  /** Threads are numbered; a system of n threads uses 0 .. n-1. */
  type Tid = nat

  newtype byte = b: int | 0 <= b < 256

  /** A serialised JSON document, or None for "no external data". */
  type Document = Option<seq<byte>>
}
