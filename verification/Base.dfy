/** Shared types: results with the error codes of the library, bytes as numbers and bytes
    as bit vectors. */
module Base {

  datatype Result<+T> = Ok(value: T) | Err(code: int)

  datatype Option<+T> = None | Some(value: T)

  const EINVAL: int := -22
  const ENOMEM: int := -12
  const ENOSPC: int := -28

  type byte = x: int | 0 <= x < 256

  type octet = bv8

  /** Pieces joined in order. */
  function Concat<T>(parts: seq<seq<T>>): seq<T> {
    if parts == [] then [] else Concat(parts[..|parts| - 1]) + parts[|parts| - 1]
  }
}
