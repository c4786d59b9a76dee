/** The Go convention of returning a value together with an `error`. */
module Results {

  datatype Option<+T> = None | Some(value: T)

  /** Either a value or the text of a Go `error` (its `Error()` string). */
  datatype Result<+T> = Success(value: T) | Failure(error: string)

  /** A Go "uint64" value. */
  type uint64 = x: nat | x < 0x1_0000_0000_0000_0000
}
