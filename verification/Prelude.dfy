/** Small wrappers shared by every model. */
module Prelude {

  datatype Option<+T> = None | Some(value: T)

  datatype Result<+T, +E> = Ok(value: T) | Err(error: E)

  /** A pixel size. The source's `(u32, u32)` pair; no arithmetic on it can leave `u32` here. */
  datatype Size = Size(width: nat, height: nat)

  ghost predicate NoDuplicates<T(!new)>(s: seq<T>) {
    forall i, j :: 0 <= i < j < |s| ==> s[i] != s[j]
  }
}
