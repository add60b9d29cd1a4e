/** Value wrappers for the optional and nullable fields of the TypeScript records. */
module Wrappers {

  /** A value that may be absent: an optional property (`x?: T`) or a `T | null`. */
  datatype Option<+T> = None | Some(value: T)

  /**
   * An optional property that may also hold `null` (`x?: T | null`):
   * `Undefined` is the property left unset, `Null` the explicit `null`.
   */
  datatype Nullable<+T> = Undefined | Null | Value(value: T)
}
