/** The absent-or-present and succeeded-or-threw shapes the two hooks share. */
module Base {

  /** A value that may be missing: a TypeScript `T | null`, or an optional property left out. */
  datatype Option<T> = None | Some(value: T)

  /** A call that can throw: what it produced, or the message of the `Error` it threw. */
  datatype Result<T> = Success(value: T) | Failure(error: string)
}
