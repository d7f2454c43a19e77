module Wrappers {
  /** A value that may be absent: TypeScript's `T | null`. */
  datatype Option<+T> = None | Some(value: T)
}
