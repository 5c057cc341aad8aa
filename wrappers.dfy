/** The optional-value type used throughout the model for nullable columns and for lookups that may miss. */
module Wrappers {

  /** A value that may be absent: `undefined` or `null` in the application's JavaScript. */
  datatype Option<+T> = None | Some(value: T)
}
