/** Failure-carrying values shared by the chart compiler and the scorer. */
module Wrappers {

  /** A value that may be absent: the model of a C# `null` result or a failed `TryParse`. */
  datatype Option<+T> = None | Some(value: T)
}
