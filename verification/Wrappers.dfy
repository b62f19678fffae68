/** Values that may be missing and operations that may fail. */
module Wrappers {
  datatype Option<+T> = None | Some(value: T)

  // The program's (value, error) pairs; which error was met is not observed.
  datatype Result<+T> = Ok(value: T) | Failed
}
