// Absent values and thrown errors.
module Outcomes {
  datatype Option<+T> = None | Some(value: T)
  datatype Result<+T> = Ok(value: T) | Throws
}
