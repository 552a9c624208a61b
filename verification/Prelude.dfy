/** Small datatypes shared by every module. */
module Prelude {

  datatype Option<+T> = None | Some(value: T)

  /** A normal return, or the exception the Python code raises. */
  datatype Result<+T> = Ok(value: T) | Err(reason: string)
}
