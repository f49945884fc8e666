/** Small datatypes shared by the modules of this project. */
module Wrappers {

  /** A value that may be missing, such as a key absent from a JSON object. */
  datatype Option<+T> = None | Some(value: T)

  /** What a Python call that may raise produces: its return value, or the
      message of the exception it raised. */
  datatype Outcome<+T> = Returned(value: T) | Raised(message: string)
}
