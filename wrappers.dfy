/** Failure-carrying results shared by every module of the model. */
module Wrappers {

  datatype Option<+T> = None | Some(value: T)

  /** The Python exceptions the modelled code lets escape. */
  datatype PyError =
    | KeyError          // a missing dictionary key or data-frame column
    | IndexError        // list index out of range, or too many indices for a 1-D array
    | ValueError        // an argument rejected by the code itself
    | AssertionError    // a failed `assert`
    | ZeroDivisionError // integer division by zero
    | RuntimeError      // raised by the audio reader

  /** Either the value a Python call returns or the exception it raises. */
  datatype Result<+T> = Ok(value: T) | Err(error: PyError)
}
