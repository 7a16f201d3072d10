/** Failure-carrying results shared by every module of the model. */
module Wrappers {

  /** The Python exceptions that the modelled code can raise. */
  datatype Error =
    | IndexError         // indexing a row or a batch that is too short
    | AssertionError     // a failed `assert`
    | ValueError         // `int()` applied to text that is not a decimal integer
    | FileNotFoundError  // `open()` of a path that does not exist
    | AttributeError     // `getattr` of a name the module does not define

  datatype Option<+T> = None | Some(value: T)

  datatype Result<+T> = Ok(value: T) | Err(error: Error)

  /** The outcome of a check that yields no value. */
  datatype Outcome = Pass | Fail(error: Error)
}
