/** Option and Result values, and the Python exceptions the modelled scripts raise or catch. */
module Wrappers {

  datatype Option<T> = None | Some(value: T)

  /** The exceptions of the scripts that reach the model, by Python class name. */
  datatype Exc =
    | ValueError(msg: string)
    | IndexError
    | TypeError
    | KeyError(key: string)
    | AttributeError
    | FileNotFoundError(msg: string)
    | UnboundLocalError(name: string)
    | S3Error
    | OtherError

  /** The value of a Python call: what it returned or the exception it raised. */
  datatype Result<T> = Ok(value: T) | Err(exc: Exc)

  /** The outcome of a Python call whose return value is not used. */
  datatype Outcome = Pass | Fail(exc: Exc)
}
