/** Option and Result values used for the source's None returns and raised errors. */
module Wrappers {
  datatype Option<T> = None | Some(value: T)

  /** The exceptions the library raises, and the Python built-in ones its code runs
      into, by class name. */
  datatype Error =
    | MissingParameterError(msg: string)
    | UnsupportedInputError(msg: string)
    | ZeroVectorError(msg: string)
    | OutOfRangeError(msg: string)
    | ValueError(msg: string)
    | TypeError(msg: string)
    | AttributeError(msg: string)
    | ZeroDivisionError
    | KeyError
    | IndexError

  datatype Result<T> = Ok(value: T) | Err(error: Error)
}
