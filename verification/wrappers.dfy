/** Failure-carrying wrappers shared by every module of the model.

    `Option` stands for Python's `X | None`; `Result` stands for a call that
    either returns a value or raises one of the exceptions in `PyError`.
 */
module Wrappers {

  datatype Option<+T> = None | Some(value: T) {
    function GetOr(default: T): T {
      match this
      case Some(v) => v
      case None => default
    }
  }

  /** The exceptions a modelled call can raise.  The medkit-specific ones
      mirror the hierarchy of medkit/exceptions.py; the Python built-ins
      are the ones the modelled code can trip over on malformed input. */
  datatype PyError =
    | PluginError(message: string)
    | ApiError(message: string)
    | RateLimitError(message: string)
    | NotFoundError(message: string)
    | ValueError(message: string)       // a configuration value refused
    | ValidationError        // pydantic rejected a record's fields
    | TypeError              // an operation on a value of the wrong type
    | AttributeError         // `.get` or `.upper` on something that has none
    | IndexError             // `[0]` of an empty list or string
    | KeyError               // `[0]` of a dict
    | TransportError(kind: TransportKind)  // an httpx error passed through
    | OtherError(name: string)             // any other exception, untouched

  /** The httpx errors the client and the providers distinguish. */
  datatype TransportKind = ConnectFailure | Timeout | HttpStatus(code: int) | OtherTransport

  datatype Result<+R> = Ok(value: R) | Err(error: PyError) {
    predicate IsFailure() { Err? }

    function PropagateFailure<U>(): Result<U>
      requires Err?
    {
      Err(error)
    }

    function Extract(): R
      requires Ok?
    {
      value
    }
  }
}
