/** The interpreter's two tiers of failure, and the result wrappers. */
module Errors {

  /** `runtimeError` carries a human-readable reason (its stack trace is
      an empty stub in the source). A Go `panic` becomes `InternalFault`,
      which aborts the run. `OutOfFuel` is the model's own outcome for an
      evaluation deeper than the fuel it was given. */
  datatype Error =
    | RuntimeError(reason: string)
    | InternalFault(reason: string)
    | OutOfFuel

  datatype Option<+T> = None | Some(value: T)

  datatype Result<+T> = Ok(value: T) | Err(error: Error)

  /** The reason `scope.get` and `scope.update` report for a missing name. */
  function Undefined(name: string): (r: Error)
  {
    RuntimeError(name + " is undefined")
  }
}
