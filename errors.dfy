/** Error kinds of muFlow and the failure-compatible wrappers the model uses
    in place of Python exceptions. Messages are not modelled, only the kind
    of error and the item or parameter it names. */
module Errors {

  /** Why a parameter specification was rejected by validateParams. */
  datatype BadParamWhy =
    | IncorrectFormat        // tuple length not 2 or 3
    | MissesDefault          // a 2-tuple after a 3-tuple
    | OverridesMember        // the name is a reserved BaseProcessor member
    | NotCallable            // the decoder is not callable on a string
    | BadDefault             // the default value does not decode

  /** Why an IO specification was rejected. */
  datatype IOSpecWhy = UnbalancedBrackets | InputLengthMismatch | OutputLengthMismatch

  /** The exception classes of the system, one constructor each. `Runtime`
      stands for an uncaught Python error (IndexError, ValueError, KeyError,
      TypeError) that aborts the run. */
  datatype Error =
    | BadParam(param: string, why: BadParamWhy)
    | ArgsList(tooMany: bool)
    | ParseArgs(param: string)
    | ParseIOSpec(ioWhy: IOSpecWhy)
    | Construct(item: string)
    | BadLine(line: nat)     // unbalanced brackets on a line of a flow text
    | User
    | Runtime

  datatype Option<+T> = None | Some(value: T)

  datatype Result<+T> = Ok(value: T) | Err(error: Error) {
    predicate IsFailure() { Err? }
    function PropagateFailure<U>(): Result<U> requires Err? { Err(error) }
    function Extract(): T requires Ok? { value }
  }

  datatype Outcome = Pass | Fail(error: Error) {
    predicate IsFailure() { Fail? }
    function PropagateFailure<U>(): Result<U> requires Fail? { Err(error) }
  }
}
