/** Failure-carrying results shared by the three pipeline stages.

    None of the scripts catches an exception: every failure aborts the run.
    The model turns each such abort into an `Err` that says which failure it
    was (the comment beside each names the Python exception behind it, where
    there is one), so that callers see the error path instead of a
    precondition that hides it.
 */
module Outcomes {

  /** An optional value, used where a lookup may find nothing. */
  datatype Option<+T> = None | Some(value: T)

  /** The ways a stage can abort. */
  datatype Error =
    | TooFewTokens(count: nat)      // IndexError: the file stem has fewer than three `_` pieces
    | NotAnInteger(token: string)   // ValueError: `int()` rejected the exposure token
    | MissingKeyword(key: string)   // KeyError: the header has no card with this keyword
    | ShapeMismatch                 // ValueError: image and dark frame differ in shape
    | EmptyArgmin                   // ValueError: argmin over a spectrum with no pixels
    | UnprintableValue(key: string) // ValueError: a string card value holds a character outside printable ASCII
    | PlotFailed(title: string)     // ValueError: the plotting library cannot draw this title
    | ZeroExposure                  // no exception: numpy divides by a zero exposure time into inf or nan

  /** The outcome of a stage: a value, or the error that aborted it. */
  datatype Result<+T> = Ok(value: T) | Err(error: Error) {

    predicate IsFailure() {
      Err?
    }

    function PropagateFailure<U>(): Result<U>
      requires Err?
    {
      Err(error)
    }

    function Extract(): T
      requires Ok?
    {
      value
    }
  }
}
