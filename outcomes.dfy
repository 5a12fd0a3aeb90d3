/** Option and Result types for the pipeline; `Err` carries the kind of
    exception pandas or Python would raise at that step. */
module Outcomes {

  datatype Option<+T> = None | Some(value: T)

  /** The exceptions the modelled scripts can raise. */
  datatype Error =
    | MissingColumn     // KeyError: a named column is not in the frame
    | LengthMismatch    // ValueError: new column labels of the wrong length
    | TypeMismatch      // TypeError: comparing or combining cells of different kinds
    | BadScore          // ValueError/IndexError/TypeError from int(x[0]) or int(x[-1])

  datatype Result<+T> = Ok(value: T) | Err(error: Error) {

    predicate IsFailure() {
      Err?
    }

    function PropagateFailure<U>(): Result<U>
      requires Err?
    {
      Err(error)
    }

    function Extract(): T
      requires Ok?
    {
      value
    }
  }
}
