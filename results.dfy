/** Failure-compatible wrappers shared by every module: the Python exceptions the
    core can raise become `Err` values instead of preconditions. */
module Results {

  /** The exceptions the modelled code can raise. */
  datatype Error =
    | IndexError      // an index outside the array (numpy IndexError)
    | BroadcastError  // operands whose shapes numpy cannot broadcast (ValueError)
    | WrongRank       // `at`/`diap` called on an array of unsupported rank (RuntimeError)
    | ZeroDivision    // division of Python floats by zero (ZeroDivisionError)
    | NonFinite       // a numpy float64 divided by zero: numpy yields inf or nan instead of raising

  datatype Result<+T> = Ok(value: T) | Err(error: Error) {
    predicate IsFailure() { Err? }

    function PropagateFailure<U>(): Result<U>
      requires Err?
    {
      Err(error)
    }

    function Extract(): T
      requires Ok?
    {
      value
    }
  }

  datatype Option<+T> = None | Some(value: T)
}
