/** The outcome of a generation or default computation: a value, or the
    exception the Python code would raise at that point. */
module Results {

  /** The exceptions the modelled code can raise. */
  datatype Error =
    | Unsupported      // `assert False, "not implemented yet"`: no dispatch branch matched
    | IndexError       // `elements[0]` or `classes[0]` on an empty list
    | TypeError        // `None @ bv` or `len(None)` in the segment loops
    | AttributeError   // `typ.width` looked up on an int
    | InvalidArgument  // Hypothesis refuses an empty integer range or an empty sample
    | Overrun          // the choice sequence behind `draw` is exhausted

  /** Failure-compatible, so that `:-` propagates the first exception. */
  datatype Result<+T> = Ok(value: T) | Err(error: Error) {
    predicate IsFailure() {
      Err?
    }

    function PropagateFailure<U>(): Result<U>
      requires Err?
    {
      Err(error)
    }

    function Extract(): T
      requires Ok?
    {
      value
    }
  }

  datatype Option<+T> = None | Some(value: T)
}
