/** Optional values and results with an error, used for the NaN markers of
    the fare transformation and for the exceptions it raises. */
module Wrappers {

  /** `None` stands for a NaN slot of an output vector. */
  datatype Option<+T> = None | Some(value: T)

  /** `Err` stands for an exception raised out of the call. */
  datatype Result<+T, +E> = Ok(value: T) | Err(error: E)
}

/** The exceptions the fare transformation and its optimizer wrapper raise. */
module Errors {

  datatype Error =
    | UnsupportedFareStructure(name: string)  // ValueError for a fare structure other than 'undifferentiated'
    | InvalidFareOrder                        // raised by check_fares_decreasing
    | IndexError                              // index 0 of an empty vector
    | ShapeMismatch                           // the optimizer returned the wrong number of levels
}
