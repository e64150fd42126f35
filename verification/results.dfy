/** Failure kinds raised by the analyzers, and the small wrappers that carry them.
    Every `raise` of the analyzers (and every exception Python itself raises on
    their behalf, such as a division by zero) becomes one constructor of `Error`. */
module Results {

  /** One constructor per failure; the comment names the Python exception class. */
  datatype Error =
    | EmptyData             // ValueError: a sample with no observations
    | NonNumericData        // TypeError: an observation that float() rejects
    | SizeMismatch          // ValueError: x and y of different lengths
    | PercentileOutOfRange  // ValueError: p outside [0, 100]
    | ZeroStdDev            // ValueError: correlation with a variable of zero deviation
    | ZeroMean              // ValueError: coefficient of variation of data whose mean is 0
    | ZeroXVariance         // ValueError: regression on an x without variance
    | DivisionByZero        // ZeroDivisionError: a sample (n - 1) statistic of one observation
    | IndexOutOfRange       // IndexError: a read past the end of the sorted data
  {
    /** Whether an `except ValueError` clause catches this failure. */
    predicate IsValueError() {
      EmptyData? || SizeMismatch? || PercentileOutOfRange? || ZeroStdDev? || ZeroMean? || ZeroXVariance?
    }
  }

  /** The outcome of an operation that returns a value or raises. */
  datatype Result<+T> = Ok(value: T) | Err(error: Error)

  /** The outcome of a check that returns nothing or raises. */
  datatype Outcome = Pass | Fail(error: Error)

  /** An optional value, for state that is computed on first use. */
  datatype Option<+T> = None | Some(value: T)
}
