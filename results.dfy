/** Python exceptions raised by the sampling engine, and a result type that
    carries either a value or the exception that the source would raise. */
module Results {

  /** The exception kinds the modelled code can raise. */
  datatype Error =
    | KeyError        // a dict lookup of a missing key
    | IndexError      // indexing past the end (numpy or list)
    | ValueError      // numpy rejecting an argument (probabilities, empty choice, scale)
    | AttributeError  // looking up a name that a module does not have

  datatype Result<+T> = Ok(value: T) | Err(error: Error)
}
