/** Python's `None` and raised exceptions, as values. */
module Results {

  datatype Option<T> = None | Some(value: T)

  /** A call that either returns a value or raises. */
  datatype Result<T> = Ok(value: T) | Err(error: Failure)

  /** The exceptions the modelled code can raise. */
  datatype Failure =
    | KeyError(key: string)  // `d[k] += 1` on a key `d` does not hold
    | ValueError             // `a, b = s.split('\t', 1)` on a string without a tab
    | DecodeError            // `json.loads` on text that is not a postings list
}
