/** Small failure-carrying datatypes shared by the other modules. */
module Common {

  /** A value that may be missing, used where the program tests for a missing
      key or a missing attribute. */
  datatype Option<+T> = None | Some(value: T)

  /** The outcome of a computation that either yields a value or raises an
      exception that nothing in the program catches. */
  datatype Result<+T> = Ok(value: T) | Err(reason: string)

  /** The smaller of two integers. */
  function Min(a: int, b: int): (m: int)
    ensures m <= a && m <= b && (m == a || m == b)
  {
    if a <= b then a else b
  }
}
