/** Datatypes shared by every component: identifiers, optional values and service errors. */
module Common {

  /** UUIDs are compared for equality only; a fresh UUID is one that was not used before. */
  type Uuid = nat

  datatype Option<+T> = None | Some(value: T)

  /**
   The exceptions a service raises; any of them rolls the transaction back. `Integrity` is a
   constraint violation that the service does not translate.
   */
  datatype Error = NotFound | Validation | Conflict | Unauthorized | Forbidden | Integrity

  datatype Result<+T> = Ok(value: T) | Err(error: Error)

  function Min(a: int, b: int): int {
    if a <= b then a else b
  }

  function Max(a: int, b: int): int {
    if a >= b then a else b
  }
}
