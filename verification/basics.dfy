/** Small value types shared by every part of the model. */
module Basics {

  /** A value that may be absent: Python's `None` or a present value. */
  datatype Option<T> = None | Some(value: T)

  /** The `{'success': ..., 'message': ...}` dictionaries the data-access layer
      returns: `Pass` is `success = True`, `Fail` carries the text shown to the user. */
  datatype Outcome = Pass | Fail(message: string)

  /** A read that never raises: on a backend error it yields an empty result
      together with the warning the page shows. */
  datatype Read<T> = Read(rows: T, warning: Option<string>)

  /** A value fetched from a backend that may raise instead. */
  datatype Fetch<T> = Fetched(value: T) | Raised(message: string)

  function Min(a: nat, b: nat): (m: nat)
    ensures m <= a && m <= b
    ensures m == a || m == b
  {
    if a <= b then a else b
  }
}
