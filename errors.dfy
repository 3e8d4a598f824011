/** Outcomes shared by the modules of the model.

    The service raises Python exceptions on malformed input instead of
    returning error values; the model makes each raised exception an `Err`
    carrying the exception's class and the field or key that caused it. */
module Errors {

  datatype Option<+T> = None | Some(value: T)

  /** The two exceptions the core can raise. */
  datatype Error =
    | TypeError(field: string)   // `str + None` during string concatenation
    | KeyError(key: string)      // a missing key in an annotation dictionary

  datatype Result<+T> = Ok(value: T) | Err(error: Error)
}
