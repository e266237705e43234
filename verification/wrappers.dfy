/** Optional values and results used across the model: an optional value
    (JavaScript's `null`/object references) and a success-or-error result
    (the form's `alert` paths become `Err`). */
module Wrappers {

  /** An optional value; `None` stands for a `null` reference. */
  datatype Option<+T> = None | Some(value: T)

  /** Either a successful value or an error value. */
  datatype Result<+T, +E> = Ok(value: T) | Err(error: E)
}
