/** Failure-aware wrappers shared by the whole model.
    - Option<T> stands for a JavaScript value that may be `undefined` (or `NaN`
      for a number that did not parse).
    - Result<T> stands for a promise that either resolves with a value or
      rejects with an error description.
 */
module Wrappers {

  datatype Option<+T> = None | Some(value: T)

  datatype Result<+T> = Success(value: T) | Failure(error: string)
}
