/** Datatypes shared by the model: `Option` stands for a JavaScript value
    that may be `undefined`/`NaN`, `Result` for a computation that may
    throw. */
module Wrappers {

  datatype Option<+T> = None | Some(value: T)

  datatype Result<+T, +E> = Success(value: T) | Failure(error: E)

  /** The only exception the modelled code can raise: a property read or a
      method call on `undefined`, `null` or a value of the wrong type. */
  datatype JsError = TypeError
}
