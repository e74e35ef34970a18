/** The optional-value type used throughout the model: JavaScript's
    `null`/`undefined` and a failed `JSON.parse` are `None`. */
module Wrappers {

  datatype Option<+T> = None | Some(value: T)
}
