/** The optional-value datatype the model uses wherever the program returns
    `undefined` or `null` (an `Array.find` that finds nothing, a signed-out
    user, an absent storage key). */
module Wrappers {

  datatype Option<+T> = None | Some(value: T)
}
