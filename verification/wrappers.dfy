/** The optional-value type used for the hook's nullable refs and the app's nullable result. */
module Wrappers {

  /** `None` stands for the source's `null`. */
  datatype Option<+T> = None | Some(value: T)
}
