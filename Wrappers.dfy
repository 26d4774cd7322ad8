/** The absence-or-value type that stands for C#'s nullable references (`string?`, `byte[]?`). */
module Wrappers {
  datatype Option<+T> = None | Some(value: T)
}
