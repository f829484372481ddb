/** The optional value used wherever the dialog's .NET code may hold `null`. */
module Wrappers {
  datatype Option<+T> = None | Some(value: T)
}
