/** The C# source uses null for "absent"; the model uses Option where the
    absent value is not a reference. */
module Wrappers {

  datatype Option<+T> = None | Some(value: T)
}
