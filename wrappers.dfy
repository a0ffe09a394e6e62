/** The optional value that stands for a C# reference that may be null,
    or for a lookup that may find nothing. */
module Wrappers {

  datatype Option<+T> = None | Some(value: T)
}
