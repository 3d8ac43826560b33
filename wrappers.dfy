/** The optional value used wherever the C# code returns or accepts `null`. */
module Wrappers {

  datatype Option<+T> = None | Some(value: T)

}
