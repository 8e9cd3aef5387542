/** The optional-value type used wherever the Java code returns null or throws
    a parse exception that the caller turns into "no value". */
module Wrappers {

  datatype Option<+T> = None | Some(value: T)
}
