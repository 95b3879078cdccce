/** The usual optional-value datatype; `None` stands for Java's `null` or for an
    operation that throws instead of returning a value. */
module Wrappers {

  datatype Option<+T> = None | Some(value: T)
}
