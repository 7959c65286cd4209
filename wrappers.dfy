/** The error convention of the constraint compiler: every failure in the
    source is `throw new TypeError('')`, so a result either carries a value
    or records that a TypeError was thrown. */
module Wrappers {

  datatype Option<T> = None | Some(value: T)

  datatype Result<T> = Ok(value: T) | TypeError
}
