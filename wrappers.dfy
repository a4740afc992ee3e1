/** Option and Result, used for values the scripts may find absent (`undefined`)
    and for steps that either continue or stop the run. */
module Wrappers {

  datatype Option<+T> = None | Some(value: T)

  datatype Result<+R, +E> = Success(value: R) | Failure(error: E)
}
