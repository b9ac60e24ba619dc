/** Stock option and result types, and the histories every protocol here runs over. */
module Wrappers {
  datatype Option<+T> = None | Some(value: T)

  datatype Result<+T, +E> = Ok(value: T) | Err(error: E)

  /** A finite history of events, oldest first. */
  datatype Trace<+T> = Start | Then(before: Trace<T>, event: T)

  function Join<T>(xs: Trace<T>, ys: Trace<T>): Trace<T> {
    match ys
    case Start => xs
    case Then(before, event) => Then(Join(xs, before), event)
  }
}
