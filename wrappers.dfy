/** Option and Result, the two failure-compatible wrappers the model uses for
    JavaScript's `undefined` and for thrown errors. */
module Wrappers {

  /** `None` stands for a property that is absent, `undefined` or `null`. */
  datatype Option<+T> = None | Some(value: T) {

    /** Cesium's `defaultValue(this, d)`. */
    function GetOr(d: T): T {
      match this
      case Some(v) => v
      case None => d
    }
  }

  /** `Err` stands for an exception thrown by the source. */
  datatype Result<+T, +E> = Ok(value: T) | Err(error: E) {

    predicate IsFailure() {
      Err?
    }

    function PropagateFailure<U>(): Result<U, E>
      requires Err?
    {
      Err(error)
    }

    function Extract(): T
      requires Ok?
    {
      value
    }
  }
}
