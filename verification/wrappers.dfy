/** Option and Result, with the hooks that let `:-` propagate a failure inside a function. */
module Wrappers {

  datatype Option<+T> = None | Some(value: T)

  datatype Result<+T, +E> = Success(value: T) | Failure(error: E) {

    predicate IsFailure() {
      Failure?
    }

    function PropagateFailure<U>(): Result<U, E>
      requires Failure?
    {
      Failure(error)
    }

    function Extract(): T
      requires Success?
    {
      value
    }

    /** The value of a success; `None` for a failure, whatever its error. */
    function ToOption(): (o: Option<T>)
      ensures o.Some? <==> Success?
      ensures o.Some? ==> o.value == value
    {
      if Success? then Some(value) else None
    }
  }
}
