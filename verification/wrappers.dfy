/** Optional values (Kotlin's nullable types) and results (a value or the
    exception that ended the computation). Both work with `:-`. */
module Wrappers {

  /** A Kotlin `T?`: `None` is `null`. */
  datatype Option<+T> = None | Some(value: T) {
    predicate IsFailure() { None? }

    function PropagateFailure<U>(): Option<U>
      requires None?
    {
      None
    }

    function Extract(): T
      requires Some?
    {
      value
    }

    /** Turns `null` into the given error, like a `!!` that throws `e`. */
    function OrFail<E>(e: E): (r: Result<T, E>)
      ensures r.Ok? <==> Some?
      ensures r.Ok? ==> r.value == value
      ensures r.Err? ==> r.error == e
    {
      match this
      case Some(v) => Ok(v)
      case None => Err(e)
    }
  }

  /** The outcome of a computation that may throw: a value or the error. */
  datatype Result<+T, +E> = Ok(value: T) | Err(error: E) {
    predicate IsFailure() { Err? }

    function PropagateFailure<U>(): Result<U, E>
      requires Err?
    {
      Err(error)
    }

    function Extract(): T
      requires Ok?
    {
      value
    }

    /** Rewraps the error, like `catch (e) { throw Throwable(msg, e) }`. */
    function MapError<F>(wrap: E -> F): (r: Result<T, F>)
      ensures r.Ok? <==> Ok?
      ensures r.Ok? ==> r.value == value
      ensures r.Err? ==> r.error == wrap(error)
    {
      match this
      case Ok(v) => Ok(v)
      case Err(e) => Err(wrap(e))
    }
  }
}
