/** Failure-compatible result types shared by every stage of the pipeline. */
module Wrappers {

  datatype Option<+T> = None | Some(value: T)

  /** The outcome of a stage: a value, or the error the source would throw. */
  datatype Result<+T, +E> = Ok(value: T) | Err(error: E) {

    predicate IsFailure() {
      Err?
    }

    function PropagateFailure<U>(): Result<U, E>
      requires Err?
    {
      Err(error)
    }

    function Extract(): T
      requires Ok?
    {
      value
    }
  }

  /** A successful list result with `x` put in front; an error passes through. */
  function Prepend<T, E>(x: T, r: Result<seq<T>, E>): Result<seq<T>, E> {
    match r
    case Ok(xs) => Ok([x] + xs)
    case Err(e) => Err(e)
  }

  /** A successful list result with `prefix` put in front; an error passes through. */
  function ExtendBy<T, E>(prefix: seq<T>, r: Result<seq<T>, E>): Result<seq<T>, E> {
    match r
    case Ok(xs) => Ok(prefix + xs)
    case Err(e) => Err(e)
  }

  /** Putting `x` in front and then `prefix` is putting `prefix + [x]` in front. */
  lemma ExtendByPrepend<T, E>(prefix: seq<T>, x: T, r: Result<seq<T>, E>)
    ensures ExtendBy(prefix, Prepend(x, r)) == ExtendBy(prefix + [x], r)
  {
    if r.Ok? {
      assert prefix + ([x] + r.value) == (prefix + [x]) + r.value;
    }
  }
}
