/**
  Failure-compatible result types used by every parser and order decision.

  The trading bot signals failure by raising Python exceptions; the model
  returns them as values. `PyError` names the exception class that the
  source would raise at that point, so that error paths can be compared
  with the source's evaluation order.
 */
module Wrappers {

  /** A possibly missing value (Python's `None` versus a value). */
  datatype Option<+T> = None | Some(value: T) {
    predicate IsFailure() {
      None?
    }

    function PropagateFailure<U>(): Option<U>
      requires None?
    {
      None
    }

    function Extract(): T
      requires Some?
    {
      value
    }
  }

  /** The exception classes the modelled code can raise. */
  datatype PyError =
    | AssertionError     // a failed `assert`
    | IndexError         // a list index out of range
    | ValueError         // `float()` given a token that is not a number
    | ZeroDivisionError  // a float division by zero

  /** Either the value a call returns or the exception it raises. */
  datatype Result<+T> = Success(value: T) | Failure(error: PyError) {
    predicate IsFailure() {
      Failure?
    }

    function PropagateFailure<U>(): Result<U>
      requires Failure?
    {
      Failure(error)
    }

    function Extract(): T
      requires Success?
    {
      value
    }
  }

  /** `assert cond` as a step of a `:-` chain. */
  function Check(cond: bool): (r: Result<()>)
    ensures r.Success? <==> cond
    ensures r.Failure? ==> r.error == AssertionError
  {
    if cond then Success(()) else Failure(AssertionError)
  }

  /** `xs[i]` for a non-negative index: IndexError past the end. */
  function At<T>(xs: seq<T>, i: nat): (r: Result<T>)
    ensures r.Success? <==> i < |xs|
    ensures r.Success? ==> r.value == xs[i]
    ensures r.Failure? ==> r.error == IndexError
  {
    if i < |xs| then Success(xs[i]) else Failure(IndexError)
  }

  /** `float(tok)` once the token has been recognised (or not) as a number. */
  function Number(v: Option<real>): (r: Result<real>)
    ensures r.Success? <==> v.Some?
    ensures r.Success? ==> r.value == v.value
    ensures r.Failure? ==> r.error == ValueError
  {
    match v
    case Some(x) => Success(x)
    case None => Failure(ValueError)
  }
}
