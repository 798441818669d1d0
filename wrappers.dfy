/**
 * Results of the packager's operations.
 *
 * Go functions return `(value, error)` or just `error`.  A `panic` or a
 * `log.Fatal` ends the program instead of returning; the model keeps those
 * apart from ordinary errors so that a contract can say which of the two
 * the source does.
 */
module Wrappers {

  datatype Option<T> = None | Some(value: T)

  /** A value, an error the caller receives, or a panic/fatal exit. */
  datatype Result<T> = Ok(value: T) | Err(msg: string) | Panic(msg: string)
  {
    predicate IsFailure() { !Ok? }

    function PropagateFailure<U>(): Result<U>
      requires IsFailure()
    {
      if Err? then Err(msg) else Panic(msg)
    }

    function Extract(): T
      requires Ok?
    {
      value
    }

    function ToOutcome(): (r: Outcome)
      ensures r.Pass? <==> Ok?
    {
      match this
      case Ok(_) => Pass
      case Err(m) => Fail(m)
      case Panic(m) => Abort(m)
    }
  }

  /** A Go `error` return: nil, an error value, or a panic/fatal exit. */
  datatype Outcome = Pass | Fail(msg: string) | Abort(msg: string)
  {
    predicate IsFailure() { !Pass? }

    function PropagateFailure(): Outcome
      requires IsFailure()
    {
      this
    }

    function ToResult(): (r: Result<()>)
      ensures r.Ok? <==> Pass?
    {
      match this
      case Pass => Ok(())
      case Fail(m) => Err(m)
      case Abort(m) => Panic(m)
    }
  }
}
