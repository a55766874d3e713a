/** Result types shared by every stage of the pipeline.

  The program signals failure with exceptions. Each stage raises exactly one
  error class of its own (the lookup error of the record fetcher, the summary
  error of the chat client), and the driver catches only those. Any other
  exception (an attribute or type error from malformed input) escapes every
  caller. `Outcome` keeps the two apart: `Fail` is the stage's own error with
  its message, `Crash` is an exception nobody catches.
 */
module Outcomes {

  datatype Option<+T> = None | Some(value: T)

  datatype Outcome<+T> = Ok(value: T) | Fail(msg: string) | Crash {

    predicate IsFailure() {
      !Ok?
    }

    function PropagateFailure<U>(): (r: Outcome<U>)
      requires !Ok?
      ensures r.Fail? <==> Fail?
    {
      if Fail? then Fail(msg) else Crash
    }

    function Extract(): T
      requires Ok?
    {
      value
    }
  }

  /** The outcome of a stage together with the requests it sent, in order. */
  datatype Traced<+T, +R> = Traced(result: Outcome<T>, sent: seq<R>)
}
