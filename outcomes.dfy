/** Success and failure values shared by every stage of the pipeline.
    A `Fatal` result stands for a diagnostic followed by `exit(EXIT_FAILURE)`:
    the compiler prints the message and the whole process stops. */
module Outcomes {

  datatype Option<+T> = None | Some(value: T)

  datatype Result<+T> = Ok(value: T) | Fatal(msg: string) {

    predicate IsFailure() {
      Fatal?
    }

    function PropagateFailure<U>(): Result<U>
      requires Fatal?
    {
      Fatal(msg)
    }

    function Extract(): T
      requires Ok?
    {
      value
    }
  }
}
