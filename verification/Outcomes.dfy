/** What a call can end in: a value, or a run-time panic that ends the program. */
module Outcomes {

  datatype Option<+T> = None | Some(value: T)

  datatype Outcome<+T> = Done(value: T) | Panicked {

    predicate IsFailure() {
      Panicked?
    }

    function PropagateFailure<U>(): Outcome<U>
      requires Panicked?
    {
      Panicked
    }

    function Extract(): T
      requires Done?
    {
      value
    }
  }
}
