/** Small value wrappers shared by the model: an optional value (the
    source's `T | null`) and the settlement of a promise. */
module Wrappers {

  /** `T | null` in the source. */
  datatype Option<+T> = None | Some(value: T)

  /** How a promise settled: fulfilled with a payload, or rejected.
      The rejection reason is never inspected by the handlers, so it is
      not carried. */
  datatype Outcome<+T> = Fulfilled(value: T) | Rejected

  /** A request whose payload the handler ignores (`deleteTodo`). */
  type Settlement = Outcome<()>
}
