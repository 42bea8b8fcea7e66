/** The two outcome types of the model. `Option` stands for a value that may
    be absent, `Result` for a step that may raise. Both can stand on the right
    of Dafny's `:-`, which then does what Python's exception propagation does:
    the first failure ends the enclosing computation unchanged. */
module Wrappers {

  datatype Option<+T> = None | Some(value: T) {
    // The three members `:-` needs: when to stop, what to pass on, what to keep.
    predicate IsFailure() { None? }
    function PropagateFailure<U>(): Option<U> requires None? { None }
    function Extract(): T requires Some? { value }
  }

  datatype Result<+R, +E> = Success(value: R) | Failure(error: E) {
    predicate IsFailure() { Failure? }
    function PropagateFailure<U>(): Result<U, E> requires Failure? { Failure(error) }
    function Extract(): R requires Success? { value }
  }
}
