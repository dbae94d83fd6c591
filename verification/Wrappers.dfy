/** Failure-compatible result types and the byte type shared by every module. */
module Wrappers {
  datatype Option<+T> = None | Some(value: T) {
    predicate IsFailure() { None? }

    function PropagateFailure<U>(): Option<U>
      requires None?
    {
      None
    }

    function Extract(): T
      requires Some?
    {
      value
    }
  }

  datatype Result<+T, +E> = Ok(value: T) | Err(error: E) {
    predicate IsFailure() { Err? }

    function PropagateFailure<U>(): Result<U, E>
      requires Err?
    {
      Err(error)
    }

    function Extract(): T
      requires Ok?
    {
      value
    }
  }

  /** The body of a result that carries no value. */
  datatype Unit = Unit

  type byte = n: int | 0 <= n < 256
  type bytes = seq<byte>
  type u64 = n: int | 0 <= n < 0x1_0000_0000_0000_0000
}
