/**
 Outcomes of a Clarity call.
 */
module Clarity {

  /** A response is `ok` or `err`; `Panic` is an abort of the whole call, as from a
      failed `unwrap-panic` or an arithmetic overflow. */
  datatype Response<+T> = Ok(value: T) | Err(code: nat) | Panic {
    predicate IsFailure() {
      !Ok?
    }
    function PropagateFailure<U>(): Response<U>
      requires IsFailure()
    {
      if Err? then Err(code) else Panic
    }
    function Extract(): T
      requires !IsFailure()
    {
      value
    }
  }

  /** Clarity's `uint` is 128 bits wide. */
  const UINT_LIMIT: nat := 0x1_0000_0000_0000_0000_0000_0000_0000_0000
}
