/**
 Optional values.
 */
module Options {

  datatype Option<+T> = None | Some(value: T)
}

/**
 Results that may be errors instead.
 */
module Results {

  datatype Result<+T, +E> = Ok(value: T) | Err(error: E) {
    predicate IsFailure() {
      Err?
    }
    function PropagateFailure<U>(): Result<U, E>
      requires IsFailure()
    {
      Err(error)
    }
    function Extract(): T
      requires !IsFailure()
    {
      value
    }
  }
}
