/** Failure-compatible result types shared by every component. */
module Common {

  const MAX_U32: nat := 0xFFFF_FFFF
  const MAX_U64: nat := 0xFFFF_FFFF_FFFF_FFFF

  /** The most data and parity shards together. */
  const MAX_TOTAL_SHARDS: nat := 32

  datatype Option<+T> = None | Some(value: T)

  datatype Result<+T, +E> = Ok(value: T) | Err(error: E) {

    predicate IsFailure() {
      Err?
    }

    function PropagateFailure<U>(): Result<U, E>
      requires Err?
    {
      Err(error)
    }

    function Extract(): T
      requires Ok?
    {
      value
    }

    /** Forgets which error was reported. */
    function ToOption(): Option<T> {
      if Ok? then Some(value) else None
    }
  }
}
