/** Outcome types shared by every model in the project. */
module Results {

  /** The source signals failure with `return false`, an exception or a failed
      `assert`; all three become `Err`. */
  datatype Result<+T> = Ok(value: T) | Err {
    predicate IsFailure() { Err? }

    function PropagateFailure<U>(): Result<U>
      requires Err?
    {
      Err
    }

    function Extract(): T
      requires Ok?
    {
      value
    }
  }

  datatype Option<+T> = None | Some(value: T)
}
