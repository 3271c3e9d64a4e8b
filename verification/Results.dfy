/** The stock option type. */
module Results {

  datatype Option<+T> = None | Some(value: T) {

    predicate IsFailure() { None? }

    function PropagateFailure<U>(): Option<U>
      requires None?
    {
      None
    }

    function Extract(): T
      requires Some?
    {
      value
    }
  }
}
