/** The standard Some/None and Ok/Err types of the modelled programs. */
module Wrappers {
  datatype Option<+T> = None | Some(value: T)

  datatype Result<+T, +E> = Ok(value: T) | Err(error: E) {
    predicate IsFailure() { Err? }

    function PropagateFailure<U>(): Result<U, E>
      requires Err?
    {
      Err(error)
    }

    function Extract(): T
      requires Ok?
    {
      value
    }
  }

  // Concatenations of three or four parts, regrouped.
  lemma Regroup<T>(a: seq<T>, b: seq<T>, c: seq<T>, d: seq<T> := [])
    ensures a + b + c == a + (b + c)
    ensures a + b + c + d == a + (b + c + d)
  {
  }
}
