/** The failure-carrying datatypes every other module shares. */
module Wrappers {

  datatype Option<+T> = None | Some(value: T)

  datatype Result<+T, +E> = Ok(value: T) | Err(error: E)

  /** What a loop has collected, and what the rest of its input gives. */
  function Onward<T, E>(done: seq<T>, more: Result<seq<T>, E>): Result<seq<T>, E> {
    match more
    case Err(e) => Err(e)
    case Ok(rest) => Ok(done + rest)
  }

  lemma OnwardNone<T, E>(more: Result<seq<T>, E>)
    ensures Onward([], more) == more
  {
    if more.Ok? { assert [] + more.value == more.value; }
  }

  lemma OnwardOne<T, E>(done: seq<T>, x: T, more: Result<seq<T>, E>)
    ensures Onward(done, Onward([x], more)) == Onward(done + [x], more)
  {
    if more.Ok? { assert done + ([x] + more.value) == done + [x] + more.value; }
  }
}
