/** Outcomes of operations that can fail.  The source signals every failure
    with an exception (an assertion, a missing key, an index out of range);
    the model keeps only the fact of failure. */
module Wrappers {
  datatype Option<+T> = None | Some(value: T)

  /** `ViewNotModelled` marks a SELECT that reads a stored view. */
  datatype Error = Raised | ViewNotModelled

  datatype Result<+T> = Ok(value: T) | Err(error: Error) {
    predicate IsFailure() { Err? }
    function PropagateFailure<U>(): Result<U> requires Err? { Err(error) }
    function Extract(): T requires Ok? { value }
  }

  /** Put known elements in front of an outcome that is a sequence. */
  function Prepend<T>(xs: seq<T>, r: Result<seq<T>>): Result<seq<T>>
  {
    if r.Ok? then Ok(xs + r.value) else r
  }

  lemma PrependAppend<T>(a: seq<T>, b: seq<T>, r: Result<seq<T>>)
    ensures Prepend(a, Prepend(b, r)) == Prepend(a + b, r)
  {
    if r.Ok? { assert a + (b + r.value) == (a + b) + r.value; }
  }

  lemma PrependEmpty<T>(r: Result<seq<T>>)
    ensures Prepend([], r) == r
  {
    if r.Ok? { assert [] + r.value == r.value; }
  }

  lemma AppendAssoc<T>(a: seq<T>, b: seq<T>, c: seq<T>)
    ensures a + b + c == a + (b + c)
  {
  }
}
