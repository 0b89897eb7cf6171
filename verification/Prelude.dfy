/** Failure-carrying results shared by all modules, and sequences put together from parts. */
module Prelude {

  datatype Option<+T> = None | Some(value: T)

  datatype Result<+T, +E> = Ok(value: T) | Err(error: E)

  /** A result with something in front of it. */
  function Prepend<T, E>(front: seq<T>, rest: Result<seq<T>, E>): (r: Result<seq<T>, E>)
    ensures front == [] ==> r == rest
  {
    match rest
    case Ok(tail) => assert [] + tail == tail; Ok(front + tail)
    case Err(_) => rest
  }

  lemma PrependPrepend<T, E>(a: seq<T>, b: seq<T>, rest: Result<seq<T>, E>)
    ensures Prepend(a, Prepend(b, rest)) == Prepend(a + b, rest)
  {
    if rest.Ok? {
      assert a + (b + rest.value) == a + b + rest.value;
    }
  }

  lemma PrependNothing<T, E>(a: seq<T>)
    ensures Prepend<T, E>(a, Ok([])) == Ok(a)
  {
    assert a + [] == a;
  }

  ghost predicate Distinct<T>(items: seq<T>) {
    forall i, j :: 0 <= i < j < |items| ==> items[i] != items[j]
  }

  lemma Regroup<T>(a: seq<T>, b: seq<T>, c: seq<T>)
    ensures a + (b + c) == a + b + c
  {
  }
}
