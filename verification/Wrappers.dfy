/** The failure-compatible option type: a C++ throw is a `None`. */
module Wrappers {

  datatype Option<+T> = None | Some(value: T) {
    predicate IsFailure() {
      None?
    }

    function PropagateFailure<U>(): Option<U>
      requires None?
    {
      None
    }

    function Extract(): T
      requires Some?
    {
      value
    }
  }

  /** An allocation that may run out of memory, where a caller allows for it. */
  method Exhausted(mayExhaust: bool) returns (exhausted: bool)
    ensures exhausted ==> mayExhaust
  {
    exhausted := false;
    if mayExhaust {
      exhausted := *;
    }
  }
}
