/** Failure-compatible wrappers shared by every component, and the error values of the engine core. */
module Common {

  datatype Option<+T> = None | Some(value: T)

  /** The error cases of the core. `Panic` stands for an out-of-bounds index, which aborts the program. */
  datatype Error =
    | ArenaCapacityExceeded
    | LOPathDepthExceeded
    | DeltaOverflow
    | ReadbackIncomplete
    | PrimError
    | Panic

  datatype Result<+T> = Ok(value: T) | Err(error: Error) {
    predicate IsFailure() { Err? }

    function PropagateFailure<U>(): Result<U>
      requires Err?
    {
      Err(error)
    }

    function Extract(): T
      requires Ok?
    {
      value
    }
  }

  /** What a loop has collected, followed by what is still to come. */
  function Prepend<T>(done: seq<T>, rest: Result<seq<T>>): Result<seq<T>> {
    if rest.Ok? then Ok(done + rest.value) else rest
  }

  lemma PrependNone<T>(rest: Result<seq<T>>)
    ensures Prepend([], rest) == rest
  {
    if rest.Ok? { assert [] + rest.value == rest.value; }
  }

  lemma PrependMore<T>(done: seq<T>, more: seq<T>, rest: Result<seq<T>>)
    ensures Prepend(done + more, rest) == Prepend(done, Prepend(more, rest))
  {
    if rest.Ok? { assert done + more + rest.value == done + (more + rest.value); }
  }

  predicate FitsI16(v: int) { -0x8000 <= v < 0x8000 }
}
