/** Failure-compatible wrappers for the two exceptions of the maze solver and for the
    array-bounds failure that the map's cell lookup can raise. */
module Results {

  /** The failures the model distinguishes: `MapException` (bad map text, or a lookup of an
      element that is not in the map), `GameException` (no route, or a route that cannot be
      scored) and `OutOfBounds` (a cell read outside the map array). */
  datatype Error = MapException | GameException | OutOfBounds

  datatype Option<+T> = None | Some(value: T)

  datatype Result<+T> = Ok(value: T) | Err(error: Error) {
    predicate IsFailure() { Err? }

    function PropagateFailure<U>(): Result<U>
      requires Err?
    {
      Err(error)
    }

    function Extract(): T
      requires Ok?
    {
      value
    }
  }

  /** The outcome of an operation that returns nothing but may throw. */
  datatype Outcome = Pass | Fail(error: Error)
}
