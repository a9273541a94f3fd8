/** The option type and the exception status shared by the other modules. */
module Wrappers {

  datatype Option<+T> = None | Some(value: T)

  /** How a ByteBuffer operation ends: normally, or by throwing one of the source's exceptions. */
  datatype Status = Ok | PositionException | SourceException | EmptyException | UndefinedBehaviour {
    predicate IsFailure() {
      !Ok?
    }

    function PropagateFailure(): Status
      requires IsFailure()
    {
      this
    }
  }
}
