/** Failure-compatible result types shared by every service of the ledger.

    The Java services report failure by throwing; here every operation returns
    a `Result` whose error side names the kind of exception the service throws.
 */
module Results {

  /** A value that may be absent (a nullable reference or an empty `Optional`). */
  datatype Option<+T> = None | Some(value: T)

  /** The kinds of failure the services raise instead of returning. */
  datatype Error =
    | NotFound             // ResourceNotFoundException
    | InvalidRequest       // IllegalArgumentException: a malformed request
    | AccessDenied         // AccessDeniedException: neither the owner nor an admin
    | InvalidState         // IllegalStateException: retrying a COMPLETED movement
    | AlreadyExists        // UserAlreadyExistsException
    | ConstraintViolation  // the store refuses the write (unique column, foreign key)
    | InternalError        // an unchecked runtime exception (index out of bounds)
    | NoFreshNumber        // the supplied random draws ran out before a free account number

  /** Either the operation's value or the kind of failure it raised. */
  datatype Result<+T> = Ok(value: T) | Err(error: Error) {

    predicate IsFailure() {
      Err?
    }

    function PropagateFailure<U>(): Result<U>
      requires Err?
    {
      Err(error)
    }

    function Extract(): T
      requires Ok?
    {
      value
    }
  }
}
