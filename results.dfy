/** Error and result types that replace the exceptions thrown by the services. */
module Results {

  datatype Option<+T> = None | Some(value: T)

  /** Which kind of entity a lookup failed to find ("Task not found" / "User not found"). */
  datatype Resource = TaskResource | UserResource

  datatype Error =
    | NotFound(resource: Resource, id: nat)  // ResourceNotFoundException
    | Unauthorized                           // UnauthorizedAccessException
    | InvalidArgument                        // IllegalArgumentException
    | NullReference                          // NullPointerException on a missing assignee
    | ConstraintViolation                    // a column or bean-validation constraint rejected the save
    | Conflict                               // the username is already taken
    | DetachedEntity                         // persist cascaded to a comment that already has an id

  datatype Result<+T> = Ok(value: T) | Err(error: Error)

  /** The outcome of an operation that returns nothing (a Java `void` method). */
  datatype Outcome = Pass | Fail(error: Error)
}
