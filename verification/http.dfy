/**
  What a route handler produces: an error the framework turns into a status
  code, or the new database state together with the reply. A failed handler
  hands back no state, so none of its writes happen: each handler, with its
  transaction, is one atomic step.
 */
module Http {
  import opened Schema

  datatype Error =
    | BadRequest(message: string)    // BadRequestError, status 400
    | Unauthorized(message: string)  // UnauthorizedError, status 401
    | NotFound(message: string)      // NotFoundError, status 404
    | ConstraintViolation            // the database rejected a write; no handler catches it

  datatype Result<T> = Ok(value: T) | Err(error: Error) {
    predicate IsFailure() {
      Err?
    }

    function PropagateFailure<U>(): Result<U>
      requires Err?
    {
      Err(error)
    }

    function Extract(): T
      requires Ok?
    {
      value
    }
  }

  /** The session token `jwtSign` issues: its `sub` claim and its lifetime. */
  datatype SessionToken = SessionToken(sub: Id, expiresInDays: nat)

  datatype Reply =
    | Created                              // 201, empty body
    | CreatedOrganization(organizationId: Id)
    | CreatedProject(projectId: Id)
    | CreatedInvite(inviteId: Id)
    | NoContent                            // 204
    | NoReply                              // the handler returns without sending anything

  datatype Step = Step(store: Store, reply: Reply)
}
