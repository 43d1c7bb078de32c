/**
 * What a handler answers: a success status code with its payload, or one of the
 * error kinds the handlers report, each with the HTTP status it is sent with.
 */
module Outcomes {

  datatype Error =
    | InvalidRequestData                  // body could not be bound
    | ValidationFailed(fields: set<string>) // request tags failed, by lower-cased field name
    | Unauthenticated                     // no user_id string in the request context
    | InvalidUserId                       // caller's user_id is not an object ID
    | InvalidEventId                      // the :id path parameter is not an object ID
    | Forbidden                           // caller lacks the required membership
    | NotFound                            // no event with that ID
    | AlreadyInvited                      // no requested user is new to the event
    | InvalidStatusFilter                 // ?status= outside going, maybe, not_going
    | MissingKeyword                      // ?q= absent
    | MissingRole                         // ?role= absent
    | InvalidRole                         // role outside organizer, attendee
    | StoreFailure                        // a store call failed

  function StatusCode(e: Error): int {
    match e
    case Unauthenticated => 401
    case Forbidden => 403
    case NotFound => 404
    case StoreFailure => 500
    case _ => 400
  }

  datatype Outcome<T> = Ok(code: int, value: T) | Err(error: Error)

  /** The result of one step of a handler's checks: a value to carry on with, or the error to answer. */
  datatype Checked<T> = Pass(value: T) | Reject(error: Error)

  function Code<T>(o: Outcome<T>): int {
    match o
    case Ok(code, _) => code
    case Err(e) => StatusCode(e)
  }
}
