/** Values shared by every part of the backend model: optional values, document
    ids, the three account roles, the authenticated caller, the accounts the
    handlers look up, and the responses a handler can produce. */
module Common {

  datatype Option<+T> = None | Some(value: T)

  /** A document id (a Mongo ObjectId in text form) or any other request text.
      The empty string stands for a missing field: every check of the form
      `if (!field)` in the handlers is a comparison with "". */
  type Id = string

  /** A URL handed back by the media store. */
  type Url = string

  /** Account roles: 'user' (a citizen), 'worker' and 'authority'. */
  datatype Role = User | Worker | Authority

  /** The caller as the authentication middleware establishes it: `req.user`. */
  datatype Caller = Caller(id: Id, role: Role)

  /** A document of the users collection, as far as the core reads it (keyed by its id). */
  datatype Account = Account(name: string, email: string, role: Role, isActive: bool)

  /** Why a handler failed with status 500 (the central error middleware turns
      every exception without a status code into a 500). */
  datatype Cause =
    | MissingAssignee          // `report.assignedTo.toString()` on a report nobody is assigned to
    | MissingAccount           // the caller's own account could not be loaded
    | ValidationFailed         // save() refused the document: an empty required field or a value outside an enum
    | DuplicateIssueId         // the unique index on issueId refused the document
    | UploadFailed             // the media store did not return a URL
    | UploadRejected(message: string)  // the upload step refused the file (not a notice route)
    | MalformedLocation        // JSON.parse threw on a `location` string that is not JSON
    | InvalidPaging            // the aggregation refused the listing's $skip or $limit stage

  /** What a handler answers. `Ok` carries no body: the body is the updated
      document, which the state after the call determines. */
  datatype Response =
    | Ok
    | Created(id: Id)
    | Toggled(upvoted: bool, upvotes: nat)
    | BadRequest(error: string)
    | Forbidden(error: string)
    | NotFound(error: string)
    | ServerError(cause: Cause)
    | RoleDenied               // stopped by the route's checkRole guard before the handler ran
}
