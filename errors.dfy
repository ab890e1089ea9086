/** The HTTP errors the endpoints and their dependencies raise, one constructor per cause. */
module Errors {

  datatype Error =
    | MalformedSubject          // token subject is not an integer
    | UserNotFound              // no user row with the requested id
    | InactiveUser              // the authenticated user is soft-deleted
    | NotEnoughPrivileges       // an admin-only endpoint called by a member
    | OtherCompany              // the target belongs to another company
    | NotEnoughPoints           // recognition total above the sender's giveable balance
    | InvalidRecipient(userId: int)  // unknown recipient or one of another company
    | PostNotFound
    | CommentNotFound
    | AlreadyLiked
    | NotLiked
    | EmailRegistered           // the email is held by a user already
    | CannotDeleteYourself
    | NegativePoints            // set-giveable with a negative amount
    | IncorrectLogin            // unknown email or wrong password
    | InactiveLogin             // correct credentials of a soft-deleted user
    | InvalidRequest            // the request body fails schema validation
    | ConstraintViolated        // a table constraint rejects the write at commit
    | InternalError             // another exception escapes the handler

  /** The status code of the response each error produces. */
  function Status(e: Error): (code: int)
    ensures 400 <= code <= 500
    ensures code == 500 <==> e == ConstraintViolated || e == InternalError
    ensures code == 401 <==> e == MalformedSubject || e == IncorrectLogin || e == InactiveLogin
  {
    match e
    case MalformedSubject => 401
    case UserNotFound => 404
    case InactiveUser => 400
    case NotEnoughPrivileges => 403
    case OtherCompany => 403
    case NotEnoughPoints => 400
    case InvalidRecipient(_) => 400
    case PostNotFound => 404
    case CommentNotFound => 404
    case AlreadyLiked => 400
    case NotLiked => 400
    case EmailRegistered => 400
    case CannotDeleteYourself => 400
    case NegativePoints => 400
    case IncorrectLogin => 401
    case InactiveLogin => 401
    case InvalidRequest => 422
    case ConstraintViolated => 500
    case InternalError => 500
  }
}
