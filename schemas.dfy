/**
 * The request bodies of app/schemas/schemas.py and the field constraints the
 * request validation enforces before a handler runs.
 */
module Schemas {
  import Constants

  /** One requested allocation: a recipient id and a number of points. */
  datatype RecipientRequest = RecipientRequest(userId: int, points: int)

  /**
   * A post or comment request.  `points` is a required field of the request that
   * the handlers never read: they use the sum of the recipients' points instead.
   */
  datatype PostRequest = PostRequest(points: int, recipients: seq<RecipientRequest>, content: string)

  datatype CommentRequest = CommentRequest(points: int, recipients: seq<RecipientRequest>, content: string, postId: int)

  datatype SignupRequest = SignupRequest(fullName: string, email: string, password: string, companyName: string)

  /** An optional update field: left out of the request, sent as null, or given a value. */
  datatype Field<T> = Unset | Null | Given(value: T)

  /** The only fields a user may change about themselves. */
  datatype UserUpdate = UserUpdate(fullName: Field<string>, email: Field<string>, password: Field<string>)

  const MinPasswordLength: nat := 8

  predicate RecipientValid(r: RecipientRequest)
  {
    r.points > 0
  }

  predicate RecipientsValid(rs: seq<RecipientRequest>)
  {
    forall k :: 0 <= k < |rs| ==> RecipientValid(rs[k])
  }

  predicate TransactionValid(points: int, rs: seq<RecipientRequest>)
  {
    points > 0 && RecipientsValid(rs)
  }

  predicate PostRequestValid(p: PostRequest)
  {
    TransactionValid(p.points, p.recipients) && |p.content| <= Constants.MaxPostLength
  }

  predicate CommentRequestValid(c: CommentRequest)
  {
    TransactionValid(c.points, c.recipients) && |c.content| <= Constants.MaxCommentLength
  }

  /** What remains here of the email syntax check: an address is never empty. */
  predicate EmailValid(e: string)
  {
    e != []
  }

  predicate SignupValid(s: SignupRequest)
  {
    EmailValid(s.email) && |s.password| >= MinPasswordLength
  }

  /** Optional fields are checked only when given; an explicit null passes. */
  predicate UpdateValid(u: UserUpdate)
  {
    && (u.email.Given? ==> EmailValid(u.email.value))
    && (u.password.Given? ==> |u.password.value| >= MinPasswordLength)
  }
}
