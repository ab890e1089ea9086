/** The constants and enumerations of app/core/constants.py. */
module Constants {
  import opened Wrappers

  /** Column defaults of a new user's balances. */
  const InitialGiveablePoints: int := 50
  const InitialRedeemablePoints: int := 0

  /** Declared bounds on one recognition; no endpoint enforces them. */
  const MinPointsPerRecognition: int := 1
  const MaxPointsPerRecognition: int := 100

  /** Content limits of the post and comment request schemas. */
  const MaxPostLength: nat := 1000
  const MaxCommentLength: nat := 500

  datatype UserRole = Admin | Member

  datatype TransactionType = Recognition | AdminAdjustment | InitialAllocation | CommentRecognition

  /** The string stored in users.role; it fits the column's String(10). */
  function RoleValue(r: UserRole): (s: string)
    ensures |s| <= 10
    ensures ParseRole(s) == Some(r)
  {
    match r
    case Admin => "admin"
    case Member => "member"
  }

  /** The meaning of a stored role string: the valid_role check admits exactly two. */
  function ParseRole(s: string): (r: Option<UserRole>)
    ensures r.Some? <==> s == "admin" || s == "member"
  {
    if s == "admin" then Some(Admin)
    else if s == "member" then Some(Member)
    else None
  }

  /** The string stored in points_transactions.transaction_type (a String(20) column). */
  function TransactionTypeValue(t: TransactionType): (s: string)
    ensures |s| <= 20
    ensures ParseTransactionType(s) == Some(t)
  {
    match t
    case Recognition => "recognition"
    case AdminAdjustment => "admin_adjustment"
    case InitialAllocation => "initial_allocation"
    case CommentRecognition => "comment_recognition"
  }

  /** The valid_transaction_type check admits exactly the four listed values. */
  function ParseTransactionType(s: string): (r: Option<TransactionType>)
    ensures r.Some? <==>
      s == "recognition" || s == "admin_adjustment" || s == "initial_allocation" || s == "comment_recognition"
  {
    if s == "recognition" then Some(Recognition)
    else if s == "admin_adjustment" then Some(AdminAdjustment)
    else if s == "initial_allocation" then Some(InitialAllocation)
    else if s == "comment_recognition" then Some(CommentRecognition)
    else None
  }
}
