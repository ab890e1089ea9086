# Points ledger and membership of the employee-recognition API

This project models the core of a small employee-recognition service. Users belong to
companies. Each user holds two balances: *giveable* points, which they can hand out, and
*redeemable* points, which they have received. A user can publish a recognition post, or a
comment under a post, that names recipients in their own company and gives each one some
points. Each such post or comment records one ledger transaction and one recipient row per
allocation. It moves the points from the sender's giveable balance to the recipients'
redeemable balances. Admins can adjust a member's giveable balance, set it outright,
and soft-delete members. Users sign up into a company, which is created if it does not
exist; the first member of a company becomes its admin. Users log in with email and
password.

The database is one object, `Db.Store`, with one sequence field per table. Its invariant
`Valid()` is `Models.Consistent`: every CHECK, NOT NULL, UNIQUE and foreign-key constraint of
the schema, plus the ledger rules the endpoints keep:

- a transaction's points equal the sum of its recipient rows;
- a recognition is linked to the post (or comment) it paid for, with the same author and total;
- rows are written in transaction order;
- company names are unique.

Each endpoint that writes is a method on the store. It is proved to:

- keep `Valid()`;
- refuse exactly the requests a ghost *rejection* function names, with the error the handler
  raises first, and change nothing when it refuses;
- otherwise leave the store equal to a specification function of the old tables.

Endpoints that only read are functions. Recognition posts and comments are proved to conserve
the sum of all balances. The listings are proved to be newest first and cut according to
OFFSET/LIMIT.

Endpoints receive the token's subject string. `Deps` models the three authentication guards,
including Python's `int()` on that subject. Password hashing and verification are
function-valued parameters.

The model follows the code where the code and the design described for it part ways:

- create_post with no recipients has a total of 0, which the `total_points > 0` check on posts
  refuses at commit: a server error, not a 400.
- An admin adjustment of 0 points violates `points > 0` on transactions: also a server error.
- Recipients are checked for existence and company only. Soft-deleted users can receive
  points, and a sender may name themselves.
- The received-points history joins transactions to recipient rows. A transaction that names
  the user twice appears twice.
- The `MIN_POINTS_PER_RECOGNITION`/`MAX_POINTS_PER_RECOGNITION` constants are declared but
  never enforced. The only per-allocation bound is `points > 0` from the request schema. The
  request's own `points` field is validated but not used.
- Of update_user_me's optional fields, an explicit `null` password reaches the hash function.
  app/core/security.py is not part of this model, so that this fails (a server error) is an
  assumption about the hashing library. An explicit `null` name or email breaks NOT NULL at commit.

Checks run in this order: the authentication dependency, then request-body validation
(`InvalidRequest`, status 422), then the handler's own checks in source order. A negative
`skip` or `limit` is passed to the database, which rejects it (`InternalError`).

## Model

| member | source | states |
|---|---|---|
| Constants.RoleValue | app/core/constants.py:7-9 | a role's stored string fits the `String(10)` column and parses back to the same role |
| Constants.ParseRole | app/models/models.py:32 | exactly "admin" and "member" are valid roles |
| Constants.TransactionTypeValue | app/core/constants.py:11-15 | a transaction type's stored string fits `String(20)` and parses back to the same type |
| Constants.ParseTransactionType | app/models/models.py:54-57 | exactly the four listed strings are valid transaction types |
| Errors.Status | app/api/deps.py:47-99 | every error maps to a 4xx status, except constraint and internal failures, which map to 500; 401 exactly for a malformed subject and failed logins |
| Models.FindLast | app/api/v1/endpoints/auth.py:28-29 | none found iff no row has the key; a found row has it, and no later row does |
| Models.FindByEmail | app/api/v1/endpoints/auth.py:28-29 | none found iff no row holds the email; a found row holds it |
| Models.FindCompany | app/api/v1/endpoints/auth.py:36-37 | none found iff no company has the name; a found row has it |
| Ledger.SumPointsOfValid | app/schemas/schemas.py:43-49 | a total of valid allocations is at least their number, and zero exactly when there are none |
| Ledger.AllocatedToBounds | app/api/v1/endpoints/posts.py:62-73 | what a user is credited is between 0 and the total, and 0 exactly when no allocation names them |
| Ledger.Credit | app/api/v1/endpoints/posts.py:62-73 | crediting keeps the users table's length (per-user effect in `Ledger.CreditAt`) |
| Ledger.CreditAt | app/api/v1/endpoints/posts.py:62-73 | each user's row gains what the allocations name them for in redeemable points; nothing else changes |
| Ledger.CreditTotal | app/api/v1/endpoints/posts.py:62-73 | crediting raises the sum of all balances by exactly the allocations' total |
| Ledger.Recognize | app/api/v1/endpoints/posts.py:62-77 | a recognition keeps the users table's length |
| Ledger.RecognizeAt | app/api/v1/endpoints/posts.py:62-77 | per user: redeemable gains what the user is allocated; giveable loses the total for the sender only; email, company, role and deleted flag are kept |
| Ledger.RecognizeConserves | app/api/v1/endpoints/posts.py:62-77 | a recognition leaves the sum of all balances unchanged |
| Ledger.RecognizeNonNegative | app/api/v1/endpoints/posts.py:24-29 | an affordable recognition of positive allocations leaves every balance non-negative |
| Ledger.Rows | app/api/v1/endpoints/posts.py:63-68 | one recipient row per allocation, in order, naming the transaction, recipient and amount |
| Ledger.RowsTotalOfRows | app/api/v1/endpoints/posts.py:51-68 | the rows written for a transaction sum to the allocations' total, and to 0 for any other transaction |
| Ledger.RowsTotalAbsent | app/models/models.py:61-74 | a transaction with no rows yet sums to 0 |
| Ledger.AdjustedBounds | app/api/v1/endpoints/points.py:131-134 | the adjusted balance is non-negative; it moves by at most the adjustment, and by exactly the adjustment unless clamped at 0 |
| Listing.Descending | app/api/v1/endpoints/posts.py:100-104 | exactly the matching rows, each once, in strictly descending creation order |
| Listing.Page | app/api/v1/endpoints/posts.py:105-106 | OFFSET/LIMIT: the page's length, and its k-th entry is the (skip+k)-th of the listing |
| Listing.Paginate | app/api/v1/endpoints/points.py:35-42 | fails with an internal error exactly for a negative skip or limit, otherwise the page |
| LikeTable.Remove | app/api/v1/endpoints/posts.py:163-176 | deleting a like removes exactly that pair and keeps pairs distinct; the table shrinks by one when the pair was present |
| LikeTable.RemoveKeepsLikesOk | app/models/models.py:111-123 | deleting a like keeps the like table's foreign keys and uniqueness |
| LikeTable.AddKeepsLikesOk | app/models/models.py:111-123 | adding a pair not yet present, for an existing target and user, keeps the like table's foreign keys and uniqueness |
| Deps.TrimStart | app/api/deps.py:60 | `int()` strips leading whitespace: the result is a suffix starting with no space, and every character removed is whitespace |
| Deps.TrimEnd | app/api/deps.py:60 | `int()` strips trailing whitespace: the result is a prefix ending with no space, and every character removed is whitespace |
| Deps.Decimal | app/api/v1/endpoints/auth.py:88-92 | the subject written for a user id is a non-empty digit string |
| Deps.DecimalValue | app/api/deps.py:60 | the digits of an id's decimal form have the id as value |
| Deps.BoundedRun | app/api/deps.py:60 | on a run of digits, reading at most `budget` digits gives their value when the run fits and refuses it otherwise |
| Deps.DigitsParse | app/api/deps.py:60-69 | `int()` of a non-empty run of ASCII digits is their value when there are at most 4300 of them (CPython's default `sys.int_info.default_max_str_digits`); a longer run is a `ValueError`, so 401 |
| Deps.DecimalLength | app/api/deps.py:60 | `str(n)` has at most k digits exactly when n < 10^k |
| Deps.ParseDecimal | app/api/deps.py:58-69 | `int(str(n)) == n` for every n below 10^4300; for larger n, `int()` refuses the string |
| Deps.CurrentUser | app/api/deps.py:58-79 | authenticates iff the subject parses as an integer naming a row; otherwise 401 (malformed) or 404 |
| Deps.CurrentActiveUser | app/api/deps.py:81-89 | passes exactly the users `CurrentUser` authenticates that are not soft-deleted, unchanged; passes `CurrentUser`'s errors on; refuses a soft-deleted user with `InactiveUser` |
| Deps.CurrentAdminUser | app/api/deps.py:91-99 | passes exactly the active users whose role is admin, unchanged; passes `CurrentActiveUser`'s errors on; refuses an active non-admin with `NotEnoughPrivileges` |
| Deps.SubjectOfIdAuthenticates | app/api/deps.py:58-79 | for an id below 10^4300, the subject of an existing user's id authenticates as that user, and the subject of an id past the table gives `UserNotFound`; from 10^4300 on, the subject is refused as malformed (401) |
| Deps.SubjectOnRewrite | app/api/deps.py:58-79 | rewriting user rows in place, without adding or removing any, leaves whom a subject names unchanged |
| Deps.SubjectOfIdActive | app/api/deps.py:58-89 | the subject of an existing user's id passes the active guard as that user unless the user is soft-deleted (`InactiveUser`); from 10^4300 on it is malformed |
| Db.Store.constructor | app/models/models.py:6-136 | the empty database satisfies every constraint |
| Db.Store.Distribute | app/api/v1/endpoints/posts.py:62-73 | the allocation loop credits the recipients and appends their rows, as `Ledger.Credit` and `Ledger.Rows` say |
| Db.TransactionsGrow | app/models/models.py:37-59 | appending posts, comments or users and advancing the clock keeps existing transactions valid |
| Db.AppendEntry | app/models/models.py:61-74 | a new transaction followed by its rows keeps every transaction equal to the sum of its rows |
| Db.RecognizeKeepsUsersOk | app/models/models.py:31-35 | an affordable recognition keeps both balance checks and email uniqueness |
| Recognition.FirstIneligible | app/api/v1/endpoints/posts.py:31-39 | none iff every recipient exists and is in the sender's company; otherwise the first one that is not |
| Recognition.FindIneligible | app/api/v1/endpoints/posts.py:31-39 | the lookup loop stops at the first ineligible recipient, as `FirstIneligible` says |
| Posts.PostCreatedConsistent | app/api/v1/endpoints/posts.py:40-80 | the post, its transaction, rows and balance moves keep every constraint |
| Posts.CreatePost | app/api/v1/endpoints/posts.py:13-81 | refuses exactly per `CreatePostRejection`, changing nothing; otherwise the store becomes `PostCreated` of the old tables; the balance sum is kept; the invariant holds |
| Posts.Publish | app/api/v1/endpoints/posts.py:40-80 | the writes after the checks produce `PostCreated` and keep the invariant and the balance sum |
| Posts.CompanyPosts | app/api/v1/endpoints/posts.py:100-104 | exactly the posts whose author is in the company, each once, newest first |
| Posts.CompanyPostsNewestFirst | app/api/v1/endpoints/posts.py:104 | the listing's creation times strictly decrease |
| Posts.ReadCompanyPosts | app/api/v1/endpoints/posts.py:83-108 | guard errors pass through; another company gets 403; otherwise a page of `CompanyPosts` |
| Posts.LikePost | app/api/v1/endpoints/posts.py:110-151 | refuses exactly per `LikePostRejection` (missing post, other company, already liked); otherwise appends the one (post, user) pair; the invariant holds |
| Posts.LikePostTwice | app/api/v1/endpoints/posts.py:135-145 | liking again right after a like is refused as `AlreadyLiked` |
| Posts.UnlikePost | app/api/v1/endpoints/posts.py:153-179 | refuses with `NotLiked` exactly when the caller has no like on the post; otherwise removes that pair, shrinking the table by one |
| Comments.CommentWithoutRecipients | app/api/v1/endpoints/comments.py:59-71 | a comment without recipients writes no transaction or rows and moves no points |
| Comments.CommentWithRecipients | app/api/v1/endpoints/comments.py:71-101 | a comment with recipients records one transaction for the total, moves points as a post does, and keeps the balance sum |
| Comments.CommentCreatedConsistent | app/api/v1/endpoints/comments.py:59-103 | a stored comment, with or without a recognition, keeps every constraint |
| Comments.CommentStoredConsistent | app/api/v1/endpoints/comments.py:59-69 | storing a comment on an existing post, stamped with the clock, keeps every constraint |
| Comments.CommentPaidConsistent | app/api/v1/endpoints/comments.py:71-101 | the comment's recognition transaction, its rows and the balance moves keep every constraint |
| Comments.CreateComment | app/api/v1/endpoints/comments.py:13-103 | refuses exactly per `CreateCommentRejection` (balance and recipient checks only when the total is positive), changing nothing; otherwise the store becomes `CommentCreated`; the balance sum is kept |
| Comments.Reply | app/api/v1/endpoints/comments.py:59-103 | the writes after the checks produce `CommentCreated` and keep the invariant |
| Comments.PostComments | app/api/v1/endpoints/comments.py:131-137 | exactly the post's comments, each once, newest first |
| Comments.PostCommentsNewestFirst | app/api/v1/endpoints/comments.py:134 | the listing's creation times strictly decrease |
| Comments.ReadPostComments | app/api/v1/endpoints/comments.py:105-138 | 404 for a missing post, 403 for another company's post, otherwise a page of `PostComments` |
| Comments.LikeComment | app/api/v1/endpoints/comments.py:140-183 | refuses exactly per `LikeCommentRejection`, using the company of the comment's post's author; otherwise appends the pair |
| Comments.UnlikeComment | app/api/v1/endpoints/comments.py:185-211 | refuses with `NotLiked` exactly when the caller has no like on the comment; otherwise removes that pair |
| Points.PointsBalance | app/api/v1/endpoints/points.py:13-23 | the caller's giveable and redeemable balances |
| Points.Sent | app/api/v1/endpoints/points.py:35-41 | exactly the caller's sent transactions, each once, newest first |
| Points.SentNewestFirst | app/api/v1/endpoints/points.py:38 | the sent listing's creation times strictly decrease |
| Points.SentHistory | app/api/v1/endpoints/points.py:25-42 | a page of `Sent` for an authenticated caller |
| Points.RowsNaming | app/api/v1/endpoints/points.py:54-61 | exactly the recipient rows naming the caller, last written first |
| Points.Received | app/api/v1/endpoints/points.py:54-61 | one entry per recipient row naming the caller, last written first, each carrying that row's transaction: a transaction that names the caller twice is listed twice; a transaction is listed iff one of its rows names the caller |
| Points.JoinedTransactions | app/api/v1/endpoints/points.py:54-58 | the join of transactions to the rows naming the caller finds exactly the transactions with such a row |
| Points.ReceivedNewestFirst | app/api/v1/endpoints/points.py:58 | under the invariant, the received listing names real transactions with non-increasing creation times |
| Points.ReceivedHistory | app/api/v1/endpoints/points.py:44-62 | a page of `Received` for an authenticated caller |
| Points.CompanyLedger | app/api/v1/endpoints/points.py:81-88 | exactly the transactions whose sender is in the company, newest first |
| Points.CompanyLedgerNewestFirst | app/api/v1/endpoints/points.py:85 | the company listing's creation times strictly decrease |
| Points.CompanyTransactions | app/api/v1/endpoints/points.py:64-89 | admin only, own company only (403), otherwise a page of `CompanyLedger` |
| Points.AdjustmentConsistent | app/api/v1/endpoints/points.py:111-137 | an adjustment's transaction, row and clamped balance keep every constraint |
| Points.CreateAdminAdjustment | app/api/v1/endpoints/points.py:91-139 | refuses exactly per `AdjustmentRejection` (not found, other company, zero points), changing nothing; otherwise the store becomes `AdjustmentMade` |
| Points.Adjust | app/api/v1/endpoints/points.py:111-137 | the writes after the checks produce `AdjustmentMade` and keep the invariant |
| Points.AdjustmentEffect | app/api/v1/endpoints/points.py:130-134 | only the target's giveable balance changes: up by a positive amount, down by a negative one but not below 0 |
| Users.ReadUserMe | app/api/v1/endpoints/users.py:14-21 | the caller's own row, which is not soft-deleted |
| Users.Updated | app/api/v1/endpoints/users.py:41-46 | every given field is written, the password hashed; all other fields are kept |
| Users.UpdateKeepsUsersOk | app/api/v1/endpoints/users.py:33-39 | an update that passed the email check keeps emails unique |
| Users.UpdateUserMe | app/api/v1/endpoints/users.py:23-51 | refuses exactly per `UpdateRejection`; otherwise rewrites only the caller's row, as `Updated` says |
| Users.ActiveMembers | app/api/v1/endpoints/users.py:68-72 | exactly the company's rows that are not soft-deleted |
| Users.ReadUsersByCompany | app/api/v1/endpoints/users.py:53-73 | own company only (403); the listing is `ActiveMembers` and includes the caller |
| Users.DeleteRejection | app/api/v1/endpoints/users.py:84-92 | a delete is accepted iff an admin targets another existing user of their company |
| Users.DeleteUser | app/api/v1/endpoints/users.py:75-98 | refuses per `DeleteRejection`, changing nothing; otherwise sets only the target's deleted flag |
| Users.RowRewriteConsistent | app/api/v1/endpoints/users.py:94-97 | rewriting one user row in place, with the same email, valid balances and an existing company, keeps every constraint |
| Users.DeletedSubjectRefused | app/api/v1/endpoints/users.py:94-97 | after a delete the target's own subject no longer passes the active guard: it is refused as inactive for every id below 10^4300 |
| Users.DeleteShrinksActiveMembers | app/api/v1/endpoints/users.py:94-97 | a delete removes exactly the target from its company's active members |
| Users.DeleteKeepsCaller | app/api/v1/endpoints/users.py:94-97 | the admin who deletes another user still authenticates as before |
| Users.DeletedUserLocksOut | app/api/v1/endpoints/users.py:94-98 | after a delete the target's subject is refused (as inactive, for every id below 10^4300), the target leaves the company listing, and the admin still authenticates |
| Users.PointsUpdateRejection | app/api/v1/endpoints/users.py:110-122 | accepted iff an admin sets a non-negative amount for an existing user of their company; a negative amount is refused before the lookup |
| Users.UpdateUserPoints | app/api/v1/endpoints/users.py:100-128 | refuses per `PointsUpdateRejection`; otherwise sets only the target's giveable balance |
| Auth.SignupRejection | app/api/v1/endpoints/auth.py:27-33 | a signup is accepted iff the request is valid and no user holds the email |
| Auth.SignupCompany | app/api/v1/endpoints/auth.py:35-43 | the existing company of that name, or a new last row when there is none |
| Auth.SignedUp | app/api/v1/endpoints/auth.py:35-59 | a signup changes only the users and companies tables |
| Auth.SignupRole | app/api/v1/endpoints/auth.py:46-56 | the new user is admin iff no row belongs to its company, always so for a new company; it starts active with the initial balances and the request's name, email and hashed password |
| Auth.SignupConsistent | app/api/v1/endpoints/auth.py:27-59 | a signup keeps every constraint, email and company-name uniqueness included |
| Auth.CreateUser | app/api/v1/endpoints/auth.py:18-60 | refuses per `SignupRejection`, changing nothing; otherwise the store becomes `SignedUp` |
| Auth.Login | app/api/v1/endpoints/auth.py:70-84 | succeeds iff an active user holds the email and the password verifies; fails as `InactiveLogin` iff a soft-deleted user holds the email and the password verifies; every other failure (unknown email, wrong password) is `IncorrectLogin` |
| Auth.LoginAuthenticates | app/api/v1/endpoints/auth.py:86-92 | the subject issued by a login authenticates as the same active user when the id is below 10^4300, and is refused as malformed otherwise |
| Auth.TestToken | app/api/v1/endpoints/auth.py:99-104 | the subject's user, soft-deleted or not |

## Left out

- Query defaults: the listings declare `skip: int = 0` and `limit: int = 100`. `Paginate` and the listing functions always take both, so a request that omits them stands for the call with 0 and 100.
- `Constants.RoleValue`, `Constants.TransactionTypeValue` and `Errors.Status` are reference mappings: they record the stored column strings and the HTTP status codes, while the endpoint contracts speak of `Role`, `TransactionType` and `Error` values.
- Token handling: JWT signing, decoding and expiry, and the 403 for a token that fails to decode, are left out. Endpoints take the subject string. app/core/security.py is not part of this model. The model assumes a token issued for user `n` carries `str(n)` as its subject (`Deps.Decimal`).
- Password hashing and verification are function parameters (`hash`, `verify`). The 60-character hash column is not modelled.
- Timestamps: `created_at` is a global counter, stamped at insert and then advanced. `updated_at` is not modelled, and `deleted_at` is a boolean.
- Row ids are positions in the table sequences. The database's ids start at 1; only equality and order matter here.
- Integer width: every id, points and balance column is a 32-bit `INTEGER`, but the model uses unbounded integers. A value outside the 32-bit range is accepted by the model, where the database fails with a server error instead. Such values include:
  - a path id of 2^31, which the model answers with not found;
  - update_user_points with points=2^31;
  - an adjustment or credit that pushes a balance past 2^31-1.
- Atomicity: create_post, create_comment and create_admin_adjustment commit their writes in several steps. create_post commits the post, then the transaction, then the rows and balances; the adjustment commits the transaction, then the row and the balance. The model treats these commits as one step. Under unbounded integers none of the later commits can fail once the checks pass. With 32-bit columns, a later commit can fail on overflow, and the source then keeps the earlier rows: for example, a transaction with no recipient row. The model does not capture that partial state.
- Concurrency: concurrent requests, which could overdraw a balance between the check and the commit, are not modelled.
- Responses: endpoints return the id of the affected row, or a list of ids, rather than the serialised row. `like_count` and `comment_count` are not modelled.
- Schemas.EmailValid: email syntax validation (`EmailStr`) is reduced to non-emptiness. `EmailStr` also normalises the address: the domain is lower-cased, surrounding whitespace is trimmed, and a "Name <addr>" wrapper is removed. A request's `email` in the model stands for that normalised value. login compares its raw form field against the stored value, which the model does not distinguish.
- Deps.ParseInt: only ASCII digits and whitespace are modelled. Python's `int()` also accepts other Unicode decimal digits and spaces. The 4300-digit limit on decimal strings is modelled (`Deps.MaxStrDigits`), as CPython's default; a deployment that changes `sys.set_int_max_str_digits` is not.
- Deps.SubjectOfIdAuthenticates: states the subject round trip only for ids below 10^4300, because `int()` refuses a longer subject and the unrestricted round trip would be false. Every id a 32-bit column can hold is far below the bound.
- Deps.SubjectOfIdActive: states the subject round trip only for ids below 10^4300, because `int()` refuses a longer subject and the unrestricted round trip would be false. Every id a 32-bit column can hold is far below the bound.
- Auth.LoginAuthenticates: states the subject round trip only for ids below 10^4300, because `int()` refuses a longer subject and the unrestricted round trip would be false. Every id a 32-bit column can hold is far below the bound.
- Users.DeletedUserLocksOut: states the subject round trip only for ids below 10^4300, because `int()` refuses a longer subject and the unrestricted round trip would be false. Every id a 32-bit column can hold is far below the bound.
- Request bodies of the wrong JSON type are not modelled; requests are typed values, and only the field constraints are checked.
- Users.ReadUsersByCompany: the query has no ORDER BY, so the listing is a set.
- Unused constants: `MIN_POINTS_PER_RECOGNITION`, `MAX_POINTS_PER_RECOGNITION`, the rate-limit, page-size and pool constants are declared in the source but no core code reads them.
- Configuration, session set-up, routing, packaging and the database migration are not part of this model. app/models/base.py and app/core/security.py are not part of this model.
