/**
 * The records of app/models/models.py and their check, unique and foreign-key
 * constraints.  A table is a sequence of rows and a row's id is its position;
 * rows are never physically deleted except likes.  `createdAt` stands for the
 * created_at timestamp: a counter stamped at insert.
 */
module Models {
  import opened Wrappers
  import opened Constants

  datatype Company = Company(name: string)

  /** `deleted` stands for a non-null deleted_at. */
  datatype User = User(
    fullName: string,
    email: string,
    passwordHash: string,
    companyId: nat,
    role: UserRole,
    giveable: int,
    redeemable: int,
    deleted: bool)

  datatype Post = Post(authorId: nat, content: string, totalPoints: int, createdAt: nat)

  datatype Comment = Comment(postId: nat, authorId: nat, content: string, totalPoints: int, createdAt: nat)

  datatype PointsTransaction = PointsTransaction(
    senderId: Option<nat>,
    kind: TransactionType,
    postId: Option<nat>,
    commentId: Option<nat>,
    points: int,
    adminNotes: Option<string>,
    createdAt: nat)

  /** One allocation of a transaction to one recipient. */
  datatype PointsRecipient = PointsRecipient(transactionId: nat, recipientId: int, amount: int)

  /** A row of post_likes or comment_likes: the liked post or comment and the user. */
  datatype Like = Like(targetId: nat, userId: nat)

  /** All tables at one moment, and the clock that stamps the next insert. */
  datatype Tables = Tables(
    users: seq<User>,
    companies: seq<Company>,
    posts: seq<Post>,
    comments: seq<Comment>,
    transactions: seq<PointsTransaction>,
    recipients: seq<PointsRecipient>,
    postLikes: seq<Like>,
    commentLikes: seq<Like>,
    clock: nat)

  /** Sum of the amounts of the recipient rows of transaction `tid`. */
  function RowsTotal(rows: seq<PointsRecipient>, tid: nat): int
  {
    if rows == [] then 0
    else
      var last := rows[|rows| - 1];
      RowsTotal(rows[..|rows| - 1], tid) + (if last.transactionId == tid then last.amount else 0)
  }

  /** users: both balances non-negative, company foreign key. */
  predicate UserRowOk(u: User, nCompanies: nat)
  {
    u.giveable >= 0 && u.redeemable >= 0 && u.companyId < nCompanies
  }

  ghost predicate EmailsUnique(users: seq<User>)
  {
    forall i, j :: 0 <= i < j < |users| ==> users[i].email != users[j].email
  }

  ghost predicate UsersOk(users: seq<User>, nCompanies: nat)
  {
    && (forall i :: 0 <= i < |users| ==> UserRowOk(users[i], nCompanies))
    && EmailsUnique(users)
  }

  /** Company names are not declared unique; signup's get-or-create keeps them so. */
  ghost predicate NamesUnique(companies: seq<Company>)
  {
    forall i, j :: 0 <= i < j < |companies| ==> companies[i].name != companies[j].name
  }

  ghost predicate PostsOk(posts: seq<Post>, nUsers: nat, clock: nat)
  {
    && (forall i :: 0 <= i < |posts| ==>
          posts[i].authorId < nUsers && posts[i].totalPoints > 0 && posts[i].createdAt < clock)
    && (forall i, j :: 0 <= i < j < |posts| ==> posts[i].createdAt < posts[j].createdAt)
  }

  ghost predicate CommentsOk(comments: seq<Comment>, nPosts: nat, nUsers: nat, clock: nat)
  {
    && (forall i :: 0 <= i < |comments| ==>
          comments[i].postId < nPosts && comments[i].authorId < nUsers &&
          comments[i].totalPoints >= 0 && comments[i].createdAt < clock)
    && (forall i, j :: 0 <= i < j < |comments| ==> comments[i].createdAt < comments[j].createdAt)
  }

  /**
   * A transaction has positive points and a known sender; a recognition is linked to
   * exactly the post it paid for (same author, same total), a comment recognition to
   * its comment, and the other kinds to neither.
   */
  ghost predicate TransactionOk(x: PointsTransaction, posts: seq<Post>, comments: seq<Comment>, nUsers: nat, clock: nat)
  {
    && x.points > 0
    && x.createdAt < clock
    && (x.senderId.Some? ==> x.senderId.value < nUsers)
    && match x.kind
       case Recognition =>
         x.postId.Some? && x.commentId.None? && x.postId.value < |posts| &&
         posts[x.postId.value].totalPoints == x.points &&
         x.senderId == Some(posts[x.postId.value].authorId)
       case CommentRecognition =>
         x.commentId.Some? && x.postId.None? && x.commentId.value < |comments| &&
         comments[x.commentId.value].totalPoints == x.points &&
         x.senderId == Some(comments[x.commentId.value].authorId)
       case AdminAdjustment => x.postId.None? && x.commentId.None?
       case InitialAllocation => x.postId.None? && x.commentId.None?
  }

  ghost predicate TransactionsOk(txs: seq<PointsTransaction>, posts: seq<Post>, comments: seq<Comment>, nUsers: nat, clock: nat)
  {
    && (forall i :: 0 <= i < |txs| ==> TransactionOk(txs[i], posts, comments, nUsers, clock))
    && (forall i, j :: 0 <= i < j < |txs| ==> txs[i].createdAt < txs[j].createdAt)
  }

  /**
   * Every recipient row has a positive amount and known transaction and recipient;
   * rows are written in transaction order; a transaction's points are the sum of its rows.
   */
  ghost predicate RecipientsOk(rows: seq<PointsRecipient>, txs: seq<PointsTransaction>, nUsers: nat)
  {
    && (forall i :: 0 <= i < |rows| ==>
          rows[i].amount > 0 && rows[i].transactionId < |txs| && 0 <= rows[i].recipientId < nUsers)
    && (forall i, j :: 0 <= i < j < |rows| ==> rows[i].transactionId <= rows[j].transactionId)
    && (forall t :: 0 <= t < |txs| ==> txs[t].points == RowsTotal(rows, t))
  }

  /** No (target, user) pair appears twice: the unique constraint of the like tables. */
  ghost predicate NoDuplicates(likes: seq<Like>)
  {
    forall i, j :: 0 <= i < j < |likes| ==> likes[i] != likes[j]
  }

  /** At most one like per (target, user), both of which exist. */
  ghost predicate LikesOk(likes: seq<Like>, nTargets: nat, nUsers: nat)
  {
    && (forall i :: 0 <= i < |likes| ==> likes[i].targetId < nTargets && likes[i].userId < nUsers)
    && NoDuplicates(likes)
  }

  /** Every constraint of the schema, over all tables: the store's invariant. */
  ghost predicate Consistent(t: Tables)
  {
    && UsersOk(t.users, |t.companies|)
    && NamesUnique(t.companies)
    && PostsOk(t.posts, |t.users|, t.clock)
    && CommentsOk(t.comments, |t.posts|, |t.users|, t.clock)
    && TransactionsOk(t.transactions, t.posts, t.comments, |t.users|, t.clock)
    && RecipientsOk(t.recipients, t.transactions, |t.users|)
    && LikesOk(t.postLikes, |t.posts|, |t.users|)
    && LikesOk(t.commentLikes, |t.comments|, |t.users|)
  }

  /**
   * The last row whose `key` is `k`, if any: select ... where column == k, scalar_one_or_none.
   * On a column whose values are distinct it is the only such row.
   */
  function FindLast<T>(rows: seq<T>, key: T -> string, k: string): (r: Option<nat>)
    ensures r.None? <==> forall i :: 0 <= i < |rows| ==> key(rows[i]) != k
    ensures r.Some? ==> r.value < |rows| && key(rows[r.value]) == k
    ensures r.Some? ==> forall i :: r.value < i < |rows| ==> key(rows[i]) != k
  {
    if rows == [] then None
    else if key(rows[|rows| - 1]) == k then Some(|rows| - 1)
    else FindLast(rows[..|rows| - 1], key, k)
  }

  /** The user holding `email`, if any. */
  function FindByEmail(users: seq<User>, email: string): (r: Option<nat>)
    ensures r.None? <==> forall i :: 0 <= i < |users| ==> users[i].email != email
    ensures r.Some? ==> r.value < |users| && users[r.value].email == email
  {
    FindLast(users, (u: User) => u.email, email)
  }

  /** The company named `name`, if any. */
  function FindCompany(companies: seq<Company>, name: string): (r: Option<nat>)
    ensures r.None? <==> forall i :: 0 <= i < |companies| ==> companies[i].name != name
    ensures r.Some? ==> r.value < |companies| && companies[r.value].name == name
  {
    FindLast(companies, (c: Company) => c.name, name)
  }
}
