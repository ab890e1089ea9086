/**
 * The database as one object: a field per table, and `Valid()`, the conjunction
 * of every table constraint, as the object invariant.  Each endpoint is a method
 * that takes this store and states the store's new contents.
 */
module Db {
  import opened Wrappers
  import opened Models
  import opened Schemas
  import opened Ledger

  class Store {
    var users: seq<User>
    var companies: seq<Company>
    var posts: seq<Post>
    var comments: seq<Comment>
    var transactions: seq<PointsTransaction>
    var recipients: seq<PointsRecipient>
    var postLikes: seq<Like>
    var commentLikes: seq<Like>
    var clock: nat

    /** The tables as one value. */
    function Snapshot(): Tables
      reads this
    {
      Tables(users, companies, posts, comments, transactions, recipients, postLikes, commentLikes, clock)
    }

    ghost predicate Valid()
      reads this
    {
      Consistent(Snapshot())
    }

    /** A freshly migrated, empty database. */
    constructor ()
      ensures Valid()
      ensures Snapshot() == Tables([], [], [], [], [], [], [], [], 0)
    {
      users, companies, posts, comments := [], [], [], [];
      transactions, recipients, postLikes, commentLikes := [], [], [], [];
      clock := 0;
    }

    /**
     * The loop of the recognition endpoints that, per allocation, adds a recipient row
     * of transaction `tid` and adds the points to the recipient's redeemable balance.
     */
    method Distribute(tid: nat, rs: seq<RecipientRequest>)
      requires Known(rs, |users|)
      modifies this`users, this`recipients
      ensures users == Credit(old(users), rs)
      ensures recipients == old(recipients) + Rows(tid, rs)
    {
      var i := 0;
      while i < |rs|
        invariant 0 <= i <= |rs|
        invariant Known(rs[..i], |old(users)|)
        invariant users == Credit(old(users), rs[..i])
        invariant recipients == old(recipients) + Rows(tid, rs[..i])
      {
        var x := rs[i];
        assert rs[..i + 1][..i] == rs[..i];
        recipients := recipients + [PointsRecipient(tid, x.userId, x.points)];
        var u := users[x.userId];
        users := users[x.userId := u.(redeemable := u.redeemable + x.points)];
        i := i + 1;
      }
      assert rs[..i] == rs;
    }
  }

  /** Longer tables and a later clock keep every existing transaction's links valid. */
  lemma TransactionsGrow(txs: seq<PointsTransaction>, posts: seq<Post>, posts': seq<Post>,
                         comments: seq<Comment>, comments': seq<Comment>,
                         nUsers: nat, nUsers': nat, clock: nat, clock': nat)
    requires TransactionsOk(txs, posts, comments, nUsers, clock)
    requires posts <= posts' && comments <= comments' && nUsers <= nUsers' && clock <= clock'
    ensures TransactionsOk(txs, posts', comments', nUsers', clock')
  {
    forall i | 0 <= i < |txs| ensures TransactionOk(txs[i], posts', comments', nUsers', clock') {
      assert TransactionOk(txs[i], posts, comments, nUsers, clock);
      var x := txs[i];
      match x.kind
      case Recognition => assert posts'[x.postId.value] == posts[x.postId.value];
      case CommentRecognition => assert comments'[x.commentId.value] == comments[x.commentId.value];
      case AdminAdjustment =>
      case InitialAllocation =>
    }
  }

  /**
   * Appending a transaction whose points are the total of `rs`, followed by one row per
   * allocation of `rs`, keeps every transaction equal to the sum of its rows.
   */
  lemma AppendEntry(rows: seq<PointsRecipient>, txs: seq<PointsTransaction>, nUsers: nat,
                    x: PointsTransaction, rs: seq<RecipientRequest>)
    requires RecipientsOk(rows, txs, nUsers)
    requires Known(rs, nUsers) && RecipientsValid(rs) && x.points == SumPoints(rs)
    ensures RecipientsOk(rows + Rows(|txs|, rs), txs + [x], nUsers)
  {
    var tid := |txs|;
    var added := Rows(tid, rs);
    var rows' := rows + added;
    var txs' := txs + [x];
    forall t | 0 <= t < |txs'| ensures txs'[t].points == RowsTotal(rows', t) {
      RowsTotalAppend(rows, added, t);
      RowsTotalOfRows(tid, rs, t);
      if t == tid {
        RowsTotalAbsent(rows, t);
      }
    }
    forall i | 0 <= i < |rows'|
      ensures rows'[i].amount > 0 && rows'[i].transactionId < |txs'| && 0 <= rows'[i].recipientId < nUsers
    {
      if i >= |rows| {
        assert rows'[i] == added[i - |rows|];
      }
    }
    forall i, j | 0 <= i < j < |rows'| ensures rows'[i].transactionId <= rows'[j].transactionId {
      if j >= |rows| {
        assert rows'[j] == added[j - |rows|];
        if i >= |rows| {
          assert rows'[i] == added[i - |rows|];
        }
      }
    }
  }

  /** A recognition the sender can afford keeps the users table valid. */
  lemma RecognizeKeepsUsersOk(users: seq<User>, nCompanies: nat, me: nat, rs: seq<RecipientRequest>)
    requires UsersOk(users, nCompanies)
    requires me < |users| && Known(rs, |users|) && RecipientsValid(rs)
    requires SumPoints(rs) <= users[me].giveable
    ensures UsersOk(Recognize(users, me, rs), nCompanies)
  {
    var after := Recognize(users, me, rs);
    RecognizeNonNegative(users, me, rs);
    forall i | 0 <= i < |users| ensures after[i].email == users[i].email && after[i].companyId == users[i].companyId {
      RecognizeAt(users, me, rs, i);
    }
  }
}
