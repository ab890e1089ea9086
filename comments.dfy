/** The endpoints of app/api/v1/endpoints/comments.py. */
module Comments {
  import opened Wrappers
  import opened Errors
  import opened Constants
  import opened Models
  import opened Schemas
  import opened Ledger
  import opened Listing
  import opened LikeTable
  import opened Deps
  import opened Recognition
  import opened Db
  import opened Posts

  /**
   * The error create_comment answers with, in the order its checks run, or None.
   * The balance and recipient checks run only when the recipients' total is positive.
   */
  ghost function CreateCommentRejection(users: seq<User>, posts: seq<Post>, sub: string, req: CommentRequest): Option<Error>
    requires AuthorsKnown(users, posts)
  {
    match CurrentActiveUser(users, sub)
    case Err(e) => Some(e)
    case Ok(me) =>
      var total := SumPoints(req.recipients);
      if !CommentRequestValid(req) then Some(InvalidRequest)
      else if !(0 <= req.postId < |posts|) then Some(PostNotFound)
      else if users[posts[req.postId].authorId].companyId != users[me].companyId then Some(OtherCompany)
      else if total <= 0 then None
      else if total > users[me].giveable then Some(NotEnoughPoints)
      else match FirstIneligible(users, users[me].companyId, req.recipients)
        case Some(k) => Some(InvalidRecipient(req.recipients[k].userId))
        case None => None
  }

  /**
   * The tables after `me` comments: the comment, and only when the total is positive
   * a comment-recognition transaction, its rows and the balance moves.
   */
  ghost function CommentCreated(t: Tables, me: nat, req: CommentRequest): Tables
    requires me < |t.users| && 0 <= req.postId && Known(req.recipients, |t.users|)
  {
    var total := SumPoints(req.recipients);
    var withComment := t.(comments := t.comments + [Comment(req.postId, me, req.content, total, t.clock)]);
    if total <= 0 then withComment.(clock := t.clock + 1)
    else
      withComment.(
        users := Recognize(t.users, me, req.recipients),
        transactions := t.transactions +
          [PointsTransaction(Some(me), CommentRecognition, None, Some(|t.comments|), total, None, t.clock + 1)],
        recipients := t.recipients + Rows(|t.transactions|, req.recipients),
        clock := t.clock + 2)
  }

  /** A comment without recipients moves no points and records no transaction. */
  lemma CommentWithoutRecipients(t: Tables, me: nat, req: CommentRequest)
    requires me < |t.users| && 0 <= req.postId && RecipientsValid(req.recipients)
    requires req.recipients == []
    ensures var t' := CommentCreated(t, me, req);
      t'.users == t.users && t'.transactions == t.transactions && t'.recipients == t.recipients &&
      |t'.comments| == |t.comments| + 1 && t'.comments[|t.comments|].totalPoints == 0
  {
  }

  /** A comment with recipients moves exactly the points the post rules move. */
  lemma CommentWithRecipients(t: Tables, me: nat, req: CommentRequest)
    requires me < |t.users| && 0 <= req.postId && RecipientsValid(req.recipients)
    requires Known(req.recipients, |t.users|) && req.recipients != []
    ensures var t' := CommentCreated(t, me, req);
      t'.users == Recognize(t.users, me, req.recipients) && |t'.transactions| == |t.transactions| + 1 &&
      t'.transactions[|t.transactions|].points == SumPoints(req.recipients) &&
      TotalBalance(t'.users) == TotalBalance(t.users)
  {
    SumPointsOfValid(req.recipients);
    RecognizeConserves(t.users, me, req.recipients);
  }

  /** An accepted comment keeps every table constraint. */
  lemma CommentCreatedConsistent(t: Tables, me: nat, req: CommentRequest)
    requires Consistent(t)
    requires me < |t.users| && 0 <= req.postId < |t.posts| && RecipientsValid(req.recipients)
    requires Known(req.recipients, |t.users|) && SumPoints(req.recipients) <= t.users[me].giveable
    ensures Consistent(CommentCreated(t, me, req))
  {
    var total := SumPoints(req.recipients);
    SumPointsOfValid(req.recipients);
    var stored := t.(comments := t.comments + [Comment(req.postId, me, req.content, total, t.clock)], clock := t.clock + 1);
    CommentStoredConsistent(t, Comment(req.postId, me, req.content, total, t.clock));
    if total > 0 {
      CommentPaidConsistent(stored, me, |t.comments|, req.recipients);
      assert CommentCreated(t, me, req) == stored.(
        users := Recognize(stored.users, me, req.recipients),
        transactions := stored.transactions +
          [PointsTransaction(Some(me), CommentRecognition, None, Some(|t.comments|), total, None, stored.clock)],
        recipients := stored.recipients + Rows(|stored.transactions|, req.recipients),
        clock := stored.clock + 1);
    } else {
      assert CommentCreated(t, me, req) == stored;
    }
  }

  /** Storing one comment on an existing post, stamped with the clock, keeps every constraint. */
  lemma CommentStoredConsistent(t: Tables, c: Comment)
    requires Consistent(t)
    requires c.postId < |t.posts| && c.authorId < |t.users| && c.totalPoints >= 0 && c.createdAt == t.clock
    ensures Consistent(t.(comments := t.comments + [c], clock := t.clock + 1))
  {
    var t' := t.(comments := t.comments + [c], clock := t.clock + 1);
    TransactionsGrow(t.transactions, t.posts, t.posts, t.comments, t'.comments, |t.users|, |t.users|, t.clock, t'.clock);
    assert CommentsOk(t'.comments, |t'.posts|, |t'.users|, t'.clock);
  }

  /** The recognition transaction of a stored comment, its rows and its balance moves keep every constraint. */
  lemma CommentPaidConsistent(t: Tables, me: nat, commentId: nat, rs: seq<RecipientRequest>)
    requires Consistent(t)
    requires me < |t.users| && commentId < |t.comments| && RecipientsValid(rs) && Known(rs, |t.users|)
    requires 0 < SumPoints(rs) <= t.users[me].giveable
    requires t.comments[commentId].authorId == me && t.comments[commentId].totalPoints == SumPoints(rs)
    ensures Consistent(t.(
      users := Recognize(t.users, me, rs),
      transactions := t.transactions +
        [PointsTransaction(Some(me), CommentRecognition, None, Some(commentId), SumPoints(rs), None, t.clock)],
      recipients := t.recipients + Rows(|t.transactions|, rs),
      clock := t.clock + 1))
  {
    var x := PointsTransaction(Some(me), CommentRecognition, None, Some(commentId), SumPoints(rs), None, t.clock);
    var t' := t.(users := Recognize(t.users, me, rs), transactions := t.transactions + [x],
                 recipients := t.recipients + Rows(|t.transactions|, rs), clock := t.clock + 1);
    assert UsersOk(t'.users, |t'.companies|) by {
      RecognizeKeepsUsersOk(t.users, |t.companies|, me, rs);
    }
    assert TransactionsOk(t'.transactions, t'.posts, t'.comments, |t'.users|, t'.clock) by {
      TransactionsGrow(t.transactions, t.posts, t.posts, t.comments, t.comments, |t.users|, |t.users|, t.clock, t'.clock);
      assert TransactionOk(x, t'.posts, t'.comments, |t'.users|, t'.clock);
    }
    assert RecipientsOk(t'.recipients, t'.transactions, |t'.users|) by {
      AppendEntry(t.recipients, t.transactions, |t.users|, x, rs);
    }
  }

  /**
   * create_comment: a rejected request changes nothing; an accepted one stores the
   * comment and, when it names recipients, pays them as a post does.
   */
  method CreateComment(db: Store, sub: string, req: CommentRequest) returns (r: Result<nat, Error>)
    requires db.Valid()
    modifies db`users, db`comments, db`transactions, db`recipients, db`clock
    ensures db.Valid()
    ensures r.Err? <==> CreateCommentRejection(old(db.users), old(db.posts), sub, req).Some?
    ensures r.Err? ==> r.error == CreateCommentRejection(old(db.users), old(db.posts), sub, req).value
    ensures r.Err? ==> db.Snapshot() == old(db.Snapshot())
    ensures r.Ok? ==>
      CurrentActiveUser(old(db.users), sub).Ok? && 0 <= req.postId && Known(req.recipients, old(|db.users|))
    ensures r.Ok? ==>
      && r.value == old(|db.comments|)
      && db.Snapshot() == CommentCreated(old(db.Snapshot()), CurrentActiveUser(old(db.users), sub).value, req)
      && TotalBalance(db.users) == old(TotalBalance(db.users))
  {
    var who := CurrentActiveUser(db.users, sub);
    if who.Err? {
      return Err(who.error);
    }
    var me := who.value;
    if !CommentRequestValid(req) {
      return Err(InvalidRequest);
    }
    if !(0 <= req.postId < |db.posts|) {
      return Err(PostNotFound);
    }
    var author := db.users[db.posts[req.postId].authorId];
    if author.companyId != db.users[me].companyId {
      return Err(OtherCompany);
    }
    var total := SumPoints(req.recipients);
    SumPointsOfValid(req.recipients);
    if total > 0 {
      if total > db.users[me].giveable {
        return Err(NotEnoughPoints);
      }
      var bad := FindIneligible(db.users, db.users[me].companyId, req.recipients);
      if bad.Some? {
        return Err(InvalidRecipient(req.recipients[bad.value].userId));
      }
    }
    r := Reply(db, me, req);
  }

  /** The writes of create_comment once its checks have passed. */
  method Reply(db: Store, me: nat, req: CommentRequest) returns (r: Result<nat, Error>)
    requires db.Valid()
    requires me < |db.users| && 0 <= req.postId < |db.posts| && RecipientsValid(req.recipients)
    requires Known(req.recipients, |db.users|) && SumPoints(req.recipients) <= db.users[me].giveable
    modifies db`users, db`comments, db`transactions, db`recipients, db`clock
    ensures db.Valid()
    ensures r == Ok(old(|db.comments|))
    ensures db.Snapshot() == CommentCreated(old(db.Snapshot()), me, req)
    ensures TotalBalance(db.users) == old(TotalBalance(db.users))
  {
    ghost var before := db.Snapshot();
    var total := SumPoints(req.recipients);
    var commentId := |db.comments|;
    db.comments := db.comments + [Comment(req.postId, me, req.content, total, db.clock)];
    db.clock := db.clock + 1;
    if total > 0 {
      var tid := |db.transactions|;
      db.transactions := db.transactions +
        [PointsTransaction(Some(me), CommentRecognition, None, Some(commentId), total, None, db.clock)];
      db.clock := db.clock + 1;
      db.Distribute(tid, req.recipients);
      var sender := db.users[me];
      db.users := db.users[me := sender.(giveable := sender.giveable - total)];
      assert db.Snapshot() == CommentCreated(before, me, req);
      RecognizeConserves(before.users, me, req.recipients);
    } else {
      assert db.Snapshot() == CommentCreated(before, me, req);
    }
    CommentCreatedConsistent(before, me, req);
    return Ok(commentId);
  }

  /** Every comment of post `postId`, newest first. */
  function PostComments(comments: seq<Comment>, postId: int): (r: seq<nat>)
    ensures forall k :: 0 <= k < |r| ==> r[k] < |comments| && comments[r[k]].postId == postId
    ensures forall c :: 0 <= c < |comments| && comments[c].postId == postId ==> c in r
    ensures forall j, k :: 0 <= j < k < |r| ==> r[j] > r[k]
  {
    Descending(|comments|, (c: nat) => c < |comments| && comments[c].postId == postId)
  }

  /** Creation times increase along the table, so the listing is newest first. */
  lemma PostCommentsNewestFirst(comments: seq<Comment>, postId: int)
    requires forall i, j :: 0 <= i < j < |comments| ==> comments[i].createdAt < comments[j].createdAt
    ensures var r := PostComments(comments, postId);
      forall j, k :: 0 <= j < k < |r| ==> comments[r[j]].createdAt > comments[r[k]].createdAt
  {
  }

  /**
   * read_post_comments: 404 for a missing post, 403 for another company's post,
   * otherwise one page of the post's comments, newest first.
   */
  function ReadPostComments(users: seq<User>, posts: seq<Post>, comments: seq<Comment>, sub: string,
                            postId: int, skip: int, limit: int): (r: Result<seq<nat>, Error>)
    requires AuthorsKnown(users, posts)
    ensures CurrentActiveUser(users, sub).Err? ==> r == Err(CurrentActiveUser(users, sub).error)
    ensures CurrentActiveUser(users, sub).Ok? && !(0 <= postId < |posts|) ==> r == Err(PostNotFound)
    ensures (CurrentActiveUser(users, sub).Ok? && 0 <= postId < |posts| &&
             users[posts[postId].authorId].companyId != users[CurrentActiveUser(users, sub).value].companyId) ==>
      r == Err(OtherCompany)
    ensures r.Ok? <==>
      CurrentActiveUser(users, sub).Ok? && 0 <= postId < |posts| &&
      users[posts[postId].authorId].companyId == users[CurrentActiveUser(users, sub).value].companyId &&
      skip >= 0 && limit >= 0
    ensures r.Ok? ==> r.value == Page(PostComments(comments, postId), skip, limit)
  {
    match CurrentActiveUser(users, sub)
    case Err(e) => Err(e)
    case Ok(me) =>
      if !(0 <= postId < |posts|) then Err(PostNotFound)
      else if users[posts[postId].authorId].companyId != users[me].companyId then Err(OtherCompany)
      else Paginate(PostComments(comments, postId), skip, limit)
  }

  /** Every comment's post exists. */
  predicate PostsKnown(posts: seq<Post>, comments: seq<Comment>)
  {
    forall c :: 0 <= c < |comments| ==> comments[c].postId < |posts|
  }

  /** The answer of like_comment: the company is that of the author of the comment's post. */
  ghost function LikeCommentRejection(users: seq<User>, posts: seq<Post>, comments: seq<Comment>, likes: seq<Like>,
                                      sub: string, commentId: int): Option<Error>
    requires AuthorsKnown(users, posts) && PostsKnown(posts, comments)
  {
    match CurrentActiveUser(users, sub)
    case Err(e) => Some(e)
    case Ok(me) =>
      if !(0 <= commentId < |comments|) then Some(CommentNotFound)
      else if users[posts[comments[commentId].postId].authorId].companyId != users[me].companyId then Some(OtherCompany)
      else if Like(commentId, me) in likes then Some(AlreadyLiked)
      else None
  }

  /** like_comment: adds exactly the (comment, user) pair. */
  method LikeComment(db: Store, sub: string, commentId: int) returns (r: Result<nat, Error>)
    requires db.Valid()
    modifies db`commentLikes
    ensures db.Valid()
    ensures r.Err? <==>
      LikeCommentRejection(old(db.users), old(db.posts), old(db.comments), old(db.commentLikes), sub, commentId).Some?
    ensures r.Err? ==>
      r.error == LikeCommentRejection(old(db.users), old(db.posts), old(db.comments), old(db.commentLikes), sub, commentId).value &&
      db.commentLikes == old(db.commentLikes)
    ensures r.Ok? ==>
      && CurrentActiveUser(old(db.users), sub).Ok? && r.value == commentId
      && db.commentLikes == old(db.commentLikes) + [Like(commentId, CurrentActiveUser(old(db.users), sub).value)]
  {
    var who := CurrentActiveUser(db.users, sub);
    if who.Err? {
      return Err(who.error);
    }
    var me := who.value;
    if !(0 <= commentId < |db.comments|) {
      return Err(CommentNotFound);
    }
    var post := db.posts[db.comments[commentId].postId];
    var author := db.users[post.authorId];
    if author.companyId != db.users[me].companyId {
      return Err(OtherCompany);
    }
    if Like(commentId, me) in db.commentLikes {
      return Err(AlreadyLiked);
    }
    AddKeepsLikesOk(db.commentLikes, Like(commentId, me), |db.comments|, |db.users|);
    db.commentLikes := db.commentLikes + [Like(commentId, me)];
    return Ok(commentId);
  }

  /** unlike_comment: removes exactly the (comment, user) pair. */
  method UnlikeComment(db: Store, sub: string, commentId: int) returns (r: Result<nat, Error>)
    requires db.Valid()
    modifies db`commentLikes
    ensures db.Valid()
    ensures r.Err? <==> UnlikeRejection(old(db.users), old(db.commentLikes), sub, commentId).Some?
    ensures r.Err? ==>
      r.error == UnlikeRejection(old(db.users), old(db.commentLikes), sub, commentId).value &&
      db.commentLikes == old(db.commentLikes)
    ensures r.Ok? ==>
      && CurrentActiveUser(old(db.users), sub).Ok? && r.value == commentId
      && db.commentLikes == Remove(old(db.commentLikes), Like(commentId, CurrentActiveUser(old(db.users), sub).value))
      && |db.commentLikes| == old(|db.commentLikes|) - 1
  {
    var who := CurrentActiveUser(db.users, sub);
    if who.Err? {
      return Err(who.error);
    }
    var me := who.value;
    if commentId < 0 || Like(commentId, me) !in db.commentLikes {
      return Err(NotLiked);
    }
    db.commentLikes := Remove(db.commentLikes, Like(commentId, me));
    RemoveKeepsLikesOk(old(db.commentLikes), Like(commentId, me), |db.comments|, |db.users|);
    return Ok(commentId);
  }
}
