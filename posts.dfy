/** The endpoints of app/api/v1/endpoints/posts.py. */
module Posts {
  import opened Wrappers
  import opened Errors
  import opened Constants
  import opened Models
  import opened Schemas
  import opened Ledger
  import opened Listing
  import opened LikeTable
  import opened Deps
  import opened Recognition
  import opened Db

  /** The error create_post answers with, in the order its checks run, or None when it succeeds. */
  ghost function CreatePostRejection(users: seq<User>, sub: string, req: PostRequest): Option<Error>
  {
    match CurrentActiveUser(users, sub)
    case Err(e) => Some(e)
    case Ok(me) =>
      var total := SumPoints(req.recipients);
      if !PostRequestValid(req) then Some(InvalidRequest)
      else if total > users[me].giveable then Some(NotEnoughPoints)
      else match FirstIneligible(users, users[me].companyId, req.recipients)
        case Some(k) => Some(InvalidRecipient(req.recipients[k].userId))
        // the posts.total_points > 0 check refuses a post without recipients
        case None => if total <= 0 then Some(ConstraintViolated) else None
  }

  /** The tables after `me` posts `req`: the post, its transaction, its rows and the balance moves. */
  ghost function PostCreated(t: Tables, me: nat, req: PostRequest): Tables
    requires me < |t.users| && Known(req.recipients, |t.users|)
  {
    var total := SumPoints(req.recipients);
    t.(users := Recognize(t.users, me, req.recipients),
       posts := t.posts + [Post(me, req.content, total, t.clock)],
       transactions := t.transactions +
         [PointsTransaction(Some(me), Recognition, Some(|t.posts|), None, total, None, t.clock + 1)],
       recipients := t.recipients + Rows(|t.transactions|, req.recipients),
       clock := t.clock + 2)
  }

  /** A post the sender can afford, to eligible recipients, keeps every table constraint. */
  lemma PostCreatedConsistent(t: Tables, me: nat, req: PostRequest)
    requires Consistent(t)
    requires me < |t.users| && Known(req.recipients, |t.users|) && RecipientsValid(req.recipients)
    requires 0 < SumPoints(req.recipients) <= t.users[me].giveable
    ensures Consistent(PostCreated(t, me, req))
  {
    var t' := PostCreated(t, me, req);
    var total := SumPoints(req.recipients);
    RecognizeKeepsUsersOk(t.users, |t.companies|, me, req.recipients);
    TransactionsGrow(t.transactions, t.posts, t'.posts, t.comments, t.comments, |t.users|, |t.users|, t.clock, t'.clock);
    var x := PointsTransaction(Some(me), Recognition, Some(|t.posts|), None, total, None, t.clock + 1);
    assert TransactionOk(x, t'.posts, t'.comments, |t'.users|, t'.clock);
    AppendEntry(t.recipients, t.transactions, |t.users|, x, req.recipients);
  }

  /**
   * create_post: every check runs before the first insert, so a rejected request
   * changes nothing; an accepted one stores the post, one recognition transaction
   * for the recipients' total and one row per allocation, and moves the points.
   */
  method CreatePost(db: Store, sub: string, req: PostRequest) returns (r: Result<nat, Error>)
    requires db.Valid()
    modifies db`users, db`posts, db`transactions, db`recipients, db`clock
    ensures db.Valid()
    ensures r.Err? <==> CreatePostRejection(old(db.users), sub, req).Some?
    ensures r.Err? ==> r.error == CreatePostRejection(old(db.users), sub, req).value
    ensures r.Err? ==> db.Snapshot() == old(db.Snapshot())
    ensures r.Ok? ==> CurrentActiveUser(old(db.users), sub).Ok? && Known(req.recipients, old(|db.users|))
    ensures r.Ok? ==>
      && r.value == old(|db.posts|)
      && db.Snapshot() == PostCreated(old(db.Snapshot()), CurrentActiveUser(old(db.users), sub).value, req)
      && TotalBalance(db.users) == old(TotalBalance(db.users))
  {
    var who := CurrentActiveUser(db.users, sub);
    if who.Err? {
      return Err(who.error);
    }
    var me := who.value;
    if !PostRequestValid(req) {
      return Err(InvalidRequest);
    }
    var total := SumPoints(req.recipients);
    if total > db.users[me].giveable {
      return Err(NotEnoughPoints);
    }
    var bad := FindIneligible(db.users, db.users[me].companyId, req.recipients);
    if bad.Some? {
      return Err(InvalidRecipient(req.recipients[bad.value].userId));
    }
    if total <= 0 {
      return Err(ConstraintViolated);
    }
    r := Publish(db, me, req);
  }

  /** The writes of create_post once its checks have passed: post, transaction, rows, balances. */
  method Publish(db: Store, me: nat, req: PostRequest) returns (r: Result<nat, Error>)
    requires db.Valid()
    requires me < |db.users| && Known(req.recipients, |db.users|) && RecipientsValid(req.recipients)
    requires 0 < SumPoints(req.recipients) <= db.users[me].giveable
    modifies db`users, db`posts, db`transactions, db`recipients, db`clock
    ensures db.Valid()
    ensures r == Ok(old(|db.posts|))
    ensures db.Snapshot() == PostCreated(old(db.Snapshot()), me, req)
    ensures TotalBalance(db.users) == old(TotalBalance(db.users))
  {
    ghost var before := db.Snapshot();
    var total := SumPoints(req.recipients);
    var postId := |db.posts|;
    db.posts := db.posts + [Post(me, req.content, total, db.clock)];
    db.clock := db.clock + 1;
    var tid := |db.transactions|;
    db.transactions := db.transactions + [PointsTransaction(Some(me), Recognition, Some(postId), None, total, None, db.clock)];
    db.clock := db.clock + 1;
    db.Distribute(tid, req.recipients);
    var sender := db.users[me];
    db.users := db.users[me := sender.(giveable := sender.giveable - total)];
    assert db.Snapshot() == PostCreated(before, me, req);
    PostCreatedConsistent(before, me, req);
    RecognizeConserves(before.users, me, req.recipients);
    return Ok(postId);
  }

  /** The author of post `p` exists and belongs to company `companyId` (the join on the author). */
  predicate PostInCompany(users: seq<User>, posts: seq<Post>, p: nat, companyId: int)
  {
    p < |posts| && posts[p].authorId < |users| && users[posts[p].authorId].companyId == companyId
  }

  /** Every post of the company, newest first. */
  function CompanyPosts(users: seq<User>, posts: seq<Post>, companyId: int): (r: seq<nat>)
    ensures forall k :: 0 <= k < |r| ==> PostInCompany(users, posts, r[k], companyId)
    ensures forall p :: 0 <= p < |posts| && PostInCompany(users, posts, p, companyId) ==> p in r
    ensures forall j, k :: 0 <= j < k < |r| ==> r[j] > r[k]
  {
    Descending(|posts|, (p: nat) => PostInCompany(users, posts, p, companyId))
  }

  /** Creation times increase along the table, so the listing is newest first. */
  lemma CompanyPostsNewestFirst(users: seq<User>, posts: seq<Post>, companyId: int)
    requires forall i, j :: 0 <= i < j < |posts| ==> posts[i].createdAt < posts[j].createdAt
    ensures var r := CompanyPosts(users, posts, companyId);
      forall j, k :: 0 <= j < k < |r| ==> posts[r[j]].createdAt > posts[r[k]].createdAt
  {
  }

  /**
   * read_company_posts: 403 for another company; otherwise the company's posts,
   * newest first, after skipping `skip`, at most `limit`.
   */
  function ReadCompanyPosts(users: seq<User>, posts: seq<Post>, sub: string, companyId: int, skip: int, limit: int)
    : (r: Result<seq<nat>, Error>)
    ensures CurrentActiveUser(users, sub).Err? ==> r == Err(CurrentActiveUser(users, sub).error)
    ensures CurrentActiveUser(users, sub).Ok? && users[CurrentActiveUser(users, sub).value].companyId != companyId ==>
      r == Err(OtherCompany)
    ensures r.Ok? <==>
      CurrentActiveUser(users, sub).Ok? && users[CurrentActiveUser(users, sub).value].companyId == companyId &&
      skip >= 0 && limit >= 0
    ensures r.Ok? ==> |r.value| <= limit && forall k :: 0 <= k < |r.value| ==> PostInCompany(users, posts, r.value[k], companyId)
    ensures r.Ok? ==> r.value == Page(CompanyPosts(users, posts, companyId), skip, limit)
  {
    match CurrentActiveUser(users, sub)
    case Err(e) => Err(e)
    case Ok(me) =>
      if users[me].companyId != companyId then Err(OtherCompany)
      else Paginate(CompanyPosts(users, posts, companyId), skip, limit)
  }

  /** Every post's author exists (the author foreign key). */
  predicate AuthorsKnown(users: seq<User>, posts: seq<Post>)
  {
    forall p :: 0 <= p < |posts| ==> posts[p].authorId < |users|
  }

  /** The answer of like_post, in the order of its checks, or None when the like is added. */
  ghost function LikePostRejection(users: seq<User>, posts: seq<Post>, likes: seq<Like>, sub: string, postId: int): Option<Error>
    requires AuthorsKnown(users, posts)
  {
    match CurrentActiveUser(users, sub)
    case Err(e) => Some(e)
    case Ok(me) =>
      if !(0 <= postId < |posts|) then Some(PostNotFound)
      else if users[posts[postId].authorId].companyId != users[me].companyId then Some(OtherCompany)
      else if Like(postId, me) in likes then Some(AlreadyLiked)
      else None
  }

  /** like_post: adds exactly the (post, user) pair; balances and posts are outside its frame. */
  method LikePost(db: Store, sub: string, postId: int) returns (r: Result<nat, Error>)
    requires db.Valid()
    modifies db`postLikes
    ensures db.Valid()
    ensures r.Err? <==> LikePostRejection(old(db.users), old(db.posts), old(db.postLikes), sub, postId).Some?
    ensures r.Err? ==>
      r.error == LikePostRejection(old(db.users), old(db.posts), old(db.postLikes), sub, postId).value &&
      db.postLikes == old(db.postLikes)
    ensures r.Ok? ==>
      && CurrentActiveUser(old(db.users), sub).Ok? && r.value == postId
      && db.postLikes == old(db.postLikes) + [Like(postId, CurrentActiveUser(old(db.users), sub).value)]
  {
    var who := CurrentActiveUser(db.users, sub);
    if who.Err? {
      return Err(who.error);
    }
    var me := who.value;
    if !(0 <= postId < |db.posts|) {
      return Err(PostNotFound);
    }
    var author := db.users[db.posts[postId].authorId];
    if author.companyId != db.users[me].companyId {
      return Err(OtherCompany);
    }
    if Like(postId, me) in db.postLikes {
      return Err(AlreadyLiked);
    }
    AddKeepsLikesOk(db.postLikes, Like(postId, me), |db.posts|, |db.users|);
    db.postLikes := db.postLikes + [Like(postId, me)];
    return Ok(postId);
  }

  /** A like just added makes the same request fail with AlreadyLiked. */
  lemma LikePostTwice(users: seq<User>, posts: seq<Post>, likes: seq<Like>, sub: string, postId: int)
    requires AuthorsKnown(users, posts)
    requires LikePostRejection(users, posts, likes, sub, postId).None?
    ensures CurrentActiveUser(users, sub).Ok? && 0 <= postId
    ensures LikePostRejection(users, posts, likes + [Like(postId, CurrentActiveUser(users, sub).value)], sub, postId) ==
      Some(AlreadyLiked)
  {
  }

  /** The answer of unlike_post: only the existence of the like is checked, not the company. */
  ghost function UnlikeRejection(users: seq<User>, likes: seq<Like>, sub: string, targetId: int): Option<Error>
  {
    match CurrentActiveUser(users, sub)
    case Err(e) => Some(e)
    case Ok(me) => if targetId < 0 || Like(targetId, me) !in likes then Some(NotLiked) else None
  }

  /** unlike_post: removes exactly the (post, user) pair. */
  method UnlikePost(db: Store, sub: string, postId: int) returns (r: Result<nat, Error>)
    requires db.Valid()
    modifies db`postLikes
    ensures db.Valid()
    ensures r.Err? <==> UnlikeRejection(old(db.users), old(db.postLikes), sub, postId).Some?
    ensures r.Err? ==>
      r.error == UnlikeRejection(old(db.users), old(db.postLikes), sub, postId).value && db.postLikes == old(db.postLikes)
    ensures r.Ok? ==>
      && CurrentActiveUser(old(db.users), sub).Ok? && r.value == postId
      && db.postLikes == Remove(old(db.postLikes), Like(postId, CurrentActiveUser(old(db.users), sub).value))
      && |db.postLikes| == old(|db.postLikes|) - 1
  {
    var who := CurrentActiveUser(db.users, sub);
    if who.Err? {
      return Err(who.error);
    }
    var me := who.value;
    if postId < 0 || Like(postId, me) !in db.postLikes {
      return Err(NotLiked);
    }
    db.postLikes := Remove(db.postLikes, Like(postId, me));
    RemoveKeepsLikesOk(old(db.postLikes), Like(postId, me), |db.posts|, |db.users|);
    return Ok(postId);
  }
}
