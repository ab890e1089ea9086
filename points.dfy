/** The endpoints of app/api/v1/endpoints/points.py. */
module Points {
  import opened Wrappers
  import opened Errors
  import opened Constants
  import opened Models
  import opened Schemas
  import opened Ledger
  import opened Listing
  import opened Deps
  import opened Db

  /** get_points_balance: the caller's (giveable, redeemable) balances. */
  function PointsBalance(users: seq<User>, sub: string): (r: Result<(int, int), Error>)
    ensures r.Err? <==> CurrentActiveUser(users, sub).Err?
    ensures r.Err? ==> r.error == CurrentActiveUser(users, sub).error
    ensures r.Ok? ==> var u := users[CurrentActiveUser(users, sub).value];
      r.value == (u.giveable, u.redeemable)
  {
    match CurrentActiveUser(users, sub)
    case Err(e) => Err(e)
    case Ok(me) => Ok((users[me].giveable, users[me].redeemable))
  }

  /** Every transaction sent by `me`, newest first. */
  function Sent(txs: seq<PointsTransaction>, me: nat): (r: seq<nat>)
    ensures forall k :: 0 <= k < |r| ==> r[k] < |txs| && txs[r[k]].senderId == Some(me)
    ensures forall t :: 0 <= t < |txs| && txs[t].senderId == Some(me) ==> t in r
    ensures forall j, k :: 0 <= j < k < |r| ==> r[j] > r[k]
  {
    Descending(|txs|, (t: nat) => t < |txs| && txs[t].senderId == Some(me))
  }

  /** Creation times increase along the table, so the sent listing is newest first. */
  lemma SentNewestFirst(txs: seq<PointsTransaction>, me: nat)
    requires forall i, j :: 0 <= i < j < |txs| ==> txs[i].createdAt < txs[j].createdAt
    ensures var r := Sent(txs, me);
      forall j, k :: 0 <= j < k < |r| ==> txs[r[j]].createdAt > txs[r[k]].createdAt
  {
  }

  /** get_sent_points_history: one page of the caller's sent transactions. */
  function SentHistory(users: seq<User>, txs: seq<PointsTransaction>, sub: string, skip: int, limit: int)
    : (r: Result<seq<nat>, Error>)
    ensures CurrentActiveUser(users, sub).Err? ==> r == Err(CurrentActiveUser(users, sub).error)
    ensures r.Ok? <==> CurrentActiveUser(users, sub).Ok? && skip >= 0 && limit >= 0
    ensures r.Ok? ==> r.value == Page(Sent(txs, CurrentActiveUser(users, sub).value), skip, limit)
  {
    match CurrentActiveUser(users, sub)
    case Err(e) => Err(e)
    case Ok(me) => Paginate(Sent(txs, me), skip, limit)
  }

  /** The recipient rows naming `me`, last written first. */
  function RowsNaming(rows: seq<PointsRecipient>, me: nat): (r: seq<nat>)
    ensures forall k :: 0 <= k < |r| ==> r[k] < |rows| && rows[r[k]].recipientId == me
    ensures forall i :: 0 <= i < |rows| && rows[i].recipientId == me ==> i in r
    ensures forall j, k :: 0 <= j < k < |r| ==> r[j] > r[k]
  {
    Descending(|rows|, (i: nat) => i < |rows| && rows[i].recipientId == me)
  }

  /**
   * The transactions joined to the rows naming `me`: one entry per such row, so a
   * transaction that lists the user twice is listed twice.
   */
  function Received(rows: seq<PointsRecipient>, me: nat): (r: seq<nat>)
    ensures var named := RowsNaming(rows, me);
      |r| == |named| && forall k :: 0 <= k < |r| ==> r[k] == rows[named[k]].transactionId
    ensures forall t :: t in r <==> exists i :: 0 <= i < |rows| && rows[i].recipientId == me && rows[i].transactionId == t
  {
    var named := RowsNaming(rows, me);
    var r := seq(|named|, k requires 0 <= k < |named| => rows[named[k]].transactionId);
    JoinedTransactions(rows, me, named, r);
    r
  }

  /** Projecting the rows that name `me` onto their transaction ids finds exactly the transactions naming `me`. */
  lemma JoinedTransactions(rows: seq<PointsRecipient>, me: nat, named: seq<nat>, r: seq<nat>)
    requires forall k :: 0 <= k < |named| ==> named[k] < |rows| && rows[named[k]].recipientId == me
    requires forall i :: 0 <= i < |rows| && rows[i].recipientId == me ==> i in named
    requires |r| == |named| && forall k :: 0 <= k < |r| ==> r[k] == rows[named[k]].transactionId
    ensures forall t :: t in r <==> exists i :: 0 <= i < |rows| && rows[i].recipientId == me && rows[i].transactionId == t
  {
    forall t | t in r ensures exists i :: 0 <= i < |rows| && rows[i].recipientId == me && rows[i].transactionId == t {
      var k :| 0 <= k < |r| && r[k] == t;
      assert rows[named[k]].transactionId == t;
    }
    forall i | 0 <= i < |rows| && rows[i].recipientId == me ensures rows[i].transactionId in r {
      var k :| 0 <= k < |named| && named[k] == i;
      assert r[k] == rows[i].transactionId;
    }
  }

  /**
   * Rows are written in transaction order and transactions in creation order, so
   * the received listing never goes from older to newer.
   */
  lemma ReceivedNewestFirst(rows: seq<PointsRecipient>, txs: seq<PointsTransaction>, nUsers: nat, posts: seq<Post>,
                            comments: seq<Comment>, clock: nat, me: nat)
    requires RecipientsOk(rows, txs, nUsers) && TransactionsOk(txs, posts, comments, nUsers, clock)
    ensures var r := Received(rows, me);
      && (forall k :: 0 <= k < |r| ==> r[k] < |txs|)
      && (forall j, k :: 0 <= j < k < |r| ==> txs[r[j]].createdAt >= txs[r[k]].createdAt)
  {
    var named := RowsNaming(rows, me);
    var r := Received(rows, me);
    assert |r| == |named|;
    forall k | 0 <= k < |r| ensures r[k] == rows[named[k]].transactionId && r[k] < |txs| {
    }
    forall j, k | 0 <= j < k < |r| ensures txs[r[j]].createdAt >= txs[r[k]].createdAt {
      assert named[k] < named[j];
      assert r[k] <= r[j];
    }
  }

  /** get_received_points_history: one page of the transactions naming the caller. */
  function ReceivedHistory(users: seq<User>, rows: seq<PointsRecipient>, sub: string, skip: int, limit: int)
    : (r: Result<seq<nat>, Error>)
    ensures CurrentActiveUser(users, sub).Err? ==> r == Err(CurrentActiveUser(users, sub).error)
    ensures r.Ok? <==> CurrentActiveUser(users, sub).Ok? && skip >= 0 && limit >= 0
    ensures r.Ok? ==> r.value == Page(Received(rows, CurrentActiveUser(users, sub).value), skip, limit)
  {
    match CurrentActiveUser(users, sub)
    case Err(e) => Err(e)
    case Ok(me) => Paginate(Received(rows, me), skip, limit)
  }

  /** The sender of transaction `t` exists and is in company `companyId` (the join on the sender). */
  predicate SentFromCompany(users: seq<User>, txs: seq<PointsTransaction>, t: nat, companyId: int)
  {
    t < |txs| && txs[t].senderId.Some? && txs[t].senderId.value < |users| &&
    users[txs[t].senderId.value].companyId == companyId
  }

  /** Every transaction sent from the company, newest first; unsent ones are not joined. */
  function CompanyLedger(users: seq<User>, txs: seq<PointsTransaction>, companyId: int): (r: seq<nat>)
    ensures forall k :: 0 <= k < |r| ==> SentFromCompany(users, txs, r[k], companyId)
    ensures forall t :: 0 <= t < |txs| && SentFromCompany(users, txs, t, companyId) ==> t in r
    ensures forall j, k :: 0 <= j < k < |r| ==> r[j] > r[k]
  {
    Descending(|txs|, (t: nat) => SentFromCompany(users, txs, t, companyId))
  }

  /** Creation times increase along the table, so the company listing is newest first. */
  lemma CompanyLedgerNewestFirst(users: seq<User>, txs: seq<PointsTransaction>, companyId: int)
    requires forall i, j :: 0 <= i < j < |txs| ==> txs[i].createdAt < txs[j].createdAt
    ensures var r := CompanyLedger(users, txs, companyId);
      forall j, k :: 0 <= j < k < |r| ==> txs[r[j]].createdAt > txs[r[k]].createdAt
  {
  }

  /** get_company_transactions: admins only, own company only. */
  function CompanyTransactions(users: seq<User>, txs: seq<PointsTransaction>, sub: string, companyId: int,
                               skip: int, limit: int): (r: Result<seq<nat>, Error>)
    ensures CurrentAdminUser(users, sub).Err? ==> r == Err(CurrentAdminUser(users, sub).error)
    ensures (CurrentAdminUser(users, sub).Ok? && users[CurrentAdminUser(users, sub).value].companyId != companyId) ==>
      r == Err(OtherCompany)
    ensures r.Ok? <==>
      CurrentAdminUser(users, sub).Ok? && users[CurrentAdminUser(users, sub).value].companyId == companyId &&
      skip >= 0 && limit >= 0
    ensures r.Ok? ==> r.value == Page(CompanyLedger(users, txs, companyId), skip, limit)
  {
    match CurrentAdminUser(users, sub)
    case Err(e) => Err(e)
    case Ok(admin) =>
      if users[admin].companyId != companyId then Err(OtherCompany)
      else Paginate(CompanyLedger(users, txs, companyId), skip, limit)
  }

  /**
   * The error of create_admin_adjustment, or None.  A zero adjustment is refused by
   * the points > 0 check on the transaction, before anything is stored.
   */
  ghost function AdjustmentRejection(users: seq<User>, sub: string, userId: int, points: int): Option<Error>
  {
    match CurrentAdminUser(users, sub)
    case Err(e) => Some(e)
    case Ok(admin) =>
      if !(0 <= userId < |users|) then Some(UserNotFound)
      else if users[userId].companyId != users[admin].companyId then Some(OtherCompany)
      else if points == 0 then Some(ConstraintViolated)
      else None
  }

  /** The tables after `admin` adjusts `target`'s giveable balance by `points`. */
  ghost function AdjustmentMade(t: Tables, admin: nat, target: nat, points: int, notes: string): Tables
    requires target < |t.users|
  {
    var u := t.users[target];
    t.(users := t.users[target := u.(giveable := Adjusted(u.giveable, points))],
       transactions := t.transactions +
         [PointsTransaction(Some(admin), AdminAdjustment, None, None, Abs(points), Some(notes), t.clock)],
       recipients := t.recipients + [PointsRecipient(|t.transactions|, target, Abs(points))],
       clock := t.clock + 1)
  }

  /** An adjustment keeps every table constraint: in particular the balance never goes negative. */
  lemma AdjustmentConsistent(t: Tables, admin: nat, target: nat, points: int, notes: string)
    requires Consistent(t)
    requires admin < |t.users| && target < |t.users| && points != 0
    ensures Consistent(AdjustmentMade(t, admin, target, points, notes))
  {
    var t' := AdjustmentMade(t, admin, target, points, notes);
    assert UsersOk(t'.users, |t'.companies|) by {
      AdjustedBounds(t.users[target].giveable, points);
      assert forall i :: 0 <= i < |t.users| ==> t'.users[i].email == t.users[i].email;
    }
    assert TransactionsOk(t'.transactions, t'.posts, t'.comments, |t'.users|, t'.clock) by {
      TransactionsGrow(t.transactions, t.posts, t.posts, t.comments, t.comments, |t.users|, |t.users|, t.clock, t'.clock);
    }
    assert RecipientsOk(t'.recipients, t'.transactions, |t'.users|) by {
      var x := PointsTransaction(Some(admin), AdminAdjustment, None, None, Abs(points), Some(notes), t.clock);
      var rs := [RecipientRequest(target, Abs(points))];
      assert SumPoints(rs) == Abs(points) by {
        assert rs[..0] == [];
      }
      assert Rows(|t.transactions|, rs) == [PointsRecipient(|t.transactions|, target, Abs(points))];
      AppendEntry(t.recipients, t.transactions, |t.users|, x, rs);
    }
  }

  /**
   * create_admin_adjustment: records one adjustment transaction for |points| with
   * one row for the target, and moves the target's giveable balance.
   */
  method CreateAdminAdjustment(db: Store, sub: string, userId: int, points: int, notes: string)
    returns (r: Result<nat, Error>)
    requires db.Valid()
    modifies db`users, db`transactions, db`recipients, db`clock
    ensures db.Valid()
    ensures r.Err? <==> AdjustmentRejection(old(db.users), sub, userId, points).Some?
    ensures r.Err? ==> r.error == AdjustmentRejection(old(db.users), sub, userId, points).value
    ensures r.Err? ==> db.Snapshot() == old(db.Snapshot())
    ensures r.Ok? ==> CurrentAdminUser(old(db.users), sub).Ok? && 0 <= userId < old(|db.users|)
    ensures r.Ok? ==>
      && r.value == old(|db.transactions|)
      && db.Snapshot() == AdjustmentMade(old(db.Snapshot()), CurrentAdminUser(old(db.users), sub).value, userId, points, notes)
  {
    var who := CurrentAdminUser(db.users, sub);
    if who.Err? {
      return Err(who.error);
    }
    var admin := who.value;
    if !(0 <= userId < |db.users|) {
      return Err(UserNotFound);
    }
    var user := db.users[userId];
    if user.companyId != db.users[admin].companyId {
      return Err(OtherCompany);
    }
    if points == 0 {
      return Err(ConstraintViolated);
    }
    r := Adjust(db, admin, userId, points, notes);
  }

  /** The writes of create_admin_adjustment, once every check has passed. */
  method Adjust(db: Store, admin: nat, userId: nat, points: int, notes: string) returns (r: Result<nat, Error>)
    requires db.Valid()
    requires admin < |db.users| && userId < |db.users| && points != 0
    modifies db`users, db`transactions, db`recipients, db`clock
    ensures db.Valid()
    ensures r == Ok(old(|db.transactions|))
    ensures db.Snapshot() == AdjustmentMade(old(db.Snapshot()), admin, userId, points, notes)
  {
    ghost var before := db.Snapshot();
    var user := db.users[userId];
    var tid := |db.transactions|;
    db.transactions := db.transactions +
      [PointsTransaction(Some(admin), AdminAdjustment, None, None, Abs(points), Some(notes), db.clock)];
    db.clock := db.clock + 1;
    db.recipients := db.recipients + [PointsRecipient(tid, userId, Abs(points))];
    if points > 0 {
      db.users := db.users[userId := user.(giveable := user.giveable + points)];
    } else {
      db.users := db.users[userId := user.(giveable := if user.giveable + points > 0 then user.giveable + points else 0)];
    }
    assert db.Snapshot() == AdjustmentMade(before, admin, userId, points, notes);
    AdjustmentConsistent(before, admin, userId, points, notes);
    return Ok(tid);
  }

  /** A positive adjustment adds exactly `points`; a negative one removes at most |points|, and never below zero. */
  lemma AdjustmentEffect(t: Tables, admin: nat, target: nat, points: int, notes: string)
    requires target < |t.users| && t.users[target].giveable >= 0
    ensures var after := AdjustmentMade(t, admin, target, points, notes).users;
      && |after| == |t.users|
      && (forall i :: 0 <= i < |t.users| && i != target ==> after[i] == t.users[i])
      && after[target].redeemable == t.users[target].redeemable
      && (points > 0 ==> after[target].giveable == t.users[target].giveable + points)
      && (points <= 0 ==> after[target].giveable == if t.users[target].giveable + points > 0 then t.users[target].giveable + points else 0)
      && after[target].giveable >= 0
  {
    AdjustedBounds(t.users[target].giveable, points);
  }
}
