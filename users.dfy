/** The endpoints of app/api/v1/endpoints/users.py. */
module Users {
  import opened Wrappers
  import opened Errors
  import opened Constants
  import opened Models
  import opened Schemas
  import opened Deps
  import opened Db

  /** read_user_me: the caller's own row. */
  function ReadUserMe(users: seq<User>, sub: string): (r: Result<User, Error>)
    ensures r.Err? <==> CurrentActiveUser(users, sub).Err?
    ensures r.Err? ==> r.error == CurrentActiveUser(users, sub).error
    ensures r.Ok? ==> r.value == users[CurrentActiveUser(users, sub).value] && !r.value.deleted
  {
    match CurrentActiveUser(users, sub)
    case Err(e) => Err(e)
    case Ok(me) => Ok(users[me])
  }

  /**
   * The error of update_user_me, or None.  A new email is checked against the other
   * users only when it differs from the caller's; an explicit null password reaches
   * the hash function and fails, an explicit null name or email breaks NOT NULL.
   */
  ghost function UpdateRejection(users: seq<User>, sub: string, upd: UserUpdate): Option<Error>
  {
    match CurrentActiveUser(users, sub)
    case Err(e) => Some(e)
    case Ok(me) =>
      if !UpdateValid(upd) then Some(InvalidRequest)
      else if upd.email.Given? && upd.email.value != users[me].email && FindByEmail(users, upd.email.value).Some? then
        Some(EmailRegistered)
      else if upd.password.Null? then Some(InternalError)
      else if upd.fullName.Null? || upd.email.Null? then Some(ConstraintViolated)
      else None
  }

  /** The caller's row with every given field written; the password is stored hashed. */
  function Updated(u: User, upd: UserUpdate, hash: string -> string): (r: User)
    ensures r.fullName == if upd.fullName.Given? then upd.fullName.value else u.fullName
    ensures r.email == if upd.email.Given? then upd.email.value else u.email
    ensures r.passwordHash == if upd.password.Given? then hash(upd.password.value) else u.passwordHash
    ensures r.(fullName := u.fullName, email := u.email, passwordHash := u.passwordHash) == u
  {
    var named := if upd.fullName.Given? then u.(fullName := upd.fullName.value) else u;
    var mailed := if upd.email.Given? then named.(email := upd.email.value) else named;
    if upd.password.Given? then mailed.(passwordHash := hash(upd.password.value)) else mailed
  }

  /** An accepted update keeps emails unique and every other users-table constraint. */
  lemma UpdateKeepsUsersOk(users: seq<User>, nCompanies: nat, me: nat, upd: UserUpdate, hash: string -> string)
    requires UsersOk(users, nCompanies) && me < |users|
    requires upd.email.Given? && upd.email.value != users[me].email ==> FindByEmail(users, upd.email.value).None?
    ensures UsersOk(users[me := Updated(users[me], upd, hash)], nCompanies)
  {
    var after := users[me := Updated(users[me], upd, hash)];
    forall i, j | 0 <= i < j < |after| ensures after[i].email != after[j].email {
      assert users[i].email != users[j].email;
    }
  }

  /** Rewriting one user row, keeping its email and with valid balances and company, keeps every constraint. */
  lemma RowRewriteConsistent(t: Tables, i: nat, u: User)
    requires Consistent(t) && i < |t.users|
    requires UserRowOk(u, |t.companies|) && u.email == t.users[i].email
    ensures Consistent(t.(users := t.users[i := u]))
  {
    var users' := t.users[i := u];
    assert forall k :: 0 <= k < |users'| ==> users'[k].email == t.users[k].email;
  }

  /** update_user_me: writes the given fields of the caller's row and nothing else. */
  method UpdateUserMe(db: Store, sub: string, upd: UserUpdate, hash: string -> string) returns (r: Result<nat, Error>)
    requires db.Valid()
    modifies db`users
    ensures db.Valid()
    ensures r.Err? <==> UpdateRejection(old(db.users), sub, upd).Some?
    ensures r.Err? ==> r.error == UpdateRejection(old(db.users), sub, upd).value && db.users == old(db.users)
    ensures r.Ok? ==>
      && CurrentActiveUser(old(db.users), sub).Ok? && r.value == CurrentActiveUser(old(db.users), sub).value
      && db.users == old(db.users)[r.value := Updated(old(db.users)[r.value], upd, hash)]
  {
    var who := CurrentActiveUser(db.users, sub);
    if who.Err? {
      return Err(who.error);
    }
    var me := who.value;
    if !UpdateValid(upd) {
      return Err(InvalidRequest);
    }
    if upd.email.Given? && upd.email.value != db.users[me].email {
      var holder := FindByEmail(db.users, upd.email.value);
      if holder.Some? {
        return Err(EmailRegistered);
      }
    }
    if upd.password.Null? {
      return Err(InternalError);
    }
    if upd.fullName.Null? || upd.email.Null? {
      return Err(ConstraintViolated);
    }
    UpdateKeepsUsersOk(db.users, |db.companies|, me, upd, hash);
    db.users := db.users[me := Updated(db.users[me], upd, hash)];
    return Ok(me);
  }

  /** The active users of company `companyId`: the listing's rows, in no particular order. */
  function ActiveMembers(users: seq<User>, companyId: int): (r: set<nat>)
    ensures forall i: nat :: i in r <==> i < |users| && users[i].companyId == companyId && !users[i].deleted
  {
    set i: nat | i < |users| && users[i].companyId == companyId && !users[i].deleted
  }

  /** read_users_by_company: own company only; soft-deleted users are not listed. */
  function ReadUsersByCompany(users: seq<User>, sub: string, companyId: int): (r: Result<set<nat>, Error>)
    ensures CurrentActiveUser(users, sub).Err? ==> r == Err(CurrentActiveUser(users, sub).error)
    ensures r.Ok? <==>
      CurrentActiveUser(users, sub).Ok? && users[CurrentActiveUser(users, sub).value].companyId == companyId
    ensures r.Err? && CurrentActiveUser(users, sub).Ok? ==> r.error == OtherCompany
    ensures r.Ok? ==> r.value == ActiveMembers(users, companyId) && CurrentActiveUser(users, sub).value in r.value
  {
    match CurrentActiveUser(users, sub)
    case Err(e) => Err(e)
    case Ok(me) => if users[me].companyId != companyId then Err(OtherCompany) else Ok(ActiveMembers(users, companyId))
  }

  /** The error of delete_user, or None. */
  function DeleteRejection(users: seq<User>, sub: string, userId: int): (r: Option<Error>)
    ensures r.None? <==>
      && CurrentAdminUser(users, sub).Ok? && 0 <= userId < |users|
      && users[userId].companyId == users[CurrentAdminUser(users, sub).value].companyId
      && userId != CurrentAdminUser(users, sub).value
  {
    match CurrentAdminUser(users, sub)
    case Err(e) => Some(e)
    case Ok(admin) =>
      if !(0 <= userId < |users|) then Some(UserNotFound)
      else if users[userId].companyId != users[admin].companyId then Some(OtherCompany)
      else if userId == admin then Some(CannotDeleteYourself)
      else None
  }

  /** delete_user: a soft delete; the row, its balances and its history stay. */
  method DeleteUser(db: Store, sub: string, userId: int) returns (r: Result<nat, Error>)
    requires db.Valid()
    modifies db`users
    ensures db.Valid()
    ensures r.Err? <==> DeleteRejection(old(db.users), sub, userId).Some?
    ensures r.Err? ==> r.error == DeleteRejection(old(db.users), sub, userId).value && db.users == old(db.users)
    ensures r.Ok? ==>
      0 <= userId < old(|db.users|) && r.value == userId &&
      db.users == old(db.users)[userId := old(db.users)[userId].(deleted := true)]
  {
    var who := CurrentAdminUser(db.users, sub);
    if who.Err? {
      return Err(who.error);
    }
    var admin := who.value;
    if !(0 <= userId < |db.users|) {
      return Err(UserNotFound);
    }
    var user := db.users[userId];
    if user.companyId != db.users[admin].companyId {
      return Err(OtherCompany);
    }
    if userId == admin {
      return Err(CannotDeleteYourself);
    }
    RowRewriteConsistent(db.Snapshot(), userId, user.(deleted := true));
    db.users := db.users[userId := user.(deleted := true)];
    return Ok(userId);
  }

    /** The deleted user's own subject no longer authenticates as an active user. */
  lemma DeletedSubjectRefused(users: seq<User>, sub: string, userId: int)
    requires DeleteRejection(users, sub, userId).None?
    ensures var after := users[userId := users[userId].(deleted := true)];
      && CurrentActiveUser(after, Decimal(userId)).Err?
      && (userId < Pow10(MaxStrDigits) ==> CurrentActiveUser(after, Decimal(userId)) == Err(InactiveUser))
  {
    SubjectOfIdActive(users[userId := users[userId].(deleted := true)], userId);
  }

  /** Deleting a user drops exactly that user from the company's active members. */
  lemma DeleteShrinksActiveMembers(users: seq<User>, sub: string, userId: int)
    requires DeleteRejection(users, sub, userId).None?
    ensures var after := users[userId := users[userId].(deleted := true)];
      ActiveMembers(after, users[userId].companyId) == ActiveMembers(users, users[userId].companyId) - {userId}
  {
    var after := users[userId := users[userId].(deleted := true)];
    var cid := users[userId].companyId;
    forall i: nat ensures i in ActiveMembers(after, cid) <==> i in ActiveMembers(users, cid) - {userId} {
      if i < |users| && i != userId {
        assert after[i] == users[i];
      }
    }
  }

  /** The admin who deletes another user still authenticates as before. */
  lemma DeleteKeepsCaller(users: seq<User>, sub: string, userId: int)
    requires DeleteRejection(users, sub, userId).None?
    ensures var after := users[userId := users[userId].(deleted := true)];
      CurrentActiveUser(after, sub) == CurrentActiveUser(users, sub)
  {
    var after := users[userId := users[userId].(deleted := true)];
    SubjectOnRewrite(users, after, sub);
    assert after[CurrentAdminUser(users, sub).value] == users[CurrentAdminUser(users, sub).value];
  }

/**
   * After a delete the user no longer authenticates, drops out of the company
   * listing, and every other user is as before.
   */
  lemma DeletedUserLocksOut(users: seq<User>, sub: string, userId: int)
    requires DeleteRejection(users, sub, userId).None?
    ensures var after := users[userId := users[userId].(deleted := true)];
      && CurrentActiveUser(after, Decimal(userId)).Err?
      && (userId < Pow10(MaxStrDigits) ==> CurrentActiveUser(after, Decimal(userId)) == Err(InactiveUser))
      && ActiveMembers(after, users[userId].companyId) == ActiveMembers(users, users[userId].companyId) - {userId}
      && CurrentActiveUser(after, sub) == CurrentActiveUser(users, sub)
  {
    DeletedSubjectRefused(users, sub, userId);
    DeleteShrinksActiveMembers(users, sub, userId);
    DeleteKeepsCaller(users, sub, userId);
  }

  /** The error of update_user_points, or None: the sign is checked before the lookup. */
  function PointsUpdateRejection(users: seq<User>, sub: string, userId: int, points: int): (r: Option<Error>)
    ensures r.None? <==>
      && CurrentAdminUser(users, sub).Ok? && points >= 0 && 0 <= userId < |users|
      && users[userId].companyId == users[CurrentAdminUser(users, sub).value].companyId
    ensures CurrentAdminUser(users, sub).Ok? && points < 0 ==> r == Some(NegativePoints)
  {
    match CurrentAdminUser(users, sub)
    case Err(e) => Some(e)
    case Ok(admin) =>
      if points < 0 then Some(NegativePoints)
      else if !(0 <= userId < |users|) then Some(UserNotFound)
      else if users[userId].companyId != users[admin].companyId then Some(OtherCompany)
      else None
  }

  /** update_user_points: sets the giveable balance outright, recording no transaction. */
  method UpdateUserPoints(db: Store, sub: string, userId: int, points: int) returns (r: Result<nat, Error>)
    requires db.Valid()
    modifies db`users
    ensures db.Valid()
    ensures r.Err? <==> PointsUpdateRejection(old(db.users), sub, userId, points).Some?
    ensures r.Err? ==> r.error == PointsUpdateRejection(old(db.users), sub, userId, points).value && db.users == old(db.users)
    ensures r.Ok? ==>
      0 <= userId < old(|db.users|) && r.value == userId &&
      db.users == old(db.users)[userId := old(db.users)[userId].(giveable := points)]
  {
    var who := CurrentAdminUser(db.users, sub);
    if who.Err? {
      return Err(who.error);
    }
    var admin := who.value;
    if points < 0 {
      return Err(NegativePoints);
    }
    if !(0 <= userId < |db.users|) {
      return Err(UserNotFound);
    }
    var user := db.users[userId];
    if user.companyId != db.users[admin].companyId {
      return Err(OtherCompany);
    }
    RowRewriteConsistent(db.Snapshot(), userId, user.(giveable := points));
    db.users := db.users[userId := user.(giveable := points)];
    return Ok(userId);
  }
}
