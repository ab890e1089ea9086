/** The endpoints of app/api/v1/endpoints/auth.py. */
module Auth {
  import opened Wrappers
  import opened Errors
  import opened Constants
  import opened Models
  import opened Schemas
  import opened Deps
  import opened Db

  /** The error of create_user, or None: request validation, then the email check. */
  function SignupRejection(users: seq<User>, req: SignupRequest): (r: Option<Error>)
    ensures r.None? <==> SignupValid(req) && forall i :: 0 <= i < |users| ==> users[i].email != req.email
    ensures SignupValid(req) && r.Some? ==> r == Some(EmailRegistered)
  {
    if !SignupValid(req) then Some(InvalidRequest)
    else if FindByEmail(users, req.email).Some? then Some(EmailRegistered)
    else None
  }

  /** No user row, soft-deleted or not, belongs to company `companyId`. */
  predicate NoMembers(users: seq<User>, companyId: nat)
  {
    forall i :: 0 <= i < |users| ==> users[i].companyId != companyId
  }

  /** The company a signup joins: the one with that name, or a new last row. */
  function SignupCompany(companies: seq<Company>, name: string): (c: nat)
    ensures c <= |companies|
    ensures c < |companies| <==> exists i :: 0 <= i < |companies| && companies[i].name == name
    ensures c < |companies| ==> companies[c].name == name
  {
    match FindCompany(companies, name)
    case Some(i) => i
    case None => |companies|
  }

  /** The tables after a signup: get-or-create the company, then append the new user. */
  function SignedUp(t: Tables, req: SignupRequest, hash: string -> string): (r: Tables)
    ensures r.(users := t.users, companies := t.companies) == t
  {
    var c := SignupCompany(t.companies, req.companyName);
    var companies := if c < |t.companies| then t.companies else t.companies + [Company(req.companyName)];
    var role := if NoMembers(t.users, c) then Admin else Member;
    var user := User(req.fullName, req.email, hash(req.password), c, role,
                     InitialGiveablePoints, InitialRedeemablePoints, false);
    t.(users := t.users + [user], companies := companies)
  }

  /**
   * The user signed up is the company's admin exactly when no earlier row belongs to
   * it, which is always so for a new company; it starts with the initial balances.
   */
  lemma SignupRole(t: Tables, req: SignupRequest, hash: string -> string)
    requires Consistent(t)
    ensures var r := SignedUp(t, req, hash); var u := r.users[|t.users|];
      && |r.users| == |t.users| + 1 && r.users[..|t.users|] == t.users
      && u.fullName == req.fullName && u.email == req.email && u.passwordHash == hash(req.password) && !u.deleted
      && r.companies[u.companyId].name == req.companyName
      && (u.role == Admin <==> NoMembers(t.users, u.companyId))
      && ((forall i :: 0 <= i < |t.companies| ==> t.companies[i].name != req.companyName) ==> u.role == Admin)
      && u.giveable == InitialGiveablePoints && u.redeemable == InitialRedeemablePoints
  {
    var r := SignedUp(t, req, hash);
    assert r.users[..|t.users|] == t.users;
    var c := SignupCompany(t.companies, req.companyName);
    if c == |t.companies| {
      assert NoMembers(t.users, c) by {
        forall i | 0 <= i < |t.users| ensures t.users[i].companyId != c {
          assert UserRowOk(t.users[i], |t.companies|);
        }
      }
    }
  }

  /** A signup with an unused email keeps every table constraint, company names included. */
  lemma SignupConsistent(t: Tables, req: SignupRequest, hash: string -> string)
    requires Consistent(t) && SignupRejection(t.users, req).None?
    ensures Consistent(SignedUp(t, req, hash))
  {
    var r := SignedUp(t, req, hash);
    var c := SignupCompany(t.companies, req.companyName);
    assert |r.companies| >= |t.companies| && r.companies[..|t.companies|] == t.companies;
    forall i | 0 <= i < |r.users| ensures UserRowOk(r.users[i], |r.companies|) {
      if i < |t.users| {
        assert r.users[i] == t.users[i];
      }
    }
    forall i, j | 0 <= i < j < |r.companies| ensures r.companies[i].name != r.companies[j].name {
      if j >= |t.companies| {
        assert r.companies[i] == t.companies[i];
      }
    }
  }

  /** create_user: inserts the company when it is new, then the user. */
  method CreateUser(db: Store, req: SignupRequest, hash: string -> string) returns (r: Result<nat, Error>)
    requires db.Valid()
    modifies db`users, db`companies
    ensures db.Valid()
    ensures r.Err? <==> SignupRejection(old(db.users), req).Some?
    ensures r.Err? ==> r.error == SignupRejection(old(db.users), req).value && db.Snapshot() == old(db.Snapshot())
    ensures r.Ok? ==> r.value == old(|db.users|) && db.Snapshot() == SignedUp(old(db.Snapshot()), req, hash)
  {
    if !SignupValid(req) {
      return Err(InvalidRequest);
    }
    var holder := FindByEmail(db.users, req.email);
    if holder.Some? {
      return Err(EmailRegistered);
    }
    ghost var before := db.Snapshot();
    var found := FindCompany(db.companies, req.companyName);
    var c: nat;
    if found.Some? {
      c := found.value;
    } else {
      c := |db.companies|;
      db.companies := db.companies + [Company(req.companyName)];
    }
    var first := true;
    var i := 0;
    while i < |db.users|
      invariant 0 <= i <= |db.users|
      invariant first <==> forall k :: 0 <= k < i ==> db.users[k].companyId != c
    {
      if db.users[i].companyId == c {
        first := false;
      }
      i := i + 1;
    }
    var role := if first then Admin else Member;
    r := Ok(|db.users|);
    db.users := db.users + [User(req.fullName, req.email, hash(req.password), c, role,
                                 InitialGiveablePoints, InitialRedeemablePoints, false)];
    assert db.Snapshot() == SignedUp(before, req, hash);
    SignupConsistent(before, req, hash);
  }

  /**
   * login: an unknown email and a wrong password give the same answer; a soft-deleted
   * user with the right password is refused as inactive.  On success, the user whose
   * id becomes the token's subject.
   */
  function Login(users: seq<User>, email: string, password: string, verify: (string, string) -> bool)
    : (r: Result<nat, Error>)
    requires EmailsUnique(users)
    ensures r.Ok? <==> exists i :: 0 <= i < |users| && users[i].email == email &&
                                   verify(password, users[i].passwordHash) && !users[i].deleted
    ensures r.Ok? ==> r.value < |users| && users[r.value].email == email
    ensures r.Err? ==> r.error == IncorrectLogin || r.error == InactiveLogin
    ensures r == Err(InactiveLogin) <==> exists i :: 0 <= i < |users| && users[i].email == email &&
                                                  verify(password, users[i].passwordHash) && users[i].deleted
  {
    match FindByEmail(users, email)
    case None => Err(IncorrectLogin)
    case Some(i) =>
      if !verify(password, users[i].passwordHash) then Err(IncorrectLogin)
      else if users[i].deleted then Err(InactiveLogin)
      else Ok(i)
  }

  /** The subject of a token issued by login authenticates as the same, active user. */
  lemma LoginAuthenticates(users: seq<User>, email: string, password: string, verify: (string, string) -> bool)
    requires EmailsUnique(users)
    requires Login(users, email, password, verify).Ok?
    ensures var id := Login(users, email, password, verify).value;
      CurrentActiveUser(users, Decimal(id)) == if id < Pow10(MaxStrDigits) then Ok(id) else Err(MalformedSubject)
  {
    SubjectOfIdAuthenticates(users, Login(users, email, password, verify).value);
  }

  /** test_token: the subject's user, soft-deleted or not. */
  function TestToken(users: seq<User>, sub: string): (r: Result<User, Error>)
    ensures r.Err? <==> CurrentUser(users, sub).Err?
    ensures r.Err? ==> r.error == CurrentUser(users, sub).error
    ensures r.Ok? ==> r.value == users[CurrentUser(users, sub).value]
  {
    match CurrentUser(users, sub)
    case Err(e) => Err(e)
    case Ok(id) => Ok(users[id])
  }
}
