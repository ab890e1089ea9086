/**
 * The authentication dependencies of app/api/deps.py, after the token's signature
 * has been checked: the subject string is turned into a user id the way Python's
 * int() does, the user is looked up, and the active and admin guards inspect it.
 */
module Deps {
  import opened Wrappers
  import opened Errors
  import opened Constants
  import opened Models

  /** The ASCII whitespace int() strips around its argument. */
  predicate IsSpace(c: char)
  {
    c == ' ' || c == '\t' || c == '\n' || c == '\r' || c == 11 as char || c == 12 as char
  }

  predicate IsDigit(c: char)
  {
    '0' <= c <= '9'
  }

  function TrimStart(s: string): (r: string)
    ensures r != [] ==> !IsSpace(r[0])
    ensures |r| <= |s| && r == s[|s| - |r|..]
    ensures forall i :: 0 <= i < |s| - |r| ==> IsSpace(s[i])
  {
    if s != [] && IsSpace(s[0]) then TrimStart(s[1..]) else s
  }

  function TrimEnd(s: string): (r: string)
    ensures r != [] ==> !IsSpace(r[|r| - 1])
    ensures |r| <= |s| && r == s[..|r|]
    ensures forall i :: |r| <= i < |s| ==> IsSpace(s[i])
  {
    if s != [] && IsSpace(s[|s| - 1]) then TrimEnd(s[..|s| - 1]) else s
  }

  /** Decimal digits, with single underscores allowed between two digits. */
  predicate DigitsWellFormed(s: string)
  {
    && s != []
    && forall i :: 0 <= i < |s| ==>
         IsDigit(s[i]) || (s[i] == '_' && 0 < i < |s| - 1 && IsDigit(s[i - 1]) && IsDigit(s[i + 1]))
  }

  function DigitsValue(s: string): nat
  {
    if s == [] then 0
    else if IsDigit(s[|s| - 1]) then DigitsValue(s[..|s| - 1]) * 10 + (s[|s| - 1] as int - '0' as int)
    else DigitsValue(s[..|s| - 1])
  }

  /** int(s) for an ASCII string: None is the ValueError. */
  function ParseInt(s: string): Option<int>
  {
    var t := TrimEnd(TrimStart(s));
    if t != [] && (t[0] == '+' || t[0] == '-') then
      match ParseDigits(t[1..])
      case None => None
      case Some(magnitude) => Some(if t[0] == '-' then -magnitude else magnitude)
    else ParseDigits(t)
  }

  /**
   * CPython's default limit on the digits int() converts from a decimal string
   * (sys.int_info.default_max_str_digits); underscores do not count.
   */
  const MaxStrDigits: nat := 4300

  /** The value of the digits of `s`, or None once more than `budget` digits are read; underscores do not count. */
  function BoundedValue(s: string, budget: nat): Option<nat>
  {
    if s == [] then Some(0)
    else if IsDigit(s[|s| - 1]) then
      if budget == 0 then None
      else match BoundedValue(s[..|s| - 1], budget - 1)
        case None => None
        case Some(v) => Some(v * 10 + (s[|s| - 1] as int - '0' as int))
    else BoundedValue(s[..|s| - 1], budget)
  }

  /**
   * The unsigned part of int(): well-formed digits and their value; more digits than
   * the limit is a ValueError like any malformed string.
   */
  function ParseDigits(t: string): Option<int>
  {
    if DigitsWellFormed(t) then BoundedValue(t, MaxStrDigits) else None
  }

  /** On a run of digits the bounded value is the value, as long as the run fits the budget. */
  lemma {:induction false} BoundedRun(s: string, budget: nat)
    requires forall i :: 0 <= i < |s| ==> IsDigit(s[i])
    ensures BoundedValue(s, budget) == if |s| <= budget then Some(DigitsValue(s)) else None
  {
    if s != [] && budget > 0 {
      BoundedRun(s[..|s| - 1], budget - 1);
    }
  }

  /** str(n): the subject a token issued for user n carries. */
  function Decimal(n: nat): (s: string)
    ensures s != [] && forall i :: 0 <= i < |s| ==> IsDigit(s[i])
  {
    if n < 10 then ['0' + n as char] else Decimal(n / 10) + ['0' + (n % 10) as char]
  }

  lemma {:induction false} DecimalValue(n: nat)
    ensures DigitsValue(Decimal(n)) == n
  {
    if n >= 10 {
      var s := Decimal(n);
      assert s[..|s| - 1] == Decimal(n / 10);
      DecimalValue(n / 10);
    }
  }

  /** Nothing to strip at the front of a string that starts with no space. */
  lemma TrimStartKeeps(s: string)
    requires s != [] && !IsSpace(s[0])
    ensures TrimStart(s) == s
  {
  }

  /** Nothing to strip at the back of a string that ends with no space. */
  lemma TrimEndKeeps(s: string)
    requires s != [] && !IsSpace(s[|s| - 1])
    ensures TrimEnd(s) == s
  {
  }

  /** Without surrounding whitespace or a sign, int() reads the digits alone. */
  lemma UnsignedParse(s: string)
    requires s != [] && s[0] != '+' && s[0] != '-' && TrimStart(s) == s && TrimEnd(s) == s
    ensures ParseInt(s) == ParseDigits(s)
  {
  }

  /** A non-empty string of digits within the limit parses to its value; a longer one is refused. */
  lemma DigitsParse(s: string)
    requires s != [] && forall i :: 0 <= i < |s| ==> IsDigit(s[i])
    ensures ParseInt(s) == if |s| <= MaxStrDigits then Some(DigitsValue(s)) else None
  {
    assert IsDigit(s[0]) && IsDigit(s[|s| - 1]);
    TrimStartKeeps(s);
    TrimEndKeeps(s);
    UnsignedParse(s);
    BoundedRun(s, MaxStrDigits);
    assert DigitsWellFormed(s);
  }

  function Pow10(k: nat): (p: nat)
    ensures p >= 1
  {
    if k == 0 then 1 else 10 * Pow10(k - 1)
  }

  /** str(n) has at most k digits exactly when n < 10^k. */
  lemma {:induction false} DecimalLength(n: nat, k: nat)
    requires k >= 1
    ensures |Decimal(n)| <= k <==> n < Pow10(k)
  {
    if n >= 10 {
      assert |Decimal(n)| == |Decimal(n / 10)| + 1;
      if k == 1 {
        assert Pow10(1) == 10;
      } else {
        DecimalLength(n / 10, k - 1);
        assert n / 10 < Pow10(k - 1) <==> n < 10 * Pow10(k - 1);
      }
    } else {
      assert Pow10(k) == 10 * Pow10(k - 1);
    }
  }

  /** Parsing the decimal form of an id gives the id back, for every id below 10^4300. */
  lemma ParseDecimal(n: nat)
    ensures ParseInt(Decimal(n)) == if n < Pow10(MaxStrDigits) then Some(n) else None
  {
    DigitsParse(Decimal(n));
    DecimalValue(n);
    DecimalLength(n, MaxStrDigits);
  }

  /** get_current_user: 401 for a subject that is no integer, 404 for one naming no user. */
  function CurrentUser(users: seq<User>, sub: string): (r: Result<nat, Error>)
    ensures r.Ok? <==> ParseInt(sub).Some? && 0 <= ParseInt(sub).value < |users|
    ensures r.Ok? ==> r.value == ParseInt(sub).value
    ensures r.Err? ==> r.error == if ParseInt(sub).None? then MalformedSubject else UserNotFound
  {
    match ParseInt(sub)
    case None => Err(MalformedSubject)
    case Some(id) => if 0 <= id < |users| then Ok(id) else Err(UserNotFound)
  }

  /** get_current_active_user: rejects a soft-deleted user, otherwise passes the same user on. */
  function CurrentActiveUser(users: seq<User>, sub: string): (r: Result<nat, Error>)
    ensures r.Ok? <==> CurrentUser(users, sub).Ok? && !users[CurrentUser(users, sub).value].deleted
    ensures r.Ok? ==> r == CurrentUser(users, sub) && !users[r.value].deleted
    ensures CurrentUser(users, sub).Err? ==> r == CurrentUser(users, sub)
    ensures CurrentUser(users, sub).Ok? && users[CurrentUser(users, sub).value].deleted ==> r == Err(InactiveUser)
  {
    match CurrentUser(users, sub)
    case Err(e) => Err(e)
    case Ok(id) => if users[id].deleted then Err(InactiveUser) else Ok(id)
  }

  /** get_current_admin_user: the active guard, then any role but admin is refused. */
  function CurrentAdminUser(users: seq<User>, sub: string): (r: Result<nat, Error>)
    ensures r.Ok? <==> CurrentActiveUser(users, sub).Ok? && users[CurrentActiveUser(users, sub).value].role == Admin
    ensures r.Ok? ==> r == CurrentActiveUser(users, sub) && users[r.value].role == Admin
    ensures CurrentActiveUser(users, sub).Err? ==> r == CurrentActiveUser(users, sub)
    ensures CurrentActiveUser(users, sub).Ok? && users[CurrentActiveUser(users, sub).value].role != Admin ==>
      r == Err(NotEnoughPrivileges)
  {
    match CurrentActiveUser(users, sub)
    case Err(e) => Err(e)
    case Ok(id) => if users[id].role != Admin then Err(NotEnoughPrivileges) else Ok(id)
  }

  /** The subject of a token issued for an existing user authenticates that user, and only that user. */
  lemma SubjectOfIdAuthenticates(users: seq<User>, id: nat)
    ensures id < Pow10(MaxStrDigits) && id < |users| ==> CurrentUser(users, Decimal(id)) == Ok(id)
    ensures id < Pow10(MaxStrDigits) && id >= |users| ==> CurrentUser(users, Decimal(id)) == Err(UserNotFound)
    ensures id >= Pow10(MaxStrDigits) ==> CurrentUser(users, Decimal(id)) == Err(MalformedSubject)
  {
    ParseDecimal(id);
  }

  /** get_current_user looks only at how many users there are: rewriting rows in place does not change whom a subject names. */
  lemma SubjectOnRewrite(users: seq<User>, users': seq<User>, sub: string)
    requires |users| == |users'|
    ensures CurrentUser(users', sub) == CurrentUser(users, sub)
  {
  }

  /** The subject of an existing user's id passes the active guard unless that user is deleted. */
  lemma SubjectOfIdActive(users: seq<User>, id: nat)
    requires id < |users|
    ensures CurrentActiveUser(users, Decimal(id)) ==
      if id >= Pow10(MaxStrDigits) then Err(MalformedSubject)
      else if users[id].deleted then Err(InactiveUser)
      else Ok(id)
  {
    SubjectOfIdAuthenticates(users, id);
  }
}
