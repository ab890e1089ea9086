/**
 * The recipient check shared by create_post and create_comment: each requested
 * recipient must exist and belong to the sender's company.  Soft-deleted users
 * pass, and the sender may name themselves.
 */
module Recognition {
  import opened Wrappers
  import opened Models
  import opened Schemas
  import opened Ledger

  predicate Eligible(users: seq<User>, companyId: nat, id: int)
  {
    0 <= id < |users| && users[id].companyId == companyId
  }

  /** The position of the first ineligible recipient, which the handler reports. */
  function FirstIneligible(users: seq<User>, companyId: nat, rs: seq<RecipientRequest>): (r: Option<nat>)
    ensures r.None? <==> forall k :: 0 <= k < |rs| ==> Eligible(users, companyId, rs[k].userId)
    ensures r.Some? ==>
      && r.value < |rs|
      && !Eligible(users, companyId, rs[r.value].userId)
      && forall k :: 0 <= k < r.value ==> Eligible(users, companyId, rs[k].userId)
  {
    if rs == [] then None
    else if !Eligible(users, companyId, rs[0].userId) then Some(0)
    else match FirstIneligible(users, companyId, rs[1..])
      case None => None
      case Some(k) => Some(k + 1)
  }

  /** The validation loop: one lookup per requested recipient, stopping at the first bad one. */
  method FindIneligible(users: seq<User>, companyId: nat, rs: seq<RecipientRequest>) returns (r: Option<nat>)
    ensures r == FirstIneligible(users, companyId, rs)
  {
    var i := 0;
    while i < |rs|
      invariant 0 <= i <= |rs|
      invariant forall k :: 0 <= k < i ==> Eligible(users, companyId, rs[k].userId)
    {
      if !Eligible(users, companyId, rs[i].userId) {
        return Some(i);
      }
      i := i + 1;
    }
    return None;
  }
}
