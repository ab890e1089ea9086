/**
 * The read side's query shape: keep the matching rows, order them newest first,
 * then apply OFFSET skip and LIMIT limit.  Rows are stamped with strictly
 * increasing creation times, so newest first is descending row position.
 */
module Listing {
  import opened Wrappers
  import opened Errors

  /** The positions below `n` that satisfy `keep`, largest first. */
  function Descending(n: nat, keep: nat -> bool): (r: seq<nat>)
    ensures forall k :: 0 <= k < |r| ==> r[k] < n && keep(r[k])
    ensures forall i :: 0 <= i < n && keep(i) ==> i in r
    ensures forall j, k :: 0 <= j < k < |r| ==> r[j] > r[k]
  {
    if n == 0 then []
    else if keep(n - 1) then [n - 1] + Descending(n - 1, keep)
    else Descending(n - 1, keep)
  }

  /** OFFSET skip LIMIT limit over an ordered result. */
  function Page<T>(s: seq<T>, skip: nat, limit: nat): (r: seq<T>)
    ensures |r| == if skip >= |s| then 0 else if |s| - skip < limit then |s| - skip else limit
    ensures forall k :: 0 <= k < |r| ==> r[k] == s[skip + k]
  {
    if skip >= |s| then []
    else if |s| - skip < limit then s[skip..]
    else s[skip..skip + limit]
  }

  /** The database rejects a negative OFFSET or LIMIT, so the request fails. */
  function Paginate<T>(s: seq<T>, skip: int, limit: int): (r: Result<seq<T>, Error>)
    ensures r.Err? <==> skip < 0 || limit < 0
    ensures r.Err? ==> r.error == InternalError
    ensures r.Ok? ==> r.value == Page(s, skip, limit)
  {
    if skip < 0 || limit < 0 then Err(InternalError) else Ok(Page(s, skip, limit))
  }
}
