/** The like tables: rows of (target, user), at most one per pair. */
module LikeTable {
  import opened Models

  /** The table after deleting the rows equal to `x`. */
  function Remove(likes: seq<Like>, x: Like): (r: seq<Like>)
    ensures forall y :: y in r <==> y in likes && y != x
    ensures x !in likes ==> r == likes
    ensures NoDuplicates(likes) ==> NoDuplicates(r)
    ensures NoDuplicates(likes) && x in likes ==> |r| == |likes| - 1
  {
    if likes == [] then []
    else
      var rest := Remove(likes[..|likes| - 1], x);
      var last := likes[|likes| - 1];
      assert NoDuplicates(likes) ==> last !in likes[..|likes| - 1];
      assert likes[..|likes| - 1] + [last] == likes;
      if last == x then rest else rest + [last]
  }

  /** Deleting a row keeps the like table's constraints. */
  lemma RemoveKeepsLikesOk(likes: seq<Like>, x: Like, nTargets: nat, nUsers: nat)
    requires LikesOk(likes, nTargets, nUsers)
    ensures LikesOk(Remove(likes, x), nTargets, nUsers)
  {
    var r := Remove(likes, x);
    forall i | 0 <= i < |r| ensures r[i].targetId < nTargets && r[i].userId < nUsers {
      assert r[i] in likes;
    }
  }

  /** Adding a pair that is not yet present, for an existing target and user, keeps the constraints. */
  lemma AddKeepsLikesOk(likes: seq<Like>, x: Like, nTargets: nat, nUsers: nat)
    requires LikesOk(likes, nTargets, nUsers)
    requires x.targetId < nTargets && x.userId < nUsers && x !in likes
    ensures LikesOk(likes + [x], nTargets, nUsers)
  {
    var r := likes + [x];
    forall i, j | 0 <= i < j < |r| ensures r[i] != r[j] {
      if j == |likes| {
        assert r[i] in likes;
      }
    }
  }
}
