/**
 * The balance arithmetic of the recognition endpoints and the admin adjustment:
 * what a list of allocations totals, what it credits to each user, and what it
 * writes to the recipient table.
 */
module Ledger {
  import opened Models
  import opened Schemas

  /** The recognition total: sum(recipient.points for recipient in recipients). */
  function SumPoints(rs: seq<RecipientRequest>): int
  {
    if rs == [] then 0 else SumPoints(rs[..|rs| - 1]) + rs[|rs| - 1].points
  }

  /** What the allocations give to user `id`, counting repeated entries each time. */
  function AllocatedTo(rs: seq<RecipientRequest>, id: int): int
  {
    if rs == [] then 0
    else
      var last := rs[|rs| - 1];
      AllocatedTo(rs[..|rs| - 1], id) + (if last.userId == id then last.points else 0)
  }

  /** Every recipient id names a row of a users table with `n` rows. */
  predicate Known(rs: seq<RecipientRequest>, n: nat)
  {
    forall k :: 0 <= k < |rs| ==> 0 <= rs[k].userId < n
  }

  function Balance(u: User): int
  {
    u.giveable + u.redeemable
  }

  /** Sum of giveable and redeemable points over all users. */
  function TotalBalance(users: seq<User>): int
  {
    if users == [] then 0 else TotalBalance(users[..|users| - 1]) + Balance(users[|users| - 1])
  }

  /** The users after each allocation, in order, adds its points to its recipient's redeemable balance. */
  function Credit(users: seq<User>, rs: seq<RecipientRequest>): (r: seq<User>)
    requires Known(rs, |users|)
    ensures |r| == |users|
  {
    if rs == [] then users
    else
      var before := Credit(users, rs[..|rs| - 1]);
      var x := rs[|rs| - 1];
      before[x.userId := before[x.userId].(redeemable := before[x.userId].redeemable + x.points)]
  }

  /** A whole recognition: credit every recipient, then debit the sender by the total. */
  function Recognize(users: seq<User>, sender: nat, rs: seq<RecipientRequest>): (r: seq<User>)
    requires sender < |users| && Known(rs, |users|)
    ensures |r| == |users|
  {
    var credited := Credit(users, rs);
    credited[sender := credited[sender].(giveable := credited[sender].giveable - SumPoints(rs))]
  }

  /** One recipient row per allocation, in request order, all of transaction `tid`. */
  function Rows(tid: nat, rs: seq<RecipientRequest>): (r: seq<PointsRecipient>)
    ensures |r| == |rs|
    ensures forall k :: 0 <= k < |rs| ==> r[k] == PointsRecipient(tid, rs[k].userId, rs[k].points)
  {
    if rs == [] then [] else Rows(tid, rs[..|rs| - 1]) + [PointsRecipient(tid, rs[|rs| - 1].userId, rs[|rs| - 1].points)]
  }

  /** The admin adjustment of a giveable balance: added when positive, otherwise clamped at zero. */
  function Adjusted(giveable: int, delta: int): int
  {
    if delta > 0 then giveable + delta else if giveable + delta > 0 then giveable + delta else 0
  }

  function Abs(x: int): nat
  {
    if x < 0 then -x else x
  }

  /** Valid allocations total at least one point each; the total is zero only for no allocations. */
  lemma {:induction false} SumPointsOfValid(rs: seq<RecipientRequest>)
    requires RecipientsValid(rs)
    ensures SumPoints(rs) >= |rs|
    ensures SumPoints(rs) == 0 <==> rs == []
  {
    if rs != [] {
      assert RecipientsValid(rs[..|rs| - 1]);
      SumPointsOfValid(rs[..|rs| - 1]);
    }
  }

  /** A user receives something exactly when some valid allocation names them, and never more than the total. */
  lemma {:induction false} AllocatedToBounds(rs: seq<RecipientRequest>, id: int)
    requires RecipientsValid(rs)
    ensures 0 <= AllocatedTo(rs, id) <= SumPoints(rs)
    ensures AllocatedTo(rs, id) == 0 <==> forall k :: 0 <= k < |rs| ==> rs[k].userId != id
  {
    if rs != [] {
      var init := rs[..|rs| - 1];
      assert RecipientsValid(init);
      AllocatedToBounds(init, id);
      assert forall k :: 0 <= k < |init| ==> init[k] == rs[k];
    }
  }

  /** Crediting changes each user's redeemable balance by what was allocated to them, and nothing else. */
  lemma {:induction false} CreditAt(users: seq<User>, rs: seq<RecipientRequest>, j: int)
    requires Known(rs, |users|) && 0 <= j < |users|
    ensures Credit(users, rs)[j] == users[j].(redeemable := users[j].redeemable + AllocatedTo(rs, j))
  {
    if rs != [] {
      assert Known(rs[..|rs| - 1], |users|);
      CreditAt(users, rs[..|rs| - 1], j);
    }
  }

  /** Two user tables that differ only at row `k` differ in total balance by that row's difference. */
  lemma {:induction false} TotalBalanceDiff(a: seq<User>, b: seq<User>, k: nat)
    requires |a| == |b| && k < |a|
    requires forall i :: 0 <= i < |a| && i != k ==> a[i] == b[i]
    ensures TotalBalance(b) == TotalBalance(a) - Balance(a[k]) + Balance(b[k])
  {
    var n := |a|;
    if k < n - 1 {
      TotalBalanceDiff(a[..n - 1], b[..n - 1], k);
    } else {
      assert a[..n - 1] == b[..n - 1];
    }
  }

  /** Crediting raises the total balance by exactly the recognition total. */
  lemma {:induction false} CreditTotal(users: seq<User>, rs: seq<RecipientRequest>)
    requires Known(rs, |users|)
    ensures TotalBalance(Credit(users, rs)) == TotalBalance(users) + SumPoints(rs)
  {
    if rs != [] {
      assert Known(rs[..|rs| - 1], |users|);
      var before := Credit(users, rs[..|rs| - 1]);
      var x := rs[|rs| - 1];
      CreditTotal(users, rs[..|rs| - 1]);
      TotalBalanceDiff(before, Credit(users, rs), x.userId);
    }
  }

  /**
   * The effect of a recognition on one user: the sender's giveable balance drops by the
   * total, every user's redeemable balance rises by what was allocated to them, and no
   * other field changes.
   */
  lemma RecognizeAt(users: seq<User>, sender: nat, rs: seq<RecipientRequest>, j: int)
    requires sender < |users| && Known(rs, |users|) && 0 <= j < |users|
    ensures Recognize(users, sender, rs)[j] ==
      users[j].(giveable := users[j].giveable - (if j == sender then SumPoints(rs) else 0),
                redeemable := users[j].redeemable + AllocatedTo(rs, j))
  {
    CreditAt(users, rs, j);
    CreditAt(users, rs, sender);
  }

  /** A recognition conserves the sum of all balances. */
  lemma RecognizeConserves(users: seq<User>, sender: nat, rs: seq<RecipientRequest>)
    requires sender < |users| && Known(rs, |users|)
    ensures TotalBalance(Recognize(users, sender, rs)) == TotalBalance(users)
  {
    var credited := Credit(users, rs);
    CreditTotal(users, rs);
    TotalBalanceDiff(credited, Recognize(users, sender, rs), sender);
  }

  /** A recognition the sender can afford, with valid allocations, keeps every balance non-negative. */
  lemma RecognizeNonNegative(users: seq<User>, sender: nat, rs: seq<RecipientRequest>)
    requires sender < |users| && Known(rs, |users|) && RecipientsValid(rs)
    requires forall i :: 0 <= i < |users| ==> users[i].giveable >= 0 && users[i].redeemable >= 0
    requires SumPoints(rs) <= users[sender].giveable
    ensures forall i :: 0 <= i < |users| ==>
      Recognize(users, sender, rs)[i].giveable >= 0 && Recognize(users, sender, rs)[i].redeemable >= 0
  {
    forall i | 0 <= i < |users|
      ensures Recognize(users, sender, rs)[i].giveable >= 0 && Recognize(users, sender, rs)[i].redeemable >= 0
    {
      RecognizeAt(users, sender, rs, i);
      AllocatedToBounds(rs, i);
    }
  }

  lemma {:induction false} RowsTotalAppend(a: seq<PointsRecipient>, b: seq<PointsRecipient>, tid: nat)
    ensures RowsTotal(a + b, tid) == RowsTotal(a, tid) + RowsTotal(b, tid)
  {
    if b != [] {
      assert (a + b)[..|a + b| - 1] == a + b[..|b| - 1];
      RowsTotalAppend(a, b[..|b| - 1], tid);
    } else {
      assert a + b == a;
    }
  }

  /** The rows written for a request total the request's points under their transaction and nothing elsewhere. */
  lemma {:induction false} RowsTotalOfRows(tid: nat, rs: seq<RecipientRequest>, t: nat)
    ensures RowsTotal(Rows(tid, rs), t) == if t == tid then SumPoints(rs) else 0
  {
    if rs != [] {
      var r := Rows(tid, rs);
      assert r[..|r| - 1] == Rows(tid, rs[..|rs| - 1]);
      RowsTotalOfRows(tid, rs[..|rs| - 1], t);
    }
  }

  lemma {:induction false} RowsTotalAbsent(rows: seq<PointsRecipient>, tid: nat)
    requires forall k :: 0 <= k < |rows| ==> rows[k].transactionId != tid
    ensures RowsTotal(rows, tid) == 0
  {
    if rows != [] {
      RowsTotalAbsent(rows[..|rows| - 1], tid);
    }
  }

  /**
   * The adjusted balance is never negative; a positive delta is applied in full, and a
   * negative one in full only when the balance covers it, so the realised change
   * never exceeds the recorded magnitude |delta|.
   */
  lemma AdjustedBounds(giveable: int, delta: int)
    requires giveable >= 0
    ensures Adjusted(giveable, delta) >= 0
    ensures Abs(Adjusted(giveable, delta) - giveable) <= Abs(delta)
    ensures Abs(Adjusted(giveable, delta) - giveable) == Abs(delta) <==> delta > 0 || giveable + delta >= 0
  {
  }
}
