/**
 * The admin users page: searching users, suspending or re-activating a client, and adjusting a
 * user's balance by an amount with a logged `admin_adjustment` row.
 */
module AdminUsers {
  import opened Wrappers
  import opened Schema
  import opened Ledger
  import Review
  import Seqs
  import Store

  /** `filteredUsers`: the listed users whose first name, last name or email contains the search term. */
  function FilteredUsers(listed: seq<User>, term: string): seq<User> {
    Seqs.Filter(listed, (u: User) => Review.AnyFieldIncludes([u.firstName, u.lastName, u.email], term))
  }

  /** A user is shown exactly when listed and one of the three searched columns contains the term. */
  lemma FilteredUsersExact(listed: seq<User>, term: string, x: User)
    ensures x in FilteredUsers(listed, term) <==>
              x in listed && Review.AnyFieldIncludes([x.firstName, x.lastName, x.email], term)
  {
    if x in listed && Review.AnyFieldIncludes([x.firstName, x.lastName, x.email], term) {
      Seqs.FilterKeeps(listed, (u: User) => Review.AnyFieldIncludes([u.firstName, u.lastName, u.email], term), x);
    }
  }

  /** An empty search box lists everyone. */
  lemma EmptySearchShowsAll(listed: seq<User>)
    ensures FilteredUsers(listed, "") == listed
  {
    forall i | 0 <= i < |listed|
      ensures Review.AnyFieldIncludes([listed[i].firstName, listed[i].lastName, listed[i].email], "")
    {
      Review.EmptyTermMatches([listed[i].firstName, listed[i].lastName, listed[i].email]);
    }
    Seqs.FilterAll(listed, (u: User) => Review.AnyFieldIncludes([u.firstName, u.lastName, u.email], ""));
  }

  /** `currentStatus === 'active' ? 'suspended' : 'active'`. */
  function NextStatus(current: AccountStatus): (r: AccountStatus)
    ensures r == Suspended <==> current == AccountActive
    ensures r == AccountActive <==> current != AccountActive
  {
    if current == AccountActive then Suspended else AccountActive
  }

  /** Toggling twice restores an active or suspended account; any other status becomes active and then toggles. */
  lemma NextStatusTwice(s: AccountStatus)
    ensures NextStatus(NextStatus(s)) == s <==> s == AccountActive || s == Suspended
  {
  }

  /** `users.find(u => u.id === userId)`: the first listed user with that id. */
  function FindListed(listed: seq<User>, id: Id): (r: Option<User>)
    ensures r.None? <==> forall i :: 0 <= i < |listed| ==> listed[i].id != id
    ensures r.Some? ==> r.value in listed && r.value.id == id
    decreases |listed|
  {
    if listed == [] then None
    else if listed[0].id == id then Some(listed[0])
    else FindListed(listed[1..], id)
  }

  /** The adjustment modal calls the handler only for a non-zero amount (`parseFloat`, `None` for NaN) and a reason. */
  predicate AdjustmentSubmitted(amount: Option<int>, reason: string) {
    amount.Some? && amount.value != 0 && reason != ""
  }

  /**
   * An adjustment the modal lets through always moves the balance and carries its reason: the
   * `admin_adjustment` row the handler logs from a balance `before` is balanced and not a no-op.
   * A blank or zero amount, or an empty reason, is held back.
   */
  lemma SubmittedAdjustmentMovesBalance(userId: Id, amount: Option<int>, reason: string, before: int)
    ensures !AdjustmentSubmitted(None, reason) && !AdjustmentSubmitted(Some(0), reason) && !AdjustmentSubmitted(amount, "")
    ensures AdjustmentSubmitted(amount, reason) ==>
              var t := Transaction(userId, AdminAdjustment, amount.value, AdjustmentReason(reason), before, before + amount.value);
              Balanced(t) && t.balanceAfter != t.balanceBefore && t.memo.reason != ""
  {
  }

  /**
   * `handleToggleUserStatus(userId, currentStatus)`: writes the flipped status computed from the status
   * the page listed. The page offers it for clients only; the handler itself does not check the role.
   */
  method ToggleUserStatus(db: Store.Database, userId: Id, currentStatus: AccountStatus, updateFails: bool)
    returns (ok: bool)
    requires db.Valid()
    modifies db
    ensures db.Valid()
    ensures ok == !updateFails
    ensures db.users == if ok && userId in old(db.users)
                        then old(db.users)[userId := old(db.users)[userId].(status := NextStatus(currentStatus))]
                        else old(db.users)
    ensures db.transactions == old(db.transactions) && db.draws == old(db.draws) && db.tickets == old(db.tickets)
    ensures db.deposits == old(db.deposits) && db.withdrawals == old(db.withdrawals)
    ensures db.sessions == old(db.sessions) && db.nextId == old(db.nextId)
  {
    if updateFails {
      return false;
    }
    if userId in db.users {
      db.users := db.users[userId := db.users[userId].(status := NextStatus(currentStatus))];
    }
    ok := true;
  }

  datatype AdjustOutcome = NotListed | BalanceUpdateFailed | Adjusted(before: int, after: int)

  /**
   * `handleAdjustBalance`: the new balance is the balance the page listed plus the amount; it is
   * written and an `admin_adjustment` row records the listed balance as the balance before.
   */
  method AdjustBalance(db: Store.Database, listed: seq<User>, userId: Id, amount: int, reason: string,
                       balanceUpdateFails: bool)
    returns (r: AdjustOutcome)
    requires db.Valid()
    modifies db
    ensures db.Valid()
    ensures FindListed(listed, userId).None? ==> r == NotListed && unchanged(db)
    ensures FindListed(listed, userId).Some? && balanceUpdateFails ==> r == BalanceUpdateFailed && unchanged(db)
    ensures FindListed(listed, userId).Some? && !balanceUpdateFails ==>
              var before := FindListed(listed, userId).value.balance;
              r == Adjusted(before, before + amount) &&
              db.users == SetBalance(old(db.users), userId, before + amount) &&
              db.transactions == old(db.transactions) +
                [Transaction(userId, AdminAdjustment, amount, AdjustmentReason(reason), before, before + amount)]
    ensures r.Adjusted? ==> r.after - r.before == amount
    ensures r.Adjusted? ==> (r.after != r.before <==> amount != 0)
    ensures db.draws == old(db.draws) && db.tickets == old(db.tickets) && db.deposits == old(db.deposits)
    ensures db.withdrawals == old(db.withdrawals) && db.sessions == old(db.sessions) && db.nextId == old(db.nextId)
  {
    var target := FindListed(listed, userId);
    if target.None? {
      return NotListed;
    }
    var before := target.value.balance;
    var newBalance := before + amount;
    if balanceUpdateFails {
      return BalanceUpdateFailed;
    }
    db.WriteBalance(userId, newBalance);
    db.LogTransaction(Transaction(userId, AdminAdjustment, amount, AdjustmentReason(reason), before, newBalance));
    r := Adjusted(before, newBalance);
  }

  /**
   * The modal's confirm button: an adjustment held back by `AdjustmentSubmitted` only raises the
   * "fill in all fields" toast; one let through runs `handleAdjustBalance`, and when that adjusts,
   * the balance really moves by the amount typed.
   */
  method ConfirmAdjustment(db: Store.Database, listed: seq<User>, userId: Id, amount: Option<int>, reason: string,
                           balanceUpdateFails: bool)
    returns (r: Option<AdjustOutcome>)
    requires db.Valid()
    modifies db
    ensures db.Valid()
    ensures !AdjustmentSubmitted(amount, reason) ==> r.None? && unchanged(db)
    ensures AdjustmentSubmitted(amount, reason) ==> r.Some?
    ensures r.Some? && r.value.Adjusted? ==>
              r.value.after != r.value.before && r.value.after - r.value.before == amount.value &&
              db.users == SetBalance(old(db.users), userId, r.value.after) &&
              db.transactions == old(db.transactions) +
                [Transaction(userId, AdminAdjustment, amount.value, AdjustmentReason(reason), r.value.before, r.value.after)]
    ensures r.Some? && !r.value.Adjusted? ==> unchanged(db)
    ensures db.draws == old(db.draws) && db.tickets == old(db.tickets) && db.deposits == old(db.deposits)
    ensures db.withdrawals == old(db.withdrawals) && db.sessions == old(db.sessions) && db.nextId == old(db.nextId)
  {
    if !AdjustmentSubmitted(amount, reason) {
      return None;
    }
    var outcome := AdjustBalance(db, listed, userId, amount.value, reason, balanceUpdateFails);
    r := Some(outcome);
  }
}
