/**
 * The admin withdrawals page: approving a crypto withdrawal debits its shekel amount from the
 * requester, never below zero (`Math.max(0, newBalance)`), and logs a `withdrawal` row; rejecting
 * only marks it. As on the deposits page, the handlers do not look at the current status.
 */
module AdminWithdrawals {
  import opened Wrappers
  import opened Schema
  import opened Ledger
  import opened Review
  import Seqs
  import Store

  // ---------------------------------------------------------------- the list

  /** A listed withdrawal with its requester's name and email. */
  datatype WithdrawalRow = WithdrawalRow(withdrawal: Withdrawal, owner: Owner)

  function SearchFields(r: WithdrawalRow): seq<string> {
    [r.owner.firstName, r.owner.lastName, r.owner.email, CryptoCode(r.withdrawal.cryptoType)]
  }

  predicate Shown(r: WithdrawalRow, f: StatusFilter, term: string) {
    PassesFilter(f, r.withdrawal.status) && AnyFieldIncludes(SearchFields(r), term)
  }

  /** `filteredWithdrawals`: the listed withdrawals passing the status tab and the search box, in order. */
  function FilteredWithdrawals(rows: seq<WithdrawalRow>, f: StatusFilter, term: string): seq<WithdrawalRow> {
    Seqs.Filter(rows, (r: WithdrawalRow) => Shown(r, f, term))
  }

  /** A withdrawal is shown exactly when it is listed, passes the tab and matches one of the searched columns. */
  lemma FilteredWithdrawalsExact(rows: seq<WithdrawalRow>, f: StatusFilter, term: string, x: WithdrawalRow)
    ensures x in FilteredWithdrawals(rows, f, term) <==> x in rows && Shown(x, f, term)
  {
    if x in rows && Shown(x, f, term) {
      Seqs.FilterKeeps(rows, (r: WithdrawalRow) => Shown(r, f, term), x);
    }
  }

  /** The "all" tab with an empty search box lists every withdrawal. */
  lemma OpenFilterShowsAll(rows: seq<WithdrawalRow>)
    ensures FilteredWithdrawals(rows, AllStatuses, "") == rows
  {
    forall i | 0 <= i < |rows| ensures Shown(rows[i], AllStatuses, "") {
      EmptyTermMatches(SearchFields(rows[i]));
    }
    Seqs.FilterAll(rows, (r: WithdrawalRow) => Shown(r, AllStatuses, ""));
  }

  // ---------------------------------------------------------------- the rows written

  /** The withdrawal after approval: `confirmed`, by whom and when, with `notes || null`. */
  function Confirm(w: Withdrawal, admin: Option<Id>, now: Millis, notes: Option<string>): Withdrawal {
    w.(status := Confirmed, processedBy := admin, processedAt := Some(now), notes := NoteOrNull(notes))
  }

  /** The withdrawal after rejection: the reason is stored as typed, even when empty. */
  function Reject(w: Withdrawal, admin: Option<Id>, now: Millis, notes: string): Withdrawal {
    w.(status := Rejected, processedBy := admin, processedAt := Some(now), notes := Some(notes))
  }

  /** `Math.max(0, newBalance)`. */
  function Clamp(b: int): int { if b < 0 then 0 else b }

  /** The balance write and ledger row of an approval, for a requester whose row was read. */
  function DebitWithdrawal(b: Books, w: Withdrawal): Books
    requires w.userId in b.users
  {
    var before := b.users[w.userId].balance;
    var after := Clamp(before - w.ilsAmount);
    Books(SetBalance(b.users, w.userId, after),
          b.ledger + [Transaction(w.userId, WithdrawalDebit, -w.ilsAmount, CryptoWithdrawalMemo(w.cryptoType), before, after)])
  }

  /**
   * Approval takes the amount from the requester alone, stopping at zero; the logged row is balanced
   * exactly when the balance covered the amount, and otherwise records a balance higher than the arithmetic.
   */
  lemma DebitWithdrawalFacts(b: Books, w: Withdrawal)
    requires w.userId in b.users
    ensures var c := DebitWithdrawal(b, w);
      var before := b.users[w.userId].balance;
      c.users.Keys == b.users.Keys &&
      c.users[w.userId].balance >= 0 &&
      (before >= w.ilsAmount ==> c.users[w.userId].balance == before - w.ilsAmount) &&
      (before < w.ilsAmount ==> c.users[w.userId].balance == 0) &&
      (forall u :: u in b.users && u != w.userId ==> c.users[u] == b.users[u]) &&
      |c.ledger| == |b.ledger| + 1 && c.ledger[..|b.ledger|] == b.ledger &&
      var tx := c.ledger[|b.ledger|];
      tx.userId == w.userId && tx.kind == WithdrawalDebit && tx.amount == -w.ilsAmount &&
      tx.balanceAfter == c.users[w.userId].balance &&
      (Balanced(tx) <==> before >= w.ilsAmount)
  {
  }

  // ---------------------------------------------------------------- handlers

  datatype ApprovalOutcome = NotListed | StatusUpdateFailed | OwnerReadFailed | BalanceUpdateFailed | Approved

  /**
   * `handleApproveWithdrawal`: the withdrawal is marked confirmed first; the requester's balance is then
   * read (`.single()`), lowered by the amount but not below zero, and a ledger row is logged.
   * The handler finds the withdrawal in the page's fetched list; the model takes that list to be the
   * table as it stands, so the request is looked up in `db` (the page and the table agree when the
   * handler runs as one step, with no change made elsewhere since the fetch).
   */
  method ApproveWithdrawal(db: Store.Database, withdrawalId: Id, admin: Option<Id>, now: Millis, notes: Option<string>,
                           statusUpdateFails: bool, ownerReadFails: bool, balanceUpdateFails: bool)
    returns (r: ApprovalOutcome)
    requires db.Valid()
    modifies db
    ensures db.Valid()
    ensures withdrawalId !in old(db.withdrawals) ==> r == NotListed && unchanged(db)
    ensures withdrawalId in old(db.withdrawals) && statusUpdateFails ==> r == StatusUpdateFailed && unchanged(db)
    ensures withdrawalId in old(db.withdrawals) && !statusUpdateFails ==>
              var w := old(db.withdrawals)[withdrawalId];
              db.withdrawals == old(db.withdrawals)[withdrawalId := Confirm(w, admin, now, notes)] &&
              if ownerReadFails || w.userId !in old(db.users) then
                r == OwnerReadFailed && db.users == old(db.users) && db.transactions == old(db.transactions)
              else if balanceUpdateFails then
                r == BalanceUpdateFailed && db.users == old(db.users) && db.transactions == old(db.transactions)
              else
                r == Approved && Books(db.users, db.transactions) == DebitWithdrawal(Books(old(db.users), old(db.transactions)), w)
    ensures db.draws == old(db.draws) && db.tickets == old(db.tickets) && db.deposits == old(db.deposits)
    ensures db.sessions == old(db.sessions) && db.nextId == old(db.nextId)
  {
    if withdrawalId !in db.withdrawals {
      return NotListed;
    }
    var w := db.withdrawals[withdrawalId];
    if statusUpdateFails {
      return StatusUpdateFailed;
    }
    db.withdrawals := db.withdrawals[withdrawalId := Confirm(w, admin, now, notes)];
    if ownerReadFails || w.userId !in db.users {
      return OwnerReadFailed;
    }
    var before := db.users[w.userId].balance;
    var newBalance := before - w.ilsAmount;
    if balanceUpdateFails {
      return BalanceUpdateFailed;
    }
    db.WriteBalance(w.userId, Clamp(newBalance));
    db.LogTransaction(Transaction(w.userId, WithdrawalDebit, -w.ilsAmount, CryptoWithdrawalMemo(w.cryptoType), before, Clamp(newBalance)));
    r := Approved;
  }

  /**
   * `handleRejectWithdrawal`: marks the withdrawal rejected with the typed reason; an unknown id matches
   * no row and still reports success.
   */
  method RejectWithdrawal(db: Store.Database, withdrawalId: Id, admin: Option<Id>, now: Millis, notes: string,
                          updateFails: bool)
    returns (ok: bool)
    requires db.Valid()
    modifies db
    ensures db.Valid()
    ensures ok == !updateFails
    ensures db.withdrawals == if ok && withdrawalId in old(db.withdrawals)
                              then old(db.withdrawals)[withdrawalId := Reject(old(db.withdrawals)[withdrawalId], admin, now, notes)]
                              else old(db.withdrawals)
    ensures db.users == old(db.users) && db.transactions == old(db.transactions) && db.draws == old(db.draws)
    ensures db.tickets == old(db.tickets) && db.deposits == old(db.deposits)
    ensures db.sessions == old(db.sessions) && db.nextId == old(db.nextId)
  {
    if updateFails {
      return false;
    }
    if withdrawalId in db.withdrawals {
      db.withdrawals := db.withdrawals[withdrawalId := Reject(db.withdrawals[withdrawalId], admin, now, notes)];
    }
    ok := true;
  }
}
