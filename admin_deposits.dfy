/**
 * The admin deposits page: approving a crypto deposit credits its shekel amount to the depositor
 * and logs a `deposit` row; rejecting only marks it. The handlers do not look at the current status
 * (the page shows the buttons for pending deposits only).
 */
module AdminDeposits {
  import opened Wrappers
  import opened Schema
  import opened Ledger
  import opened Review
  import Seqs
  import Store

  // ---------------------------------------------------------------- the list

  /** A listed deposit with its depositor's name and email. */
  datatype DepositRow = DepositRow(deposit: Deposit, owner: Owner)

  function SearchFields(r: DepositRow): seq<string> {
    [r.owner.firstName, r.owner.lastName, r.owner.email, CryptoCode(r.deposit.cryptoType)]
  }

  predicate Shown(r: DepositRow, f: StatusFilter, term: string) {
    PassesFilter(f, r.deposit.status) && AnyFieldIncludes(SearchFields(r), term)
  }

  /** `filteredDeposits`: the listed deposits passing the status tab and the search box, in order. */
  function FilteredDeposits(rows: seq<DepositRow>, f: StatusFilter, term: string): seq<DepositRow> {
    Seqs.Filter(rows, (r: DepositRow) => Shown(r, f, term))
  }

  /** A deposit is shown exactly when it is listed, passes the tab and matches one of the searched columns. */
  lemma FilteredDepositsExact(rows: seq<DepositRow>, f: StatusFilter, term: string, x: DepositRow)
    ensures x in FilteredDeposits(rows, f, term) <==> x in rows && Shown(x, f, term)
  {
    if x in rows && Shown(x, f, term) {
      Seqs.FilterKeeps(rows, (r: DepositRow) => Shown(r, f, term), x);
    }
  }

  /** The "all" tab with an empty search box lists every deposit. */
  lemma OpenFilterShowsAll(rows: seq<DepositRow>)
    ensures FilteredDeposits(rows, AllStatuses, "") == rows
  {
    forall i | 0 <= i < |rows| ensures Shown(rows[i], AllStatuses, "") {
      EmptyTermMatches(SearchFields(rows[i]));
    }
    Seqs.FilterAll(rows, (r: DepositRow) => Shown(r, AllStatuses, ""));
  }

  // ---------------------------------------------------------------- the rows written

  /** The deposit after approval: `confirmed`, by whom and when, with `notes || null`. */
  function Confirm(d: Deposit, admin: Option<Id>, now: Millis, notes: Option<string>): Deposit {
    d.(status := Confirmed, validatedBy := admin, validatedAt := Some(now), notes := NoteOrNull(notes))
  }

  /** The deposit after rejection: the reason is stored as typed, even when empty. */
  function Reject(d: Deposit, admin: Option<Id>, now: Millis, notes: string): Deposit {
    d.(status := Rejected, validatedBy := admin, validatedAt := Some(now), notes := Some(notes))
  }

  /** The balance write and ledger row of an approval, for a depositor whose row was read. */
  function CreditDeposit(b: Books, d: Deposit): Books
    requires d.userId in b.users
  {
    var before := b.users[d.userId].balance;
    var after := before + d.ilsAmount;
    Books(SetBalance(b.users, d.userId, after),
          b.ledger + [Transaction(d.userId, DepositCredit, d.ilsAmount, CryptoDepositMemo(d.cryptoType), before, after)])
  }

  /** Approval adds the deposit's amount to the depositor's balance alone and logs one balanced `deposit` row. */
  lemma CreditDepositFacts(b: Books, d: Deposit)
    requires d.userId in b.users
    ensures var c := CreditDeposit(b, d);
      c.users.Keys == b.users.Keys &&
      c.users[d.userId].balance == b.users[d.userId].balance + d.ilsAmount &&
      (forall u :: u in b.users && u != d.userId ==> c.users[u] == b.users[u]) &&
      |c.ledger| == |b.ledger| + 1 && c.ledger[..|b.ledger|] == b.ledger &&
      var tx := c.ledger[|b.ledger|];
      tx.userId == d.userId && tx.kind == DepositCredit && tx.amount == d.ilsAmount && Balanced(tx) &&
      tx.balanceAfter == c.users[d.userId].balance
  {
  }

  /** Approving an already approved deposit credits it a second time: nothing in the handler prevents it. */
  lemma ApprovingTwiceCreditsTwice(b: Books, d: Deposit)
    requires d.userId in b.users
    ensures d.userId in CreditDeposit(b, d).users
    ensures CreditDeposit(CreditDeposit(b, d), d).users[d.userId].balance == b.users[d.userId].balance + 2 * d.ilsAmount
  {
  }

  // ---------------------------------------------------------------- handlers

  datatype ApprovalOutcome = NotListed | StatusUpdateFailed | OwnerReadFailed | BalanceUpdateFailed | Approved

  /**
   * `handleApproveDeposit`: the deposit is marked confirmed first; the depositor's balance is then read
   * (`.single()`, an error when the row is missing or the read fails), raised by the amount and a ledger
   * row is logged. A failure after the status write leaves the deposit confirmed but not credited.
   * The handler finds the deposit in the page's fetched list; the model takes that list to be the
   * table as it stands, so the request is looked up in `db` (the page and the table agree when the
   * handler runs as one step, with no change made elsewhere since the fetch).
   */
  method ApproveDeposit(db: Store.Database, depositId: Id, admin: Option<Id>, now: Millis, notes: Option<string>,
                        statusUpdateFails: bool, ownerReadFails: bool, balanceUpdateFails: bool)
    returns (r: ApprovalOutcome)
    requires db.Valid()
    modifies db
    ensures db.Valid()
    ensures depositId !in old(db.deposits) ==> r == NotListed && unchanged(db)
    ensures depositId in old(db.deposits) && statusUpdateFails ==> r == StatusUpdateFailed && unchanged(db)
    ensures depositId in old(db.deposits) && !statusUpdateFails ==>
              var d := old(db.deposits)[depositId];
              db.deposits == old(db.deposits)[depositId := Confirm(d, admin, now, notes)] &&
              if ownerReadFails || d.userId !in old(db.users) then
                r == OwnerReadFailed && db.users == old(db.users) && db.transactions == old(db.transactions)
              else if balanceUpdateFails then
                r == BalanceUpdateFailed && db.users == old(db.users) && db.transactions == old(db.transactions)
              else
                r == Approved && Books(db.users, db.transactions) == CreditDeposit(Books(old(db.users), old(db.transactions)), d)
    ensures db.draws == old(db.draws) && db.tickets == old(db.tickets) && db.withdrawals == old(db.withdrawals)
    ensures db.sessions == old(db.sessions) && db.nextId == old(db.nextId)
  {
    if depositId !in db.deposits {
      return NotListed;
    }
    var d := db.deposits[depositId];
    if statusUpdateFails {
      return StatusUpdateFailed;
    }
    db.deposits := db.deposits[depositId := Confirm(d, admin, now, notes)];
    if ownerReadFails || d.userId !in db.users {
      return OwnerReadFailed;
    }
    var before := db.users[d.userId].balance;
    var after := before + d.ilsAmount;
    if balanceUpdateFails {
      return BalanceUpdateFailed;
    }
    db.WriteBalance(d.userId, after);
    db.LogTransaction(Transaction(d.userId, DepositCredit, d.ilsAmount, CryptoDepositMemo(d.cryptoType), before, after));
    r := Approved;
  }

  /**
   * `handleRejectDeposit`: marks the deposit rejected with the typed reason. There is no lookup first,
   * so an unknown id matches no row and still reports success.
   */
  method RejectDeposit(db: Store.Database, depositId: Id, admin: Option<Id>, now: Millis, notes: string, updateFails: bool)
    returns (ok: bool)
    requires db.Valid()
    modifies db
    ensures db.Valid()
    ensures ok == !updateFails
    ensures db.deposits == if ok && depositId in old(db.deposits)
                           then old(db.deposits)[depositId := Reject(old(db.deposits)[depositId], admin, now, notes)]
                           else old(db.deposits)
    ensures db.users == old(db.users) && db.transactions == old(db.transactions) && db.draws == old(db.draws)
    ensures db.tickets == old(db.tickets) && db.withdrawals == old(db.withdrawals)
    ensures db.sessions == old(db.sessions) && db.nextId == old(db.nextId)
  {
    if updateFails {
      return false;
    }
    if depositId in db.deposits {
      db.deposits := db.deposits[depositId := Reject(db.deposits[depositId], admin, now, notes)];
    }
    ok := true;
  }
}
