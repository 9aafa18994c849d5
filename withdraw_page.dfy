/**
 * The withdrawal page: a form holding the shekel amount, the crypto amount derived from it and a
 * destination address. Submitting checks the fields, the 200 shekel minimum and the balance shown on
 * the page, then files a `pending` withdrawal request; the balance itself is debited only when an
 * admin approves the request.
 */
module WithdrawPage {
  import opened Wrappers
  import opened Schema
  import Store

  /** The smallest withdrawal the page accepts, in shekels. */
  const MinimumWithdrawal: int := 200

  /** Why a submission is turned down, in the order the handler checks. */
  datatype WithdrawError = MissingFields | BelowMinimum | OverBalance

  /**
   * The handler's checks on the form. A number field is `None` while it is empty: the browser's
   * number input yields the empty string for anything that is not a number.
   */
  function SubmitCheck(ilsAmount: Option<int>, cryptoAmount: Option<real>, destination: string, balance: int): (r: Option<WithdrawError>)
    ensures r == Some(MissingFields) <==> ilsAmount.None? || destination == "" || cryptoAmount.None?
    ensures r == Some(BelowMinimum) <==>
              ilsAmount.Some? && destination != "" && cryptoAmount.Some? && ilsAmount.value < MinimumWithdrawal
    ensures r == Some(OverBalance) <==>
              ilsAmount.Some? && destination != "" && cryptoAmount.Some? &&
              MinimumWithdrawal <= ilsAmount.value && ilsAmount.value > balance
    ensures r.None? <==>
              ilsAmount.Some? && destination != "" && cryptoAmount.Some? && MinimumWithdrawal <= ilsAmount.value <= balance
  {
    if ilsAmount.None? || destination == "" || cryptoAmount.None? then Some(MissingFields)
    else if ilsAmount.value < MinimumWithdrawal then Some(BelowMinimum)
    else if ilsAmount.value > balance then Some(OverBalance)
    else None
  }

  /** The submit button's `disabled` condition; it does not look at the crypto amount. */
  predicate SubmitDisabled(submitting: bool, ilsAmount: Option<int>, destination: string, balance: int) {
    submitting || ilsAmount.None? || destination == "" ||
    (ilsAmount.Some? && ilsAmount.value < MinimumWithdrawal) || (ilsAmount.Some? && ilsAmount.value > balance)
  }

  /** Once a crypto amount has been derived, the button is enabled exactly when the handler would accept. */
  lemma ButtonMatchesHandler(submitting: bool, ilsAmount: Option<int>, cryptoAmount: Option<real>, destination: string, balance: int)
    requires cryptoAmount.Some?
    ensures !SubmitDisabled(submitting, ilsAmount, destination, balance) <==>
            !submitting && SubmitCheck(ilsAmount, cryptoAmount, destination, balance).None?
  {
  }

  /**
   * Without a derived crypto amount (no exchange rate for the chosen coin), the button can be enabled
   * while the handler refuses the form as incomplete.
   */
  lemma ButtonEnabledWithoutCryptoAmount()
    ensures !SubmitDisabled(false, Some(200), "addr", 200)
    ensures SubmitCheck(Some(200), None, "addr", 200) == Some(MissingFields)
  {
  }

  datatype SubmitOutcome = Refused(error: WithdrawError) | InsertFailed | Requested(id: Id)

  /** The request row the handler inserts; the database fills in the id. */
  function PendingRequest(userId: Id, crypto: CryptoType, cryptoAmount: real, destination: string, ilsAmount: int, rate: real): (w: Withdrawal)
    ensures w.status == Pending && w.processedBy.None? && w.processedAt.None? && w.txHash.None? && w.notes.None?
    ensures w.userId == userId && w.ilsAmount == ilsAmount && w.destination == destination
  {
    Withdrawal(0, userId, crypto, cryptoAmount, destination, ilsAmount, rate, Pending, None, None, None, None)
  }

  /** The form's fields, which a successful submission resets. */
  class WithdrawForm {
    var ilsAmount: Option<int>
    var cryptoAmount: Option<real>
    var destination: string

    constructor ()
      ensures ilsAmount.None? && cryptoAmount.None? && destination == ""
    {
      ilsAmount := None;
      cryptoAmount := None;
      destination := "";
    }

    /**
     * `handleSubmit` for the signed-in user, against the balance the page shows and the exchange rate
     * it fetched; `insertFails` stands for a storage error on the insert.
     */
    method Submit(db: Store.Database, userId: Id, crypto: CryptoType, rate: real, balance: int, insertFails: bool)
      returns (outcome: SubmitOutcome)
      requires db.Valid()
      modifies this, db
      ensures db.Valid()
      ensures var check := SubmitCheck(old(ilsAmount), old(cryptoAmount), old(destination), balance);
              check.Some? ==> outcome == Refused(check.value)
      ensures !outcome.Requested? ==>
                ilsAmount == old(ilsAmount) && cryptoAmount == old(cryptoAmount) && destination == old(destination) &&
                db.withdrawals == old(db.withdrawals) && db.nextId == old(db.nextId)
      ensures outcome.Requested? ==>
                SubmitCheck(old(ilsAmount), old(cryptoAmount), old(destination), balance).None? && !insertFails &&
                outcome.id == old(db.nextId) && outcome.id !in old(db.withdrawals) && db.nextId == old(db.nextId) + 1 &&
                db.withdrawals == old(db.withdrawals)[outcome.id :=
                  PendingRequest(userId, crypto, old(cryptoAmount).value, old(destination), old(ilsAmount).value, rate).(id := outcome.id)] &&
                ilsAmount.None? && cryptoAmount.None? && destination == ""
      ensures SubmitCheck(old(ilsAmount), old(cryptoAmount), old(destination), balance).None? ==>
                (outcome.Requested? <==> !insertFails)
      ensures SubmitCheck(old(ilsAmount), old(cryptoAmount), old(destination), balance).None? && insertFails ==>
                outcome == InsertFailed
      ensures db.users == old(db.users) && db.transactions == old(db.transactions)
      ensures db.draws == old(db.draws) && db.tickets == old(db.tickets) && db.deposits == old(db.deposits)
      ensures db.sessions == old(db.sessions)
    {
      var check := SubmitCheck(ilsAmount, cryptoAmount, destination, balance);
      if check.Some? {
        return Refused(check.value);
      }
      if insertFails {
        return InsertFailed;
      }
      var id := db.InsertWithdrawal(PendingRequest(userId, crypto, cryptoAmount.value, destination, ilsAmount.value, rate));
      ilsAmount := None;
      cryptoAmount := None;
      destination := "";
      outcome := Requested(id);
    }
  }
}
