/**
 * The crypto deposit form: the user picks a coin, the page shows the platform's receiving wallet for
 * it (the first active wallet of that coin) and, on submission, files a `pending` deposit request that
 * an admin later confirms. The balance is credited only on confirmation.
 */
module CryptoDeposit {
  import opened Wrappers
  import opened Schema
  import Seqs
  import Store

  /** The smallest deposit the form accepts, in shekels. */
  const MinimumDeposit: int := 100

  /** A row of `crypto_wallets`: a receiving address of the platform for one coin. */
  datatype Wallet = Wallet(cryptoType: CryptoType, address: string, isActive: bool)

  /** The wallets the form fetches: those marked active, in table order. */
  function ActiveWallets(table: seq<Wallet>): seq<Wallet> {
    Seqs.Filter(table, (w: Wallet) => w.isActive)
  }

  /** `wallets.find(w => w.crypto_type === selectedCrypto)`: the first wallet of the chosen coin, if any. */
  function SelectedWallet(wallets: seq<Wallet>, crypto: CryptoType): (r: Option<Wallet>)
    ensures r.None? <==> forall i :: 0 <= i < |wallets| ==> wallets[i].cryptoType != crypto
    ensures r.Some? ==> exists i :: 0 <= i < |wallets| && wallets[i] == r.value && wallets[i].cryptoType == crypto &&
                                    forall j :: 0 <= j < i ==> wallets[j].cryptoType != crypto
    decreases |wallets|
  {
    if wallets == [] then None
    else if wallets[0].cryptoType == crypto then Some(wallets[0])
    else
      var rest := SelectedWallet(wallets[1..], crypto);
      assert forall i :: 1 <= i < |wallets| ==> wallets[i] == wallets[1..][i - 1];
      rest
  }

  /** The wallet the form shows is an active wallet of the table, of the chosen coin. */
  lemma SelectedWalletIsActive(table: seq<Wallet>, crypto: CryptoType)
    requires SelectedWallet(ActiveWallets(table), crypto).Some?
    ensures var w := SelectedWallet(ActiveWallets(table), crypto).value;
            w in table && w.isActive && w.cryptoType == crypto
  {
    var w := SelectedWallet(ActiveWallets(table), crypto).value;
    assert w in ActiveWallets(table);
  }

  /** Why a submission is turned down, in the order the handler checks. */
  datatype DepositError = MissingFields | BelowMinimum

  /** The handler's checks; an empty number field is `None`. */
  function SubmitCheck(cryptoAmount: Option<real>, ilsAmount: Option<int>, wallet: Option<Wallet>): (r: Option<DepositError>)
    ensures r == Some(MissingFields) <==> cryptoAmount.None? || ilsAmount.None? || wallet.None?
    ensures r == Some(BelowMinimum) <==>
              cryptoAmount.Some? && ilsAmount.Some? && wallet.Some? && ilsAmount.value < MinimumDeposit
    ensures r.None? <==> cryptoAmount.Some? && ilsAmount.Some? && wallet.Some? && ilsAmount.value >= MinimumDeposit
  {
    if cryptoAmount.None? || ilsAmount.None? || wallet.None? then Some(MissingFields)
    else if ilsAmount.value < MinimumDeposit then Some(BelowMinimum)
    else None
  }

  /** The submit button's `disabled` condition; it does not look at the wallet. */
  predicate SubmitDisabled(submitting: bool, cryptoAmount: Option<real>, ilsAmount: Option<int>) {
    submitting || cryptoAmount.None? || ilsAmount.None? || (ilsAmount.Some? && ilsAmount.value < MinimumDeposit)
  }

  /** When the chosen coin has a wallet, the button is enabled exactly when the handler would accept. */
  lemma ButtonMatchesHandler(submitting: bool, cryptoAmount: Option<real>, ilsAmount: Option<int>, wallet: Option<Wallet>)
    requires wallet.Some?
    ensures !SubmitDisabled(submitting, cryptoAmount, ilsAmount) <==>
            !submitting && SubmitCheck(cryptoAmount, ilsAmount, wallet).None?
  {
  }

  /** For a coin without an active wallet, the button is enabled but the handler refuses the form as incomplete. */
  lemma ButtonEnabledWithoutWallet(table: seq<Wallet>, crypto: CryptoType)
    requires forall i :: 0 <= i < |table| ==> table[i].cryptoType != crypto
    ensures !SubmitDisabled(false, Some(0.01), Some(100))
    ensures SubmitCheck(Some(0.01), Some(100), SelectedWallet(ActiveWallets(table), crypto)) == Some(MissingFields)
  {
    var active := ActiveWallets(table);
    forall i | 0 <= i < |active| ensures active[i].cryptoType != crypto {
      assert active[i] in active;
    }
  }

  /** The request row the handler inserts, addressed to the selected wallet; the database fills in the id. */
  function PendingDeposit(userId: Id, crypto: CryptoType, cryptoAmount: real, wallet: Wallet, ilsAmount: int, rate: real): (d: Deposit)
    ensures d.status == Pending && d.validatedBy.None? && d.validatedAt.None? && d.txHash.None? && d.notes.None?
    ensures d.userId == userId && d.ilsAmount == ilsAmount && d.walletAddress == wallet.address
  {
    Deposit(0, userId, crypto, cryptoAmount, wallet.address, None, ilsAmount, rate, Pending, None, None, None)
  }

  datatype SubmitOutcome = Refused(error: DepositError) | InsertFailed | Requested(id: Id)

  /** The form's amount fields, and how many times it has told its parent that a deposit was created. */
  class DepositForm {
    var cryptoAmount: Option<real>
    var ilsAmount: Option<int>
    var depositsCreated: nat

    constructor ()
      ensures cryptoAmount.None? && ilsAmount.None? && depositsCreated == 0
    {
      cryptoAmount := None;
      ilsAmount := None;
      depositsCreated := 0;
    }

    /**
     * `handleSubmit` for the signed-in user with the chosen coin, the fetched active wallets and the
     * fetched rate; `insertFails` stands for a storage error on the insert.
     */
    method Submit(db: Store.Database, userId: Id, crypto: CryptoType, wallets: seq<Wallet>, rate: real, insertFails: bool)
      returns (outcome: SubmitOutcome)
      requires db.Valid()
      modifies this, db
      ensures db.Valid()
      ensures var check := SubmitCheck(old(cryptoAmount), old(ilsAmount), SelectedWallet(wallets, crypto));
              check.Some? ==> outcome == Refused(check.value)
      ensures !outcome.Requested? ==>
                cryptoAmount == old(cryptoAmount) && ilsAmount == old(ilsAmount) &&
                depositsCreated == old(depositsCreated) &&
                db.deposits == old(db.deposits) && db.nextId == old(db.nextId)
      ensures outcome.Requested? ==>
                SubmitCheck(old(cryptoAmount), old(ilsAmount), SelectedWallet(wallets, crypto)).None? && !insertFails &&
                outcome.id == old(db.nextId) && outcome.id !in old(db.deposits) && db.nextId == old(db.nextId) + 1 &&
                db.deposits == old(db.deposits)[outcome.id :=
                  PendingDeposit(userId, crypto, old(cryptoAmount).value, SelectedWallet(wallets, crypto).value,
                                 old(ilsAmount).value, rate).(id := outcome.id)] &&
                cryptoAmount.None? && ilsAmount.None? && depositsCreated == old(depositsCreated) + 1
      ensures SubmitCheck(old(cryptoAmount), old(ilsAmount), SelectedWallet(wallets, crypto)).None? ==>
                (outcome.Requested? <==> !insertFails)
      ensures SubmitCheck(old(cryptoAmount), old(ilsAmount), SelectedWallet(wallets, crypto)).None? && insertFails ==>
                outcome == InsertFailed
      ensures db.users == old(db.users) && db.transactions == old(db.transactions)
      ensures db.draws == old(db.draws) && db.tickets == old(db.tickets) && db.withdrawals == old(db.withdrawals)
      ensures db.sessions == old(db.sessions)
    {
      var wallet := SelectedWallet(wallets, crypto);
      var check := SubmitCheck(cryptoAmount, ilsAmount, wallet);
      if check.Some? {
        return Refused(check.value);
      }
      if insertFails {
        return InsertFailed;
      }
      var id := db.InsertDeposit(PendingDeposit(userId, crypto, cryptoAmount.value, wallet.value, ilsAmount.value, rate));
      cryptoAmount := None;
      ilsAmount := None;
      depositsCreated := depositsCreated + 1;
      outcome := Requested(id);
    }
  }
}
