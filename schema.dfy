/**
 * The rows of the lottery's tables (users, draws, tickets, crypto deposits and withdrawals,
 * transactions, user sessions). Amounts of shekels are whole numbers; crypto amounts and
 * exchange rates are carried through unchanged as reals. Times are milliseconds since the epoch.
 */
module Schema {
  import opened Wrappers

  type Id = nat
  type Millis = int

  const SecondMs: int := 1000
  const MinuteMs: int := 60000
  const HourMs: int := 3600000
  const DayMs: int := 86400000

  /** The price of one ticket in shekels. */
  const TicketPrice: int := 50

  datatype Role = Client | Admin | Root

  /** The administrator test used for routing and the admin dashboard: role `admin` or `root`. */
  predicate IsAdmin(r: Role) { r == Admin || r == Root }

  /** The `status` column of a user: `active`, `suspended`, or any other text an import may have left. */
  datatype AccountStatus = AccountActive | Suspended | OtherStatus(name: string)

  datatype User = User(
    id: Id,
    email: string,
    passwordHash: string,
    role: Role,
    balance: int,
    firstName: string,
    lastName: string,
    phone: Option<string>,
    status: AccountStatus,
    lastLogin: Option<Millis>,
    updatedAt: Millis,
    emailVerified: bool,
    lockedUntil: Option<Millis>,
    resetToken: Option<string>,
    resetExpires: Option<Millis>,
    lastPasswordChange: Option<Millis>)

  datatype DrawStatus = Scheduled | Active | Completed | Cancelled

  datatype Draw = Draw(
    id: Id,
    drawDate: Millis,
    winningNumbers: Option<seq<int>>,
    jackpot: int,
    totalTickets: int,
    status: DrawStatus,
    createdBy: Option<Id>)

  datatype Ticket = Ticket(
    id: Id,
    userId: Id,
    drawId: Id,
    numbers: seq<int>,
    cost: int,
    matches: int,
    winningAmount: int,
    isWinner: bool)

  datatype CryptoType = BTC | ETH | USDT_ERC20 | USDT_TRC20

  /** The `crypto_type` column as stored. */
  function CryptoCode(c: CryptoType): string {
    match c
    case BTC => "BTC"
    case ETH => "ETH"
    case USDT_ERC20 => "USDT_ERC20"
    case USDT_TRC20 => "USDT_TRC20"
  }

  /** The state of a deposit or withdrawal request: `pending`, `confirmed` or `rejected`. */
  datatype RequestStatus = Pending | Confirmed | Rejected

  datatype Deposit = Deposit(
    id: Id,
    userId: Id,
    cryptoType: CryptoType,
    cryptoAmount: real,
    walletAddress: string,
    txHash: Option<string>,
    ilsAmount: int,
    exchangeRate: real,
    status: RequestStatus,
    validatedBy: Option<Id>,
    validatedAt: Option<Millis>,
    notes: Option<string>)

  datatype Withdrawal = Withdrawal(
    id: Id,
    userId: Id,
    cryptoType: CryptoType,
    cryptoAmount: real,
    destination: string,
    ilsAmount: int,
    exchangeRate: real,
    status: RequestStatus,
    processedBy: Option<Id>,
    processedAt: Option<Millis>,
    txHash: Option<string>,
    notes: Option<string>)

  datatype TxKind = TicketPurchase | DepositCredit | WithdrawalDebit | Winnings | AdminAdjustment

  /**
   * The human-readable description of a ledger row, kept as the data it is built from
   * (the source writes Hebrew sentences around these values).
   */
  datatype Memo =
    | TicketNumbers(numbers: seq<int>)
    | CryptoDepositMemo(crypto: CryptoType)
    | CryptoWithdrawalMemo(crypto: CryptoType)
    | DrawWin(matches: int)
    | AdjustmentReason(reason: string)

  datatype Transaction = Transaction(
    userId: Id,
    kind: TxKind,
    amount: int,
    memo: Memo,
    balanceBefore: int,
    balanceAfter: int)

  /** A ledger row whose balances differ by its amount. */
  predicate Balanced(t: Transaction) { t.balanceBefore + t.amount == t.balanceAfter }

  datatype Session = Session(userId: Id, token: string, deviceInfo: string, expiresAt: Millis)

  /** The columns of the joined user that the admin lists show and search. */
  datatype Owner = Owner(firstName: string, lastName: string, email: string)

  /** `notes || null`: an absent or empty note is stored as null. */
  function NoteOrNull(notes: Option<string>): (r: Option<string>)
    ensures r.Some? <==> notes.Some? && notes.value != ""
    ensures r.Some? ==> r == notes
  {
    if notes.Some? && notes.value != "" then notes else None
  }
}
