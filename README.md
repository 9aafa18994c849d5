# Lottery wallet: a verified model of its core

This is a Dafny model of the core of a web lottery with a shekel wallet. Players deposit crypto against
a shekel balance, buy tickets of six numbers from 1 to 37 for the next Thursday or Sunday draw, and ask
for withdrawals. Administrators approve or reject deposits and withdrawals, adjust balances, suspend
users and conduct draws. The remaining pieces are:

- an authentication service: password strength, session tokens, lockout, password reset;
- a small user server with its own users table;
- the registration, profile and password-reset forms;
- a countdown;
- a health panel.

Every storage table is an in-memory table:

- `Store.Database` holds the hosted tables. Its invariant keys every row by its id, keeps ids below the
  next fresh id and keeps ticket ids distinct;
- `Server.UserTable` holds the server's table.

Each page handler is one sequential step over those tables. A storage call whose error the handler
inspects gets a boolean parameter (`...Fails`) that says whether the call failed. Everything the model
cannot see is a parameter: hashing, random bytes, exchange rates and the clock.

Modules:

- Shared
  - `Wrappers`: `Option`.
  - `Seqs`: filter and sum over sequences, and their laws.
  - `Text`: lower-casing, substring search, digits and hex, and JavaScript's string length in UTF-16
    code units.
  - `Schema`: the table rows.
  - `Ledger`: balance writes.
  - `Store`: the hosted tables.
  - `Review`: the search and tab counts shared by the admin lists.
  - `Selection`: the six-number pick.
- Admin pages
  - `AdminDraws`: draw creation and settlement.
  - `AdminDeposits`, `AdminWithdrawals`: approvals, rejections and their filtered lists.
  - `AdminUsers`: the user search, the status toggle and balance adjustment.
  - `AdminDashboard`: the headline statistics and quick approval.
- Player pages
  - `HomePage`: the draw schedule and ticket purchase.
  - `LotteryGrid`: the number grid component, a class over its state.
  - `TicketsPage`: the ticket list's filters and totals.
  - `WithdrawPage`, `CryptoDeposit`: the request forms, each a class over its fields.
  - `RegisterPage`, `ProfilePage`, `PasswordResetPage`: the account forms.
- Services and components
  - `Auth`: the authentication service.
  - `Server`: the user server's validators and route handlers.
  - `CountdownTimer`, `SystemHealth`: the two components.

Money is an integer number of shekels. Times are integer milliseconds. The local day 0 is a Thursday.

The model keeps these behaviours as the code has them:

- Conducting a draw does not look at the draw's status, so a settled draw can be settled again and pays
  again (`AdminDraws.RegradingPaysAgain`).
- Approvals do not look at a request's status, so approving a deposit twice credits it twice
  (`AdminDeposits.ApprovingTwiceCreditsTwice`).
- A withdrawal approval sets the balance to zero when the amount exceeds it. Its ledger row then does
  not add up (`AdminWithdrawals.DebitWithdrawalFacts`).
- The dashboard's quick approval changes only the status: it credits and debits nothing.
- A balance adjustment starts from the balance the page listed, not from a fresh read.
- A ticket purchase whose balance write fails leaves the inserted ticket unpaid.
- A password reset whose stored expiry is null reads that expiry as the epoch, so it counts as expired.
- Several submit buttons are enabled in cases the handlers refuse:
  - on the withdrawal form when the crypto amount is missing;
  - on the deposit form when no wallet matches;
  - on the reset form while the new password is empty.

  Lemmas exhibit each one.

Two places where the repository's files disagree with each other:

- The password-reset page takes `requestPasswordReset`, `resetPassword` and
  `validatePasswordStrength` from the auth context (src/pages/PasswordResetPage.tsx:19). The context's
  value at src/contexts/AuthContext.tsx:161-168 does not provide them. Only `resetPassword` and
  `validatePasswordStrength` have namesakes in the auth service (src/lib/auth.ts:43, 313), and the model
  binds those two to them, so the `PasswordResetPage` members model the intended wiring. The service has
  no `requestPasswordReset`, so `PasswordResetPage.HandleRequestReset` is modelled only up to that call.
  As written, the page calls `validatePasswordStrength`, which is undefined, as soon as a new password
  is typed (src/pages/PasswordResetPage.tsx:79). Also, `requestPasswordReset` would land in the catch
  branch and its error toast (src/pages/PasswordResetPage.tsx:37-38) on every request.
- The user-management client expects status 409 for a duplicate email
  (src/components/UserManagement.tsx:122). The server answers 400 (server/index.js:90). The model
  follows the server.

The two password policies also pull apart. The server accepts only letters and digits
(server/index.js:38-42). The client's strength check counts a special character as one of its five
criteria (src/lib/auth.ts). So a password the server accepts always gets the client's "add a special
character" message (`Server.ServerPasswordLacksSpecial`).

## Model

| member | source | states |
|---|---|---|
| AdminDraws.MatchCountIsOverlap | src/pages/AdminDraws.tsx:111 | For distinct ticket numbers, the match count is the number of ticket numbers that are among the winning numbers |
| AdminDraws.MatchCountBounds | src/pages/AdminDraws.tsx:111 | The match count is at most the number of ticket numbers; a ticket matched against itself matches fully |
| AdminDraws.PrizeTable | src/pages/AdminDraws.tsx:115-128 | Below 3 matches the prize is 0. From 3 to 5 it is positive and rises with each match. Six matches win the draw's jackpot, or 2,500,000 if the jackpot is zero |
| AdminDraws.GradeFacts | src/pages/AdminDraws.tsx:110-136 | Grading keeps the ticket's identity, owner, draw, numbers and cost. The ticket is a winner exactly when it has 3 to 6 matches, and a loser wins 0 |
| AdminDraws.GradeIdempotent | src/pages/AdminDraws.tsx:110-136 | Grading a graded ticket again gives the same row |
| AdminDraws.RecordResult | src/pages/AdminDraws.tsx:91-97 | The conducted draw gets its winning numbers and the status completed; every other draw is unchanged |
| AdminDraws.PayAllBalances | src/pages/AdminDraws.tsx:149-170 | After the payout every user's balance has risen by exactly the sum of the prizes of that user's winning tickets; no user is added or removed |
| AdminDraws.PayAllLedger | src/pages/AdminDraws.tsx:171-180 | The payout appends exactly one `winnings` row per winning ticket, in ticket order, and keeps the old rows |
| AdminDraws.GradedInDrawIsSettledRows | src/pages/AdminDraws.tsx:101-147 | The tickets paid are exactly the draw's tickets as the settlement wrote them |
| AdminDraws.RegradingPaysAgain | src/pages/AdminDraws.tsx:83-183 | Settling a settled draw again leaves the tickets as they are but finds the same winners, so it would pay them again |
| AdminDraws.CreateDraw | src/pages/AdminDraws.tsx:55-81 | With no date or a zero jackpot, nothing is written. Otherwise one scheduled draw with that date and jackpot is appended, unless the insert fails |
| AdminDraws.SettleTicketAt | src/pages/AdminDraws.tsx:139-182 | One loop step: the ticket's result is written, and a ticket of this draw that wins credits its owner and logs one row |
| AdminDraws.SettleAll | src/pages/AdminDraws.tsx:139-183 | The settlement loop writes every ticket's result and pays all of the draw's winners |
| AdminDraws.ConductDraw | src/pages/AdminDraws.tsx:83-193 | Without exactly 6 numbers, or when the draw update fails, nothing changes. Otherwise the draw is recorded and then the tickets are settled and paid, unless the ticket query fails |
| Selection.Toggle | src/components/LotteryGrid.tsx:19-28 | A picked number is removed and the others stay. An unpicked number is added in ascending order while fewer than 6 are picked. Otherwise the selection is unchanged |
| Selection.SortAscending | src/components/LotteryGrid.tsx:23 | The numeric sort gives an ascending permutation of its input |
| Selection.ToggleKeepsValid | src/components/LotteryGrid.tsx:16-29 | Toggling keeps the selection at most 6 distinct ascending numbers from 1 to 37 |
| Selection.ToggleTwice | src/pages/AdminDraws.tsx:195-206 | A number added by a toggle is removed by the next toggle of it, which restores the earlier selection |
| LotteryGrid.ButtonMatchesChecks | src/components/LotteryGrid.tsx:148 | The buy button is enabled exactly when the purchase checks pass and the grid is neither disabled nor submitting |
| LotteryGrid.Grid.Remaining | src/components/LotteryGrid.tsx:69 | The count of numbers still to pick is between 0 and 6, and is 0 exactly when six are picked |
| LotteryGrid.Grid.constructor | src/components/LotteryGrid.tsx:12-14 | The grid starts with no selection and not submitting |
| LotteryGrid.Grid.ToggleNumber | src/components/LotteryGrid.tsx:16-29 | While disabled or submitting, the selection is unchanged; otherwise it becomes the toggled selection |
| LotteryGrid.Grid.ClearSelection | src/components/LotteryGrid.tsx:54-58 | Empties the selection unless disabled or submitting |
| LotteryGrid.Grid.StartPurchase | src/components/LotteryGrid.tsx:31-42 | With other than 6 picks or a balance below 50, the purchase is refused. Otherwise exactly the selection is submitted and the grid is submitting |
| LotteryGrid.Grid.FinishPurchase | src/components/LotteryGrid.tsx:43-51 | A successful purchase clears the selection and a failed one keeps it; either way submitting ends |
| LotteryGrid.SubmittedIsATicket | src/components/LotteryGrid.tsx:31-44 | What the grid submits is six distinct ascending numbers from 1 to 37 |
| HomePage.NextDrawIsSlot | src/pages/HomePage.tsx:36-73 | The next draw is a Thursday or Sunday at 20:00. It is strictly after now and at most four days ahead |
| HomePage.NextDrawIsEarliest | src/pages/HomePage.tsx:36-73 | No Thursday or Sunday 20:00 after now comes before the computed next draw |
| HomePage.EarliestScheduled | src/pages/HomePage.tsx:140-146 | Finds a scheduled draw with the earliest date; there is none exactly when no draw is scheduled |
| HomePage.DisplayedNextDraw | src/pages/HomePage.tsx:90-106 | With a scheduled draw fetched, the countdown targets the earliest scheduled draw's date. With none, or when the fetch fails, it keeps the computed next draw slot, which is in the future |
| HomePage.DisplayedIsEarliestScheduled | src/pages/HomePage.tsx:92-101 | When some draw is scheduled, the countdown targets the date of a scheduled draw that no other scheduled draw precedes |
| HomePage.TargetIsEarliest | src/pages/HomePage.tsx:140-146 | When a draw is scheduled, the ticket goes to a scheduled draw with the earliest date |
| HomePage.TargetDraw | src/pages/HomePage.tsx:139-162 | Uses the earliest scheduled draw; without one, inserts a scheduled draw with jackpot 2,500,000 at the next draw time |
| HomePage.PurchaseTicket | src/pages/HomePage.tsx:133-203 | Signed out or with a balance below 50, nothing is written. Otherwise the outcome is fixed by the storage failures: a failed draw creation, else a failed ticket insert, else a failed balance write, else the purchase at the balance less 50. A purchase appends exactly one ticket: the numbers, cost 50, the target draw's id, no prize. The draws are untouched when a scheduled draw was found; otherwise exactly one scheduled draw with jackpot 2,500,000 at the page's next draw time is appended first, and the id counter moves with each insert. It then lowers the balance by 50 and appends one balanced `ticket_purchase` row of -50. A failed ticket insert leaves the tickets and the balance alone |
| Review.EmptyTermMatches | src/pages/AdminDeposits.tsx:151-160 | An empty search term matches every row |
| Review.SearchIgnoresCase | src/pages/AdminDeposits.tsx:153-157 | Searching for a term and for its lower-case form gives the same answer |
| Review.TabCounts | src/pages/AdminDeposits.tsx:236-239 | The pending, confirmed and rejected counts add up to the number of rows |
| Schema.NoteOrNull | src/pages/AdminDeposits.tsx:78 | An absent or empty note is stored as null; any other note is stored as given |
| Ledger.SetBalance | src/pages/AdminDeposits.tsx:95-98 | A balance write changes that user's balance and nothing else |
| AdminDeposits.FilteredDepositsExact | src/pages/AdminDeposits.tsx:151-160 | A deposit is listed exactly when its status passes the tab and one of its searched columns contains the term |
| AdminDeposits.OpenFilterShowsAll | src/pages/AdminDeposits.tsx:151-160 | The all tab with an empty search lists every deposit |
| AdminDeposits.CreditDepositFacts | src/pages/AdminDeposits.tsx:84-112 | Approval raises the owner's balance by exactly the deposit and no one else's. It appends one balanced `deposit` row |
| AdminDeposits.ApprovingTwiceCreditsTwice | src/pages/AdminDeposits.tsx:65-123 | Approving the same deposit twice credits it twice |
| AdminDeposits.ApproveDeposit | src/pages/AdminDeposits.tsx:65-123 | An unknown id or a failed status update changes nothing. Otherwise the deposit is confirmed first, then the balance is credited and the row logged unless the owner read or the balance write fails |
| AdminDeposits.RejectDeposit | src/pages/AdminDeposits.tsx:125-149 | Only the deposit's status, reviewer and notes change; balances and the ledger do not |
| AdminWithdrawals.FilteredWithdrawalsExact | src/pages/AdminWithdrawals.tsx:151-160 | A withdrawal is listed exactly when its status passes the tab and one of its searched columns contains the term |
| AdminWithdrawals.OpenFilterShowsAll | src/pages/AdminWithdrawals.tsx:151-160 | The all tab with an empty search lists every withdrawal |
| AdminWithdrawals.DebitWithdrawalFacts | src/pages/AdminWithdrawals.tsx:93-112 | The new balance is the old minus the amount, or 0 when that would be negative. The row records minus the amount and the new balance, so it adds up exactly when the balance covered the amount |
| AdminWithdrawals.ApproveWithdrawal | src/pages/AdminWithdrawals.tsx:65-123 | An unknown id or a failed status update changes nothing. Otherwise the withdrawal is confirmed first, then the clamped debit is written and logged unless a later step fails |
| AdminWithdrawals.RejectWithdrawal | src/pages/AdminWithdrawals.tsx:125-149 | Only the withdrawal's status, processor and notes change; balances and the ledger do not |
| AdminUsers.FilteredUsersExact | src/pages/AdminUsers.tsx:116-120 | A user is listed exactly when the first name, last name or email contains the term, ignoring case |
| AdminUsers.EmptySearchShowsAll | src/pages/AdminUsers.tsx:116-120 | An empty search lists everyone |
| AdminUsers.NextStatus | src/pages/AdminUsers.tsx:57 | An active user becomes suspended; any other status becomes active |
| AdminUsers.NextStatusTwice | src/pages/AdminUsers.tsx:57 | Toggling twice restores the status exactly when it was active or suspended |
| AdminUsers.FindListed | src/pages/AdminUsers.tsx:79-80 | Finds a listed user with the id; there is none exactly when no listed user has it |
| AdminUsers.ToggleUserStatus | src/pages/AdminUsers.tsx:54-74 | Writes the flipped status of the listed status to that user and nothing else, unless the update fails |
| AdminUsers.AdjustmentSubmitted | src/pages/AdminUsers.tsx:339-347 | The modal calls the handler only for a parsed, non-zero amount and a non-empty reason |
| AdminUsers.SubmittedAdjustmentMovesBalance | src/pages/AdminUsers.tsx:339-347 | A blank or zero amount or an empty reason is held back; an adjustment let through logs a balanced row that really moves the balance and carries its reason |
| AdminUsers.AdjustBalance | src/pages/AdminUsers.tsx:76-114 | An unlisted user or a failed write changes nothing. Otherwise the balance becomes the listed balance plus the signed amount, unclamped, and one balanced `admin_adjustment` row is appended. The balance moves exactly when the amount is not zero |
| AdminUsers.ConfirmAdjustment | src/pages/AdminUsers.tsx:339-347 | A blank or zero amount or an empty reason changes nothing. Otherwise the adjustment runs, and when it adjusts, the balance moves by exactly the amount typed, never by zero |
| AdminDashboard.ComputeStats | src/pages/AdminDashboard.tsx:51-97 | The dashboard's counts of users, pending deposits, pending withdrawals and open draws, and the balance total, over the fetched rows |
| AdminDashboard.StatsAddUp | src/pages/AdminDashboard.tsx:75 | The total balance is the reduce from 0: zero for no users, and one more user adds exactly that user's balance and one to the user count |
| AdminDashboard.StatsBounds | src/pages/AdminDashboard.tsx:51-97 | The pending counts are bounded by their tables; open and other draws make up all draws |
| AdminDashboard.TotalBalanceNonNegative | src/pages/AdminDashboard.tsx:75 | The total balance is not negative when no balance is |
| AdminDashboard.QuickMatchesPageApproval | src/pages/AdminDashboard.tsx:135-156 | A quick approval writes the same status columns as the list pages' approvals and keeps the notes |
| AdminDashboard.QuickApproval | src/pages/AdminDashboard.tsx:135-156 | Only the chosen request's status columns change: no balance, no ledger row |
| TicketsPage.FilteredTicketsExact | src/pages/TicketsPage.tsx:65-76 | A ticket is listed exactly when the tab keeps it: open draws, completed draws, winners, or all |
| TicketsPage.FilteredTicketsKeepOrder | src/pages/TicketsPage.tsx:65-76 | Every tab lists a sublist of the tickets in their order |
| TicketsPage.AllTabShowsEverything | src/pages/TicketsPage.tsx:73-74 | The all tab lists every ticket |
| TicketsPage.SpentAtTicketPrice | src/pages/TicketsPage.tsx:78 | With every ticket at the ticket price, the amount spent is 50 per ticket |
| TicketsPage.WinningsComeFromWinners | src/pages/TicketsPage.tsx:79-80 | The total winnings are the sum over the winners tab when losers carry no prize |
| TicketsPage.GradedWinningsNonNegative | src/pages/TicketsPage.tsx:65-80 | For a list of tickets across draws, each either unsettled with the insert defaults or graded against its own draw, the total winnings are not negative and equal the winners tab's sum |
| TicketsPage.TabCountIsShownCount | src/pages/TicketsPage.tsx:195-198 | Each tab's count equals the number of tickets it lists |
| TicketsPage.ColourOf | src/pages/TicketsPage.tsx:101-110 | A ball is highlighted exactly when the draw has numbers and it is one of them; it is green exactly when the ticket also won |
| TicketsPage.HighlightedBallsAreMatches | src/pages/TicketsPage.tsx:101-110 | The number of highlighted balls is the ticket's match count |
| WithdrawPage.SubmitCheck | src/pages/WithdrawPage.tsx:119-133 | The checks in order: a missing field, then an amount below 200, then an amount above the balance. An amount from 200 up to the balance passes |
| WithdrawPage.ButtonMatchesHandler | src/pages/WithdrawPage.tsx:336 | With a crypto amount present, the submit button is enabled exactly when the handler's checks pass |
| WithdrawPage.ButtonEnabledWithoutCryptoAmount | src/pages/WithdrawPage.tsx:336 | The button can be enabled with no crypto amount, which the handler refuses |
| WithdrawPage.PendingRequest | src/pages/WithdrawPage.tsx:138-148 | The request is pending and unprocessed, with the user, the amount and the address |
| WithdrawPage.WithdrawForm.constructor | src/pages/WithdrawPage.tsx:40-42 | The form starts empty |
| WithdrawPage.WithdrawForm.Submit | src/pages/WithdrawPage.tsx:116-160 | A refused or failed submission changes nothing, and a failed insert after passing checks is reported as such, not as a refusal. An accepted one inserts exactly one pending withdrawal under the next fresh id, advances that id by one and clears the fields. No balance is debited |
| CryptoDeposit.SelectedWallet | src/components/CryptoDeposit.tsx:100 | Gives the first wallet of the chosen crypto; there is none exactly when no wallet has it |
| CryptoDeposit.SelectedWalletIsActive | src/components/CryptoDeposit.tsx:64-70 | The selected wallet is an active wallet of the chosen crypto |
| CryptoDeposit.SubmitCheck | src/components/CryptoDeposit.tsx:116-124 | A missing amount or wallet is refused first, then a shekel amount below 100; 100 or more passes |
| CryptoDeposit.ButtonMatchesHandler | src/components/CryptoDeposit.tsx:292 | With a wallet selected, the button is enabled exactly when the handler's checks pass |
| CryptoDeposit.ButtonEnabledWithoutWallet | src/components/CryptoDeposit.tsx:292 | The button can be enabled with no wallet for the crypto, which the handler refuses |
| CryptoDeposit.PendingDeposit | src/components/CryptoDeposit.tsx:129-139 | The deposit is pending and unvalidated, carrying the selected wallet's address and the amount |
| CryptoDeposit.DepositForm.constructor | src/components/CryptoDeposit.tsx:37-38 | The form starts empty and has created no deposit |
| CryptoDeposit.DepositForm.Submit | src/components/CryptoDeposit.tsx:113-150 | A refused or failed submission changes nothing, and a failed insert after passing checks is reported as such, not as a refusal. An accepted one inserts exactly one pending deposit under the next fresh id, advances that id by one, clears both amounts and calls back once |
| Auth.ValidatePasswordStrength | src/lib/auth.ts:43-82 | The accumulating loop computes the strength: one point per met criterion, feedback per missed one, valid from 4 |
| Auth.ScorePlusFeedback | src/lib/auth.ts:44-81 | Score plus the number of feedback messages is 5 |
| Auth.FeedbackIsMissedCriteria | src/lib/auth.ts:47-75 | The feedback names exactly the missed criteria, in the fixed order |
| Auth.ValidMissesAtMostOne | src/lib/auth.ts:77-81 | A password is valid exactly when it misses at most one criterion |
| Auth.StrongPassExample | src/lib/auth.ts:43-82 | `StrongPass123!` scores 5 with no feedback and is valid |
| Auth.OnlyLowerScoresOne | src/lib/auth.ts:47-81 | A short password with only lower-case letters scores 1, gets four messages and is invalid |
| Auth.WeakExample | src/lib/auth.ts:43-82 | `weak` scores 1 and is invalid |
| Auth.WeakMeetsOnlyLower | src/lib/auth.ts:47-75 | `weak` meets only the lower-case criterion |
| Auth.AttemptLogin | src/lib/auth.ts:85-169 | A locked account is refused with no call. Success requires a known, verified user, a matching password and no auth error, and calls only the success hook. An unknown user, a bad password or an auth error call only the failure hook. An unverified email calls neither |
| Auth.UnknownAndWrongPasswordLookAlike | src/lib/auth.ts:111-137 | An unknown email and a wrong password give the same answer and the same call |
| Auth.SessionToken | src/lib/auth.ts:172-176 | The token has two lower-case hex digits per byte |
| Auth.SessionTokenJoinsByteHex | src/lib/auth.ts:175 | The token is each byte's `toString(16).padStart(2, '0')`, joined in order |
| Auth.SessionTokenRoundTrip | src/lib/auth.ts:175 | Reading the token back two hex digits at a time gives exactly the byte values, in order |
| Auth.SessionTokenShape | src/lib/auth.ts:172-176 | From 32 bytes the token is 64 characters of 0-9 and a-f |
| Auth.SessionExpiry | src/lib/auth.ts:181-187 | A session lasts 30 days when remembered and 24 hours otherwise |
| Auth.CreateSession | src/lib/auth.ts:179-199 | Appends one session with the token and expiry unless the insert fails; returns the token either way |
| Auth.IsAccountLocked | src/lib/auth.ts:20-38 | An account is locked when its row has a lockout time strictly after now |
| Auth.LockoutIsAWindow | src/lib/auth.ts:20-38 | A row the query did not return is never locked. A lockout holds at every instant before the stored time and at none from it on |
| Auth.ValidateSession | src/lib/auth.ts:202-216 | A session is valid when exactly one row has the token and it expires strictly after now |
| Auth.SessionValidityIsAWindow | src/lib/auth.ts:202-216 | No row, or several rows, with the token means not valid. A valid session stays valid at every earlier instant, and some stored session with that token expires after now |
| Auth.NewSessionValidUntilExpiry | src/lib/auth.ts:202-217 | A newly stored session validates exactly while now is before its expiry |
| Auth.ExpiryIsStrict | src/lib/auth.ts:30-32 | At the very instant of the lock or session expiry, the account is no longer locked and the session is no longer valid |
| Auth.ResetPassword | src/lib/auth.ts:313-352 | Succeeds exactly for a strong password, a known token, an unexpired deadline and a successful write. Success writes the new hash and clears the token; anything else writes nothing |
| Server.ValidateEmailExact | server/index.js:33-36 | The email pattern accepts exactly: no whitespace, one `@` after a non-empty local part, and a domain with a dot that is neither its first nor last character |
| Server.FindEmail | server/index.js:88-90 | Finds a row with the email; there is none exactly when no row has it |
| Server.ValidatePassword | server/index.js:38-42 | A password is 6 to 20 ASCII letters or digits and nothing else |
| Server.ValidatePasswordBounds | server/index.js:38-42 | 6 and 20 letters or digits pass; 5, 21, or any punctuation mark fail |
| Server.ServerPasswordLacksSpecial | server/index.js:38-42 | A password the server accepts never meets the client's special-character criterion, so the client's strength check always asks for one |
| Server.RegisterCheck | server/index.js:64-76 | The register checks in order: missing field, bad email, bad password, existing email. Each holds exactly under its condition |
| Server.WithoutIdRemovesOne | server/index.js:170-177 | With unique ids, deleting an existing id removes exactly that row |
| Server.WithoutIdWellFormed | server/index.js:167-181 | Deleting keeps ids unique and below the next id |
| Server.UserTable.constructor | server/index.js:16-30 | The table starts empty |
| Server.UserTable.Register | server/index.js:60-104 | A failed check answers 400 with its error and leaves the table alone. A failed insert answers 500. Otherwise one row is appended with a fresh id |
| Server.UserTable.Login | server/index.js:107-153 | An unknown email and a wrong password both answer 401. Both fields, a working query, a known email and a matching password always log in, and success changes only that user's last login. The reply carries the account's id, email, creation time and new last login, and no password hash |
| Server.Public | server/index.js:139-146 | The user object sent back keeps the row's id, email, creation time and last login |
| Server.PublicForgetsHash | server/index.js:139-146 | The user object sent back is the same whatever the stored hash |
| Server.UserTable.ResetAll | server/index.js:156-164 | Removes every user unless the delete fails |
| Server.UserTable.DeleteUser | server/index.js:167-181 | A missing id answers 404 and changes nothing. An existing id removes exactly that row |
| RegisterPage.HandleChange | src/pages/RegisterPage.tsx:61-66 | The named field takes the value; every other field keeps its own |
| RegisterPage.ChangeToSameValue | src/pages/RegisterPage.tsx:61-66 | Typing a field's own value leaves the form unchanged |
| RegisterPage.HandleSubmit | src/pages/RegisterPage.tsx:23-50 | The checks in order: a required field missing, passwords differing, a password under 6 UTF-16 code units. `register` is called exactly when all pass, with an empty phone as none |
| RegisterPage.PhoneIsOptional | src/pages/RegisterPage.tsx:48 | The phone never decides whether the form is accepted |
| ProfilePage.StoredPhone | src/pages/ProfilePage.tsx:55 | An empty phone is stored as null |
| ProfilePage.SavedProfile | src/pages/ProfilePage.tsx:50-57 | A save writes the names, the phone and the update time and nothing else |
| ProfilePage.SaveNeverWritesEmail | src/pages/ProfilePage.tsx:50-57 | The email typed in the form is never written |
| ProfilePage.SaveProfile | src/pages/ProfilePage.tsx:42-73 | An incomplete form or a failed update writes nothing; otherwise the user's row is saved |
| ProfilePage.PasswordCheck | src/pages/ProfilePage.tsx:75-89 | The checks in order: a field empty, the new passwords differing, a new password under 6 UTF-16 code units |
| ProfilePage.WithPasswordHash | src/pages/ProfilePage.tsx:113-119 | A password change writes the hash and the update time and nothing else |
| ProfilePage.ChangePassword | src/pages/ProfilePage.tsx:75-146 | A refused check, a failed read, a wrong current password or a failed update leave the hash alone. Only a full success writes the new hash and clears the fields |
| ProfilePage.ToggleVisibility | src/pages/ProfilePage.tsx:162-167 | The named input flips between shown and hidden; the other two keep their state |
| ProfilePage.ToggleTwice | src/pages/ProfilePage.tsx:162-167 | Toggling an input twice restores the state |
| PasswordResetPage.HandleRequestReset | src/pages/PasswordResetPage.tsx:21-26 | An empty email is refused; otherwise the reset is requested for that email. What the request then does is not modelled |
| PasswordResetPage.HandleResetPassword | src/pages/PasswordResetPage.tsx:44-65 | The checks in order: a field empty, the passwords differing, the strength check failing with its feedback. `resetPassword` is called exactly when all pass |
| PasswordResetPage.WeakRefusalNamesTwoCriteria | src/pages/PasswordResetPage.tsx:57-60 | A refusal for weakness names at least two missed criteria |
| PasswordResetPage.StrengthShown | src/pages/PasswordResetPage.tsx:79 | No strength is shown for an empty password; otherwise the service's strength is shown |
| PasswordResetPage.LabelOf | src/pages/PasswordResetPage.tsx:219-221 | Weak up to score 2, medium at 3, strong from 4 |
| PasswordResetPage.StrongLabelMeansValid | src/pages/PasswordResetPage.tsx:207-221 | The label reads strong exactly when the service accepts the password |
| PasswordResetPage.ButtonMatchesHandler | src/pages/PasswordResetPage.tsx:260 | With both fields filled and equal, the button is enabled exactly when the handler calls `resetPassword` |
| PasswordResetPage.ButtonEnabledWhileEmpty | src/pages/PasswordResetPage.tsx:260 | With an empty new password the button is enabled, and the handler refuses |
| CountdownTimer.TickAt | src/components/CountdownTimer.tsx:22-35 | The countdown completes exactly when the target is not ahead, and then shows zeros; the parts are always in range |
| CountdownTimer.SplitRecombines | src/components/CountdownTimer.tsx:26-31 | Hours are below 24 and minutes and seconds below 60. Recombined, the parts are at most the remaining time and less than a second short of it |
| CountdownTimer.SplitIsUnique | src/components/CountdownTimer.tsx:27-30 | No other in-range parts recombine that way |
| CountdownTimer.Display | src/components/CountdownTimer.tsx:77 | Each value shows as at least two decimal digits, exactly two below 100 |
| CountdownTimer.DisplayReadsBack | src/components/CountdownTimer.tsx:77 | The shown digits read back as the value |
| SystemHealth.LoadTimeStatus | src/components/SystemHealthCheck.tsx:105-126 | Load time under 2000 ms is healthy, under 5000 ms a warning, otherwise an error |
| SystemHealth.Overall | src/components/SystemHealthCheck.tsx:151-160 | Error if any check errs, otherwise warning if any warns, otherwise healthy |
| SystemHealth.OverallIsWorst | src/components/SystemHealthCheck.tsx:151-160 | The overall status is the most severe status among the checks |
| SystemHealth.PerformHealthChecks | src/components/SystemHealthCheck.tsx:32-163 | The six entries come in their fixed order with the status each probe implies. The database entry errs exactly when its query errs or throws, and the mobile and security entries are always healthy. Overall is healthy or error exactly under the stated conditions |
| Text.Utf16Length | src/pages/RegisterPage.tsx:37 | A string's `.length` lies between its number of characters and twice that, and is zero only for the empty string |
| Text.Utf16LengthOfBmp | src/pages/ProfilePage.tsx:86 | For characters below U+10000, `.length` is the number of characters |
| Text.EmojiCountsTwice | src/lib/auth.ts:47 | A character above the Basic Multilingual Plane is one character but counts 2 towards `.length` |
| Store.Database.InsertDraw | src/pages/HomePage.tsx:150-158 | An insert appends one scheduled draw without a result under a fresh id and changes no other table |
| Store.Database.InsertTicket | src/pages/HomePage.tsx:165-172 | An insert appends one unsettled ticket with a fresh id and changes no other table |
| Store.Database.WriteBalance | src/pages/HomePage.tsx:177-181 | Updating `balance_ils` for an id changes that user's balance only, and no other table |
| Store.Database.LogTransaction | src/pages/HomePage.tsx:186-195 | Inserting a transaction appends that one row and changes no other table |

## Left out

- Storage client: the query builder and SQLite are replaced by in-memory tables. A storage call's
  failure is a boolean parameter. Errors the handlers ignore are modelled as success.
- Concurrency: each handler is one atomic step. The read-then-write races on balances
  (for example src/pages/AdminDeposits.tsx:85-98) and async interleavings are not modelled.
- Exchange rates and floating point:
  - the market-rate fetches and the crypto/shekel conversions with `parseFloat` and `toFixed` are
    external and floating-point;
  - the rate and the crypto amount are parameters;
  - shekel amounts are whole numbers.
- Hashing and randomness: bcrypt's hash and compare and `crypto.getRandomValues` are parameters. Only
  the hex encoding is modelled.
- Clock and locale: time is integer local milliseconds with no daylight saving. `toLocaleDateString`,
  `toISOString`, the interval timers and the jackpot animation are left out.
- Rendering, routing, toasts, the landing, login, deposit and status pages, and the floating contact
  button are left out.
- src/components/UserManagement.tsx is left out: it is an HTTP client of the user server.
- The auth service's `generateEmailVerificationToken`, `verifyEmail`, `generatePasswordResetToken`,
  `hasPermission`, `logAuditEvent` and `cleanupExpiredSessions` are left out. None of them is among the
  modelled operations.
- The user server's `GET /api/users` listing and its health route are left out: they only read.
- AdminDashboard: the `todayTickets` count is left out.
- ProfilePage.ChangePassword: the relay of the new password to the hosted auth service ignores its
  errors and is left out.
- PasswordResetPage: the strength bar's width is floating-point display and is left out. The page's
  `token!` is taken to be a present string.
- SystemHealth.PerformHealthChecks: the browser's performance timings are a parameter, the load time,
  and the mobile-detection message is left out.
- Server.UserTable.Register, Server.UserTable.Login: the request body is taken to hold strings. A
  non-string JSON password would make bcrypt throw, answering 500 "Server error"
  (server/index.js:101-103, 148-150); the model does not represent such a body.
- Text.ToLower: lower-cases ASCII letters only; the platform's full Unicode case mapping is not modelled.
- AdminUsers.AdjustmentSubmitted: the amount's `parseFloat` is modelled as an optional whole number.
- Auth.CreateSession: `crypto.getRandomValues` is a parameter, a sequence of bytes (values 0-255) of
  any length. The source always draws 32; the 64-character shape for that case is stated by
  Auth.SessionTokenShape.
- Auth.AttemptLogin: the lookup is given as the row the query returned. The lookup's own error is
  treated like a missing row, as the handler treats it. The lockout query's result is taken from the same row.
- The status toggle is only rendered for clients (src/pages/AdminUsers.tsx:276), and the dashboard
  only for administrators. Both are display conditions. The handlers do not check them, and neither
  does the model.
