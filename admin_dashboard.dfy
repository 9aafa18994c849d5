/**
 * The admin dashboard: the headline counts and total balance, who may see it, and the quick
 * approval button, which marks a request confirmed without touching any balance.
 */
module AdminDashboard {
  import opened Wrappers
  import opened Schema
  import Seqs
  import Store
  import AdminDeposits
  import AdminWithdrawals

  /** Only administrators reach the dashboard (role `admin` or `root`). */
  predicate CanView(user: Option<User>) {
    user.Some? && IsAdmin(user.value.role)
  }

  predicate OpenDraw(d: Draw) { d.status == Scheduled || d.status == Active }

  datatype Stats = Stats(totalUsers: nat, pendingDeposits: nat, pendingWithdrawals: nat, totalBalance: int, activeDraws: nat)

  /** The counts and the `reduce` of balances over the fetched rows. */
  function ComputeStats(users: seq<User>, deposits: seq<Deposit>, withdrawals: seq<Withdrawal>, draws: seq<Draw>): Stats {
    Stats(|users|,
          |Seqs.Filter(deposits, (d: Deposit) => d.status == Pending)|,
          |Seqs.Filter(withdrawals, (w: Withdrawal) => w.status == Pending)|,
          Seqs.SumOf(users, (u: User) => u.balance),
          |Seqs.Filter(draws, OpenDraw)|)
  }

  /**
   * The total balance is the `reduce` from 0: nothing for no users, and one more user adds that user's
   * balance; the user count grows by one with it and the other counts do not move.
   */
  lemma StatsAddUp(users: seq<User>, u: User, deposits: seq<Deposit>, withdrawals: seq<Withdrawal>, draws: seq<Draw>)
    ensures ComputeStats([], deposits, withdrawals, draws).totalBalance == 0
    ensures var before, after := ComputeStats(users, deposits, withdrawals, draws), ComputeStats(users + [u], deposits, withdrawals, draws);
      after.totalBalance == before.totalBalance + u.balance && after.totalUsers == before.totalUsers + 1 &&
      after.pendingDeposits == before.pendingDeposits && after.pendingWithdrawals == before.pendingWithdrawals &&
      after.activeDraws == before.activeDraws
  {
    Seqs.SumOfAppend(users, u, (v: User) => v.balance);
  }

  /** Each pending count is bounded by its table; the open and the closed draws make up all draws. */
  lemma StatsBounds(users: seq<User>, deposits: seq<Deposit>, withdrawals: seq<Withdrawal>, draws: seq<Draw>)
    ensures var s := ComputeStats(users, deposits, withdrawals, draws);
      s.pendingDeposits <= |deposits| && s.pendingWithdrawals <= |withdrawals| &&
      s.activeDraws + |Seqs.Filter(draws, Seqs.Negate(OpenDraw))| == |draws|
  {
    Seqs.FilterPartition(draws, OpenDraw);
  }

  /** With no negative balance among the users, the total balance is not negative; nor is it when there are no users. */
  lemma TotalBalanceNonNegative(users: seq<User>, deposits: seq<Deposit>, withdrawals: seq<Withdrawal>, draws: seq<Draw>)
    requires forall i :: 0 <= i < |users| ==> users[i].balance >= 0
    ensures ComputeStats(users, deposits, withdrawals, draws).totalBalance >= 0
  {
    Seqs.SumOfNonNegative(users, (u: User) => u.balance);
  }

  /** The deposit row after a quick approval: `confirmed`, by whom and when; the notes stay as they were. */
  function QuickConfirmDeposit(d: Deposit, admin: Option<Id>, now: Millis): Deposit {
    d.(status := Confirmed, validatedBy := admin, validatedAt := Some(now))
  }

  function QuickConfirmWithdrawal(w: Withdrawal, admin: Option<Id>, now: Millis): Withdrawal {
    w.(status := Confirmed, processedBy := admin, processedAt := Some(now))
  }

  /** A quick approval writes the same status columns as the deposits page's approval and leaves the notes alone. */
  lemma QuickMatchesPageApproval(d: Deposit, w: Withdrawal, admin: Option<Id>, now: Millis)
    ensures QuickConfirmDeposit(d, admin, now) == AdminDeposits.Confirm(d, admin, now, None).(notes := d.notes)
    ensures QuickConfirmWithdrawal(w, admin, now) == AdminWithdrawals.Confirm(w, admin, now, None).(notes := w.notes)
  {
  }

  datatype RequestKind = DepositRequest | WithdrawalRequest

  /**
   * `handleQuickApproval(type, id)`: one status update on the chosen table. No balance is changed and
   * no ledger row is written, unlike the approvals on the deposits and withdrawals pages.
   */
  method QuickApproval(db: Store.Database, kind: RequestKind, id: Id, admin: Option<Id>, now: Millis, updateFails: bool)
    returns (ok: bool)
    requires db.Valid()
    modifies db
    ensures db.Valid()
    ensures ok == !updateFails
    ensures db.deposits == if ok && kind == DepositRequest && id in old(db.deposits)
                           then old(db.deposits)[id := QuickConfirmDeposit(old(db.deposits)[id], admin, now)]
                           else old(db.deposits)
    ensures db.withdrawals == if ok && kind == WithdrawalRequest && id in old(db.withdrawals)
                              then old(db.withdrawals)[id := QuickConfirmWithdrawal(old(db.withdrawals)[id], admin, now)]
                              else old(db.withdrawals)
    ensures db.users == old(db.users) && db.transactions == old(db.transactions)
    ensures db.draws == old(db.draws) && db.tickets == old(db.tickets)
    ensures db.sessions == old(db.sessions) && db.nextId == old(db.nextId)
  {
    if updateFails {
      return false;
    }
    if kind == DepositRequest && id in db.deposits {
      db.deposits := db.deposits[id := QuickConfirmDeposit(db.deposits[id], admin, now)];
    } else if kind == WithdrawalRequest && id in db.withdrawals {
      db.withdrawals := db.withdrawals[id := QuickConfirmWithdrawal(db.withdrawals[id], admin, now)];
    }
    ok := true;
  }
}
