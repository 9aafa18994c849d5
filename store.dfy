/** The hosted database as one object whose tables the handlers update in place. */
module Store {
  import opened Wrappers
  import opened Schema
  import Ledger

  class Database {
    var users: map<Id, User>
    var draws: seq<Draw>
    var tickets: seq<Ticket>
    var deposits: map<Id, Deposit>
    var withdrawals: map<Id, Withdrawal>
    var transactions: seq<Transaction>
    var sessions: seq<Session>
    /** The next value the database's id generator hands out for an inserted row. */
    var nextId: Id

    /** Rows are stored under their own id, and every generated id is below `nextId`. */
    ghost predicate Valid()
      reads this
    {
      (forall k :: k in users ==> users[k].id == k) &&
      (forall k :: k in deposits ==> deposits[k].id == k && k < nextId) &&
      (forall k :: k in withdrawals ==> withdrawals[k].id == k && k < nextId) &&
      (forall i :: 0 <= i < |draws| ==> draws[i].id < nextId) &&
      (forall i :: 0 <= i < |tickets| ==> tickets[i].id < nextId) &&
      (forall i, j :: 0 <= i < j < |tickets| ==> tickets[i].id != tickets[j].id)
    }

    constructor (users0: map<Id, User>)
      requires forall k :: k in users0 ==> users0[k].id == k
      ensures Valid()
      ensures users == users0 && draws == [] && tickets == [] && deposits == map[]
      ensures withdrawals == map[] && transactions == [] && sessions == []
    {
      users := users0;
      draws := [];
      tickets := [];
      deposits := map[];
      withdrawals := map[];
      transactions := [];
      sessions := [];
      nextId := 0;
    }

    /** Inserts a `scheduled` draw with no result; the database assigns its id. */
    method InsertDraw(drawDate: Millis, jackpot: int, createdBy: Option<Id>) returns (id: Id)
      requires Valid()
      modifies this
      ensures Valid()
      ensures id == old(nextId) && nextId == id + 1
      ensures draws == old(draws) + [Draw(id, drawDate, None, jackpot, 0, Scheduled, createdBy)]
      ensures users == old(users) && tickets == old(tickets) && deposits == old(deposits)
      ensures withdrawals == old(withdrawals) && transactions == old(transactions) && sessions == old(sessions)
    {
      id := nextId;
      draws := draws + [Draw(id, drawDate, None, jackpot, 0, Scheduled, createdBy)];
      nextId := id + 1;
    }

    /** Inserts a ticket with the column defaults: no matches, no prize, not a winner. */
    method InsertTicket(userId: Id, drawId: Id, numbers: seq<int>, cost: int) returns (id: Id)
      requires Valid()
      modifies this
      ensures Valid()
      ensures id == old(nextId) && nextId == id + 1
      ensures tickets == old(tickets) + [Ticket(id, userId, drawId, numbers, cost, 0, 0, false)]
      ensures users == old(users) && draws == old(draws) && deposits == old(deposits)
      ensures withdrawals == old(withdrawals) && transactions == old(transactions) && sessions == old(sessions)
    {
      id := nextId;
      tickets := tickets + [Ticket(id, userId, drawId, numbers, cost, 0, 0, false)];
      nextId := id + 1;
    }

    /** Inserts a deposit request under a fresh id. */
    method InsertDeposit(d: Deposit) returns (id: Id)
      requires Valid()
      modifies this
      ensures Valid()
      ensures id == old(nextId) && nextId == id + 1
      ensures id !in old(deposits) && deposits == old(deposits)[id := d.(id := id)]
      ensures users == old(users) && draws == old(draws) && tickets == old(tickets)
      ensures withdrawals == old(withdrawals) && transactions == old(transactions) && sessions == old(sessions)
    {
      id := nextId;
      deposits := deposits[id := d.(id := id)];
      nextId := id + 1;
    }

    /** Inserts a withdrawal request under a fresh id. */
    method InsertWithdrawal(w: Withdrawal) returns (id: Id)
      requires Valid()
      modifies this
      ensures Valid()
      ensures id == old(nextId) && nextId == id + 1
      ensures id !in old(withdrawals) && withdrawals == old(withdrawals)[id := w.(id := id)]
      ensures users == old(users) && draws == old(draws) && tickets == old(tickets)
      ensures deposits == old(deposits) && transactions == old(transactions) && sessions == old(sessions)
    {
      id := nextId;
      withdrawals := withdrawals[id := w.(id := id)];
      nextId := id + 1;
    }

    /** Sets one user's balance column; an unknown id matches no row and changes nothing. */
    method WriteBalance(uid: Id, b: int)
      requires Valid()
      modifies this
      ensures Valid()
      ensures users == Ledger.SetBalance(old(users), uid, b) && nextId == old(nextId)
      ensures draws == old(draws) && tickets == old(tickets) && deposits == old(deposits)
      ensures withdrawals == old(withdrawals) && transactions == old(transactions) && sessions == old(sessions)
    {
      users := Ledger.SetBalance(users, uid, b);
    }

    /** Appends a row to the transactions table. */
    method LogTransaction(t: Transaction)
      requires Valid()
      modifies this
      ensures Valid()
      ensures transactions == old(transactions) + [t] && nextId == old(nextId)
      ensures users == old(users) && draws == old(draws) && tickets == old(tickets)
      ensures deposits == old(deposits) && withdrawals == old(withdrawals) && sessions == old(sessions)
    {
      transactions := transactions + [t];
    }
  }
}
