/** Reading and writing the balance column the way the handlers do it. */
module Ledger {
  import opened Schema

  /** `userData?.balance_ils || 0`: the stored balance, or 0 when no row was found. */
  function BalanceOf(users: map<Id, User>, uid: Id): int {
    if uid in users then users[uid].balance else 0
  }

  /** `update({ balance_ils: b }).eq('id', uid)`: changes that one row, and nothing when there is none. */
  function SetBalance(users: map<Id, User>, uid: Id, b: int): (r: map<Id, User>)
    ensures r.Keys == users.Keys
    ensures uid in users ==> r[uid] == users[uid].(balance := b)
    ensures forall u :: u in users && u != uid ==> r[u] == users[u]
  {
    if uid in users then users[uid := users[uid].(balance := b)] else users
  }

  /** The users table together with the transactions ledger. */
  datatype Books = Books(users: map<Id, User>, ledger: seq<Transaction>)

  /** A user table whose rows are stored under their own id. */
  predicate KeyedById(users: map<Id, User>) {
    forall k :: k in users ==> users[k].id == k
  }
}
