/**
 * The admin draws page: scheduling a draw, and conducting it, which records the six winning
 * numbers, grades every ticket of the draw against the prize table and credits each paying ticket's
 * owner with a `winnings` ledger row.
 */
module AdminDraws {
  import opened Wrappers
  import opened Schema
  import opened Ledger
  import Seqs
  import Selection
  import Store

  /** The jackpot used when the draw being conducted has none, and the new-draw form's default. */
  const DefaultJackpot: int := 2500000
  const FiveMatchPrize: int := 50000
  const FourMatchPrize: int := 5000
  const ThreeMatchPrize: int := 500

  // ---------------------------------------------------------------- grading

  /** `numbers.filter(n => winning.includes(n)).length`. */
  function MatchCount(numbers: seq<int>, winning: seq<int>): nat {
    |Seqs.Filter(numbers, (n: int) => n in winning)|
  }

  /** The prize for a number of matches; a six-match uses the draw's jackpot, or the default when that is 0. */
  function Prize(matches: int, jackpot: int): int {
    if matches == 6 then (if jackpot != 0 then jackpot else DefaultJackpot)
    else if matches == 5 then FiveMatchPrize
    else if matches == 4 then FourMatchPrize
    else if matches == 3 then ThreeMatchPrize
    else 0
  }

  /** The tiers that mark a ticket as a winner: three to six matches. */
  predicate WinningTier(matches: int) { 3 <= matches <= 6 }

  /** A ticket graded against the winning numbers: match count, prize and winner flag. */
  function Grade(t: Ticket, winning: seq<int>, jackpot: int): Ticket {
    var m := MatchCount(t.numbers, winning);
    t.(matches := m, winningAmount := Prize(m, jackpot), isWinner := WinningTier(m))
  }

  /** A ticket whose owner is credited: a winner with a positive prize. */
  predicate Paid(t: Ticket) { t.isWinner && t.winningAmount > 0 }

  function Overlap(numbers: seq<int>, winning: seq<int>): set<int> {
    set n | n in numbers && n in winning
  }

  predicate Distinct(s: seq<int>) {
    forall i, j :: 0 <= i < j < |s| ==> s[i] != s[j]
  }

  /** For a ticket without repeated numbers, the match count is the number of shared numbers. */
  lemma {:induction false} MatchCountIsOverlap(numbers: seq<int>, winning: seq<int>)
    requires Distinct(numbers)
    ensures MatchCount(numbers, winning) == |Overlap(numbers, winning)|
    decreases |numbers|
  {
    if numbers != [] {
      var init := numbers[..|numbers| - 1];
      var last := numbers[|numbers| - 1];
      assert Distinct(init);
      MatchCountIsOverlap(init, winning);
      assert numbers == init + [last];
      assert last !in init;
      if last in winning {
        assert Overlap(numbers, winning) == Overlap(init, winning) + {last};
      } else {
        assert Overlap(numbers, winning) == Overlap(init, winning);
      }
    }
  }

  /** A ticket of six distinct numbers matches at most six, and exactly six when it is the winning draw. */
  lemma MatchCountBounds(numbers: seq<int>, winning: seq<int>)
    requires Distinct(numbers)
    ensures MatchCount(numbers, winning) <= |numbers|
    ensures MatchCount(numbers, numbers) == |numbers|
  {
    Seqs.FilterAll(numbers, (n: int) => n in numbers);
  }

  /** The prize table: a winner is paid by tier, a non-winner is paid nothing, and more matches never pay less. */
  lemma PrizeTable(m: int, jackpot: int)
    ensures !WinningTier(m) ==> Prize(m, jackpot) == 0
    ensures 3 <= m <= 5 ==> Prize(m, jackpot) > 0
    ensures m == 6 ==> Prize(m, jackpot) == (if jackpot == 0 then DefaultJackpot else jackpot)
    ensures 3 <= m < 5 ==> Prize(m, jackpot) < Prize(m + 1, jackpot)
  {
  }

  /** Grading changes only the three result columns, and a ticket that does not win is owed nothing. */
  lemma GradeFacts(t: Ticket, winning: seq<int>, jackpot: int)
    ensures var g := Grade(t, winning, jackpot);
      g.id == t.id && g.userId == t.userId && g.drawId == t.drawId && g.numbers == t.numbers && g.cost == t.cost &&
      (g.isWinner <==> 3 <= g.matches <= 6) && (!g.isWinner ==> g.winningAmount == 0) &&
      0 <= g.matches <= |t.numbers|
  {
  }

  /** Grading depends only on the ticket's numbers, so grading twice is grading once. */
  lemma GradeIdempotent(t: Ticket, winning: seq<int>, jackpot: int)
    ensures Grade(Grade(t, winning, jackpot), winning, jackpot) == Grade(t, winning, jackpot)
  {
  }

  // ---------------------------------------------------------------- tables after a draw

  /** `update({ winning_numbers, status: 'completed' }).eq('id', drawId)`. */
  function RecordResult(draws: seq<Draw>, drawId: Id, winning: seq<int>): (r: seq<Draw>)
    ensures |r| == |draws|
    ensures forall k :: 0 <= k < |r| ==>
              if draws[k].id == drawId
              then r[k] == draws[k].(winningNumbers := Some(winning), status := Completed)
              else r[k] == draws[k]
  {
    seq(|draws|, k requires 0 <= k < |draws| =>
      if draws[k].id == drawId then draws[k].(winningNumbers := Some(winning), status := Completed) else draws[k])
  }

  function Settle(t: Ticket, drawId: Id, winning: seq<int>, jackpot: int): Ticket {
    if t.drawId == drawId then Grade(t, winning, jackpot) else t
  }

  /** The tickets table after every ticket of the draw is graded; other tickets are untouched. */
  function SettleTickets(ts: seq<Ticket>, drawId: Id, winning: seq<int>, jackpot: int): seq<Ticket> {
    seq(|ts|, k requires 0 <= k < |ts| => Settle(ts[k], drawId, winning, jackpot))
  }

  /** The draw's tickets in table order, graded. */
  function GradedInDraw(ts: seq<Ticket>, drawId: Id, winning: seq<int>, jackpot: int): seq<Ticket>
    decreases |ts|
  {
    if ts == [] then []
    else
      var last := ts[|ts| - 1];
      GradedInDraw(ts[..|ts| - 1], drawId, winning, jackpot) +
        (if last.drawId == drawId then [Grade(last, winning, jackpot)] else [])
  }

  /** Pays one graded ticket: reads the owner's balance (0 if absent), adds the prize, logs the credit. */
  function Credit(b: Books, t: Ticket): Books {
    if Paid(t) then
      var before := BalanceOf(b.users, t.userId);
      var after := before + t.winningAmount;
      Books(SetBalance(b.users, t.userId, after),
            b.ledger + [Transaction(t.userId, Winnings, t.winningAmount, DrawWin(t.matches), before, after)])
    else b
  }

  /** Pays a sequence of graded tickets in order. */
  function PayAll(b: Books, gs: seq<Ticket>): Books
    decreases |gs|
  {
    if gs == [] then b else Credit(PayAll(b, gs[..|gs| - 1]), gs[|gs| - 1])
  }

  /** What a user is owed by a sequence of graded tickets. */
  function WinningsOf(gs: seq<Ticket>, uid: Id): int {
    Seqs.SumOf(gs, (t: Ticket) => if Paid(t) && t.userId == uid then t.winningAmount else 0)
  }

  /** A ledger row that records the credit for one paid ticket. */
  predicate WinningsRow(tx: Transaction, t: Ticket) {
    tx.userId == t.userId && tx.kind == Winnings && tx.amount == t.winningAmount && tx.amount > 0 &&
    tx.memo == DrawWin(t.matches) && Balanced(tx)
  }

  /** After paying, every user's balance has grown by exactly what that user's tickets won; no row appears or vanishes. */
  lemma {:induction false} PayAllBalances(b: Books, gs: seq<Ticket>)
    ensures PayAll(b, gs).users.Keys == b.users.Keys
    ensures forall u :: u in b.users ==>
              PayAll(b, gs).users[u] == b.users[u].(balance := b.users[u].balance + WinningsOf(gs, u))
    decreases |gs|
  {
    if gs != [] {
      var init := gs[..|gs| - 1];
      var t := gs[|gs| - 1];
      PayAllBalances(b, init);
      forall u | u in b.users
        ensures PayAll(b, gs).users[u] == b.users[u].(balance := b.users[u].balance + WinningsOf(gs, u))
      {
        var f := (x: Ticket) => if Paid(x) && x.userId == u then x.winningAmount else 0;
        assert WinningsOf(gs, u) == WinningsOf(init, u) + f(t);
      }
    }
  }

  /** Paying appends exactly one balanced `winnings` row per paid ticket, in order, and keeps every earlier row. */
  lemma {:induction false} PayAllLedger(b: Books, gs: seq<Ticket>)
    ensures |PayAll(b, gs).ledger| == |b.ledger| + |Seqs.Filter(gs, Paid)|
    ensures PayAll(b, gs).ledger[..|b.ledger|] == b.ledger
    ensures forall k :: 0 <= k < |Seqs.Filter(gs, Paid)| ==>
              WinningsRow(PayAll(b, gs).ledger[|b.ledger| + k], Seqs.Filter(gs, Paid)[k])
    decreases |gs|
  {
    if gs != [] {
      var init := gs[..|gs| - 1];
      PayAllLedger(b, init);
      var before := PayAll(b, init).ledger;
      var paid := Seqs.Filter(init, Paid);
      var after := PayAll(b, gs).ledger;
      if Paid(gs[|gs| - 1]) {
        assert after == before + [after[|after| - 1]];
        var full := paid + [gs[|gs| - 1]];
        assert Seqs.Filter(gs, Paid) == full;
        forall k | 0 <= k < |full| ensures WinningsRow(after[|b.ledger| + k], full[k]) {
          if k < |paid| {
            assert after[|b.ledger| + k] == before[|b.ledger| + k];
          }
        }
      }
    }
  }

  /** The draw's graded tickets are the draw's rows of the settled table. */
  lemma {:induction false} GradedInDrawIsSettledRows(ts: seq<Ticket>, drawId: Id, winning: seq<int>, jackpot: int)
    ensures GradedInDraw(ts, drawId, winning, jackpot) ==
            Seqs.Filter(SettleTickets(ts, drawId, winning, jackpot), (t: Ticket) => t.drawId == drawId)
    decreases |ts|
  {
    if ts != [] {
      var init := ts[..|ts| - 1];
      GradedInDrawIsSettledRows(init, drawId, winning, jackpot);
      var s := SettleTickets(ts, drawId, winning, jackpot);
      assert s[..|s| - 1] == SettleTickets(init, drawId, winning, jackpot);
    }
  }

  /**
   * Conducting the same draw again grades the same way and pays the same tickets again: nothing in the
   * handler refuses a draw that is already completed (only the page hides the button).
   */
  lemma {:induction false} RegradingPaysAgain(ts: seq<Ticket>, drawId: Id, winning: seq<int>, jackpot: int)
    ensures SettleTickets(SettleTickets(ts, drawId, winning, jackpot), drawId, winning, jackpot) ==
            SettleTickets(ts, drawId, winning, jackpot)
    ensures GradedInDraw(SettleTickets(ts, drawId, winning, jackpot), drawId, winning, jackpot) ==
            GradedInDraw(ts, drawId, winning, jackpot)
    decreases |ts|
  {
    var s := SettleTickets(ts, drawId, winning, jackpot);
    forall k | 0 <= k < |ts| ensures Settle(s[k], drawId, winning, jackpot) == s[k] {
      GradeIdempotent(ts[k], winning, jackpot);
    }
    if ts != [] {
      var init := ts[..|ts| - 1];
      RegradingPaysAgain(init, drawId, winning, jackpot);
      assert s[..|s| - 1] == SettleTickets(init, drawId, winning, jackpot);
      GradeIdempotent(ts[|ts| - 1], winning, jackpot);
    }
  }

  // ---------------------------------------------------------------- handlers

  datatype CreateOutcome = MissingFields | CreateFailed | Created(id: Id)

  /**
   * `handleCreateDraw`: the date and the jackpot (`parseInt` of the field, `None` for NaN) must both be
   * given and the jackpot non-zero; the new draw is `scheduled` and records its creator.
   */
  method CreateDraw(db: Store.Database, drawDate: Option<Millis>, jackpot: Option<int>, admin: Option<Id>,
                    insertFails: bool)
    returns (r: CreateOutcome)
    requires db.Valid()
    modifies db
    ensures db.Valid()
    ensures drawDate.None? || jackpot.None? || jackpot == Some(0) ==> r == MissingFields && unchanged(db)
    ensures drawDate.Some? && jackpot.Some? && jackpot != Some(0) && insertFails ==> r == CreateFailed && unchanged(db)
    ensures drawDate.Some? && jackpot.Some? && jackpot != Some(0) && !insertFails ==>
              r == Created(old(db.nextId)) &&
              db.draws == old(db.draws) + [Draw(old(db.nextId), drawDate.value, None, jackpot.value, 0, Scheduled, admin)] &&
              db.nextId == old(db.nextId) + 1 &&
              db.users == old(db.users) && db.tickets == old(db.tickets) && db.deposits == old(db.deposits) &&
              db.withdrawals == old(db.withdrawals) && db.transactions == old(db.transactions) &&
              db.sessions == old(db.sessions)
  {
    if drawDate.None? || jackpot.None? || jackpot.value == 0 {
      return MissingFields;
    }
    if insertFails {
      return CreateFailed;
    }
    var id := db.InsertDraw(drawDate.value, jackpot.value, admin);
    r := Created(id);
  }

  /** Extending the walked prefix by one ticket adds that ticket, graded, when it belongs to the draw. */
  lemma GradedInDrawStep(ts: seq<Ticket>, i: nat, drawId: Id, winning: seq<int>, jackpot: int)
    requires i < |ts|
    ensures GradedInDraw(ts[..i + 1], drawId, winning, jackpot) ==
            GradedInDraw(ts[..i], drawId, winning, jackpot) +
              (if ts[i].drawId == drawId then [Grade(ts[i], winning, jackpot)] else [])
  {
    assert ts[..i + 1][..i] == ts[..i];
  }

  lemma PayAllSnoc(b: Books, gs: seq<Ticket>, g: Ticket)
    ensures PayAll(b, gs + [g]) == Credit(PayAll(b, gs), g)
  {
    assert (gs + [g])[..|gs + [g]| - 1] == gs;
  }

  /** The body of the settlement loop for the ticket at position `i`. */
  method SettleTicketAt(db: Store.Database, i: nat, drawId: Id, winning: seq<int>, jackpot: int)
    requires db.Valid() && i < |db.tickets|
    modifies db
    ensures db.Valid()
    ensures db.tickets == old(db.tickets)[i := Settle(old(db.tickets[i]), drawId, winning, jackpot)]
    ensures Books(db.users, db.transactions) ==
              if old(db.tickets[i]).drawId == drawId
              then Credit(old(Books(db.users, db.transactions)), Grade(old(db.tickets[i]), winning, jackpot))
              else old(Books(db.users, db.transactions))
    ensures db.draws == old(db.draws) && db.deposits == old(db.deposits) && db.withdrawals == old(db.withdrawals)
    ensures db.sessions == old(db.sessions) && db.nextId == old(db.nextId)
  {
    var t := db.tickets[i];
    if t.drawId == drawId {
      var matches := MatchCount(t.numbers, winning);
      var amount := Prize(matches, jackpot);
      var isWinner := WinningTier(matches);
      db.tickets := db.tickets[i := t.(matches := matches, winningAmount := amount, isWinner := isWinner)];
      if isWinner && amount > 0 {
        var before := BalanceOf(db.users, t.userId);
        var after := before + amount;
        db.WriteBalance(t.userId, after);
        db.LogTransaction(Transaction(t.userId, Winnings, amount, DrawWin(matches), before, after));
      }
    }
  }

  /** Walks the tickets table in order, grading and paying every ticket of draw `drawId`. */
  method SettleAll(db: Store.Database, drawId: Id, winning: seq<int>, jackpot: int)
    requires db.Valid()
    modifies db
    ensures db.Valid()
    ensures db.tickets == SettleTickets(old(db.tickets), drawId, winning, jackpot)
    ensures Books(db.users, db.transactions) ==
              PayAll(Books(old(db.users), old(db.transactions)), GradedInDraw(old(db.tickets), drawId, winning, jackpot))
    ensures db.draws == old(db.draws) && db.deposits == old(db.deposits) && db.withdrawals == old(db.withdrawals)
    ensures db.sessions == old(db.sessions) && db.nextId == old(db.nextId)
  {
    ghost var t0 := db.tickets;
    ghost var b0 := Books(db.users, db.transactions);
    ghost var graded: seq<Ticket> := [];
    var i := 0;
    while i < |db.tickets|
      invariant 0 <= i <= |t0| == |db.tickets|
      invariant forall k :: 0 <= k < i ==> db.tickets[k] == Settle(t0[k], drawId, winning, jackpot)
      invariant forall k :: i <= k < |t0| ==> db.tickets[k] == t0[k]
      invariant graded == GradedInDraw(t0[..i], drawId, winning, jackpot)
      invariant Books(db.users, db.transactions) == PayAll(b0, graded)
      invariant db.Valid()
      invariant db.draws == old(db.draws)
      invariant db.deposits == old(db.deposits) && db.withdrawals == old(db.withdrawals)
      invariant db.sessions == old(db.sessions) && db.nextId == old(db.nextId)
    {
      GradedInDrawStep(t0, i, drawId, winning, jackpot);
      if t0[i].drawId == drawId {
        PayAllSnoc(b0, graded, Grade(t0[i], winning, jackpot));
        graded := graded + [Grade(t0[i], winning, jackpot)];
      }
      SettleTicketAt(db, i, drawId, winning, jackpot);
      i := i + 1;
    }
    assert t0[..|t0|] == t0;
  }

  datatype ConductOutcome = NeedSixNumbers | DrawUpdateFailed | TicketsQueryFailed | Conducted

  /**
   * `handleConductDraw` for the draw shown in the modal: records the result, then walks the tickets
   * table grading each of the draw's tickets and paying it when it wins. The failure flags stand for
   * the two storage calls whose errors abort the handler; the later per-ticket calls ignore theirs.
   */
  method ConductDraw(db: Store.Database, modal: Draw, winning: seq<int>, drawUpdateFails: bool, ticketsQueryFails: bool)
    returns (r: ConductOutcome)
    requires db.Valid()
    modifies db
    ensures db.Valid()
    ensures r == (if |winning| != 6 then NeedSixNumbers else if drawUpdateFails then DrawUpdateFailed
                  else if ticketsQueryFails then TicketsQueryFailed else Conducted)
    ensures r == NeedSixNumbers || r == DrawUpdateFailed ==> unchanged(db)
    ensures r == TicketsQueryFailed || r == Conducted ==> db.draws == RecordResult(old(db.draws), modal.id, winning)
    ensures r == TicketsQueryFailed ==>
              db.tickets == old(db.tickets) && db.users == old(db.users) && db.transactions == old(db.transactions)
    ensures r == Conducted ==>
              db.tickets == SettleTickets(old(db.tickets), modal.id, winning, modal.jackpot) &&
              Books(db.users, db.transactions) ==
                PayAll(Books(old(db.users), old(db.transactions)), GradedInDraw(old(db.tickets), modal.id, winning, modal.jackpot))
    ensures db.deposits == old(db.deposits) && db.withdrawals == old(db.withdrawals) &&
            db.sessions == old(db.sessions) && db.nextId == old(db.nextId)
  {
    if |winning| != 6 {
      return NeedSixNumbers;
    }
    if drawUpdateFails {
      return DrawUpdateFailed;
    }
    db.draws := RecordResult(db.draws, modal.id, winning);
    if ticketsQueryFails {
      return TicketsQueryFailed;
    }
    SettleAll(db, modal.id, winning, modal.jackpot);
    return Conducted;
  }
}
