/**
 * The player's home page: when the next draw is (Thursday or Sunday at 20:00 local time, or the
 * earliest scheduled draw when there is one) and buying a ticket for that draw.
 */
module HomePage {
  import opened Wrappers
  import opened Schema
  import Ledger
  import Store

  // ---------------------------------------------------------------- the draw schedule

  const DrawHour: int := 20
  const Sunday: int := 0
  const Thursday: int := 4

  /** `getDay()` of a local time: 0 is Sunday; day 0 of the count (1 January 1970) was a Thursday. */
  function Weekday(t: Millis): int {
    (t / DayMs + Thursday) % 7
  }

  /** `getHours()` of a local time. */
  function HourOf(t: Millis): int {
    (t % DayMs) / HourMs
  }

  /** How many days ahead the next draw falls, from the weekday and hour of now. */
  function DaysAhead(day: int, hour: int): int {
    if day == Thursday then (if hour < DrawHour then 0 else 3)
    else if day == Sunday then (if hour < DrawHour then 0 else 4)
    else if day < Thursday then Thursday - day
    else 7 - day
  }

  /** The computed next draw: that many days ahead, at 20:00:00.000. */
  function NextDrawTime(now: Millis): Millis {
    (now / DayMs + DaysAhead(Weekday(now), HourOf(now))) * DayMs + DrawHour * HourMs
  }

  /** A draw instant: Thursday or Sunday at 20:00:00.000. */
  predicate DrawSlot(t: Millis) {
    t % DayMs == DrawHour * HourMs && (Weekday(t) == Sunday || Weekday(t) == Thursday)
  }

  lemma ModShift(d: int, k: int)
    ensures (d + k + Thursday) % 7 == ((d + Thursday) % 7 + k) % 7
  {
  }

  lemma DayOf(day: int, offset: int)
    ensures ((day + offset) * DayMs + DrawHour * HourMs) / DayMs == day + offset
    ensures ((day + offset) * DayMs + DrawHour * HourMs) % DayMs == DrawHour * HourMs
  {
  }

  /** The computed next draw is a draw instant, strictly after now and at most four days ahead. */
  lemma NextDrawIsSlot(now: Millis)
    ensures DrawSlot(NextDrawTime(now))
    ensures now < NextDrawTime(now) <= now + 4 * DayMs
  {
    var day := now / DayMs;
    var w := Weekday(now);
    var k := DaysAhead(w, HourOf(now));
    DayOf(day, k);
    ModShift(day, k);
    assert 0 <= w < 7;
  }

  /** No draw instant lies strictly between now and the computed next draw. */
  lemma NextDrawIsEarliest(now: Millis, t: Millis)
    requires DrawSlot(t) && now < t
    ensures NextDrawTime(now) <= t
  {
    var day := now / DayMs;
    var w := Weekday(now);
    var h := HourOf(now);
    var big := t / DayMs;
    assert t == big * DayMs + DrawHour * HourMs;
    assert big >= day;
    var k := big - day;
    ModShift(day, k);
    assert Weekday(t) == (w + k) % 7;
    if k == 0 {
      assert h < DrawHour;
    } else if k < 4 {
      assert k == 1 || k == 2 || k == 3;
      assert 0 <= w < 7;
    }
  }

  /** The position of the earliest `scheduled` draw, as `order('draw_date').limit(1)` picks it. */
  function EarliestScheduled(draws: seq<Draw>): (r: Option<nat>)
    ensures r.None? <==> forall i :: 0 <= i < |draws| ==> draws[i].status != Scheduled
    ensures r.Some? ==>
              r.value < |draws| && draws[r.value].status == Scheduled &&
              forall i :: 0 <= i < |draws| && draws[i].status == Scheduled ==> draws[r.value].drawDate <= draws[i].drawDate
    decreases |draws|
  {
    if draws == [] then None
    else
      var rest := EarliestScheduled(draws[..|draws| - 1]);
      var last := draws[|draws| - 1];
      if last.status != Scheduled then rest
      else if rest.Some? && draws[rest.value].drawDate <= last.drawDate then rest
      else Some(|draws| - 1)
  }

  /**
   * The countdown's target (the page's `nextDraw` state): it starts as the computed next draw, and
   * `fetchNextDraw` replaces it by the earliest scheduled draw's date when there is one. A failed fetch
   * (`fetchFails`) keeps the computed slot.
   */
  function DisplayedNextDraw(draws: seq<Draw>, now: Millis, fetchFails: bool): (r: Millis)
    ensures !fetchFails && EarliestScheduled(draws).Some? ==> r == draws[EarliestScheduled(draws).value].drawDate
    ensures fetchFails || EarliestScheduled(draws).None? ==> r == NextDrawTime(now) && DrawSlot(r) && now < r
  {
    NextDrawIsSlot(now);
    var found := EarliestScheduled(draws);
    if !fetchFails && found.Some? then draws[found.value].drawDate else NextDrawTime(now)
  }

  /** With a scheduled draw fetched, the countdown targets a scheduled draw no other scheduled draw precedes. */
  lemma DisplayedIsEarliestScheduled(draws: seq<Draw>, now: Millis)
    requires exists i :: 0 <= i < |draws| && draws[i].status == Scheduled
    ensures exists k :: 0 <= k < |draws| && draws[k].status == Scheduled && draws[k].drawDate == DisplayedNextDraw(draws, now, false) &&
              forall i :: 0 <= i < |draws| && draws[i].status == Scheduled ==> DisplayedNextDraw(draws, now, false) <= draws[i].drawDate
  {
    var k := EarliestScheduled(draws).value;
    assert draws[k].drawDate == DisplayedNextDraw(draws, now, false);
  }

  // ---------------------------------------------------------------- buying a ticket

  datatype PurchaseOutcome =
    | InsufficientBalance
    | DrawCreateFailed
    | TicketInsertFailed
    | BalanceUpdateFailed
    | Purchased(newBalance: int)

  /** The id of the draw a new ticket goes to: the earliest scheduled one, or the id the new draw receives. */
  function TargetId(draws: seq<Draw>, nextId: Id, drawQueryFails: bool): Id {
    var found := EarliestScheduled(draws);
    if !drawQueryFails && found.Some? then draws[found.value].id else nextId
  }

  /** The draw a scheduled-draw lookup finds is scheduled and no other scheduled draw is earlier. */
  lemma TargetIsEarliest(draws: seq<Draw>, nextId: Id)
    requires exists i :: 0 <= i < |draws| && draws[i].status == Scheduled
    ensures exists k :: 0 <= k < |draws| && draws[k].id == TargetId(draws, nextId, false) &&
              draws[k].status == Scheduled &&
              forall i :: 0 <= i < |draws| && draws[i].status == Scheduled ==> draws[k].drawDate <= draws[i].drawDate
  {
    var k := EarliestScheduled(draws).value;
    assert draws[k].id == TargetId(draws, nextId, false);
  }

  /**
   * The draw a new ticket goes to: the earliest scheduled draw, or, when that lookup errs or finds none,
   * a new scheduled draw at the page's computed next draw time with the default jackpot. `None` when
   * creating that draw fails.
   */
  method TargetDraw(db: Store.Database, nextDraw: Millis, drawQueryFails: bool, drawCreateFails: bool)
    returns (d: Option<Id>)
    requires db.Valid()
    modifies db
    ensures db.Valid()
    ensures d.Some? ==> d.value == TargetId(old(db.draws), old(db.nextId), drawQueryFails)
    ensures !drawQueryFails && EarliestScheduled(old(db.draws)).Some? ==> d.Some? && unchanged(db)
    ensures (drawQueryFails || EarliestScheduled(old(db.draws)).None?) && drawCreateFails ==>
              d == None && unchanged(db)
    ensures (drawQueryFails || EarliestScheduled(old(db.draws)).None?) && !drawCreateFails ==>
              d.Some? && db.nextId == old(db.nextId) + 1 &&
              db.draws == old(db.draws) + [Draw(old(db.nextId), nextDraw, None, 2500000, 0, Scheduled, None)]
    ensures db.users == old(db.users) && db.tickets == old(db.tickets) && db.transactions == old(db.transactions)
    ensures db.deposits == old(db.deposits) && db.withdrawals == old(db.withdrawals) && db.sessions == old(db.sessions)
  {
    var found := EarliestScheduled(db.draws);
    if !drawQueryFails && found.Some? {
      return Some(db.draws[found.value].id);
    }
    if drawCreateFails {
      return None;
    }
    var id := db.InsertDraw(nextDraw, 2500000, None);
    d := Some(id);
  }

  /**
   * `handlePurchaseTicket` for the signed-in `user`, using the balance the page last loaded: the
   * ticket is inserted into the target draw, then the balance is set to the page's balance less the
   * price and a `ticket_purchase` row is logged. The ticket is inserted before the balance is written,
   * so a failed balance write leaves an unpaid ticket behind. `nextDraw` is the page's `nextDraw`
   * state (see `DisplayedNextDraw`), the date a draw created on the way gets.
   */
  method PurchaseTicket(db: Store.Database, user: Option<Id>, pageBalance: int, numbers: seq<int>, nextDraw: Millis,
                        drawQueryFails: bool, drawCreateFails: bool, ticketInsertFails: bool, balanceUpdateFails: bool)
    returns (r: PurchaseOutcome)
    requires db.Valid()
    modifies db
    ensures db.Valid()
    ensures user.None? || pageBalance < TicketPrice ==> r == InsufficientBalance && unchanged(db)
    ensures user.Some? && pageBalance >= TicketPrice ==>
              r == (if (drawQueryFails || EarliestScheduled(old(db.draws)).None?) && drawCreateFails then DrawCreateFailed
                    else if ticketInsertFails then TicketInsertFailed
                    else if balanceUpdateFails then BalanceUpdateFailed
                    else Purchased(pageBalance - TicketPrice))
    ensures r == DrawCreateFailed ==> unchanged(db)
    ensures r.Purchased? || r == BalanceUpdateFailed ==>
              db.nextId >= 1 && db.tickets == old(db.tickets) +
                [Ticket(db.nextId - 1, user.value, TargetId(old(db.draws), old(db.nextId), drawQueryFails), numbers,
                        TicketPrice, 0, 0, false)]
    ensures r == TicketInsertFailed ==> db.tickets == old(db.tickets)
    ensures r != InsufficientBalance && r != DrawCreateFailed ==>
              var reused := !drawQueryFails && EarliestScheduled(old(db.draws)).Some?;
              db.draws == (if reused then old(db.draws)
                           else old(db.draws) + [Draw(old(db.nextId), nextDraw, None, 2500000, 0, Scheduled, None)]) &&
              db.nextId == old(db.nextId) + (if reused then 0 else 1) + (if r == TicketInsertFailed then 0 else 1)
    ensures r.Purchased? ==>
              r.newBalance == pageBalance - TicketPrice &&
              db.users == Ledger.SetBalance(old(db.users), user.value, pageBalance - TicketPrice) &&
              db.transactions == old(db.transactions) +
                [Transaction(user.value, TicketPurchase, -TicketPrice, TicketNumbers(numbers), pageBalance, pageBalance - TicketPrice)]
    ensures !r.Purchased? ==> db.users == old(db.users) && db.transactions == old(db.transactions)
    ensures db.deposits == old(db.deposits) && db.withdrawals == old(db.withdrawals) && db.sessions == old(db.sessions)
  {
    if user.None? || pageBalance < TicketPrice {
      return InsufficientBalance;
    }
    var uid := user.value;
    var target := TargetDraw(db, nextDraw, drawQueryFails, drawCreateFails);
    if target.None? {
      return DrawCreateFailed;
    }
    if ticketInsertFails {
      return TicketInsertFailed;
    }
    var _ := db.InsertTicket(uid, target.value, numbers, TicketPrice);
    if balanceUpdateFails {
      return BalanceUpdateFailed;
    }
    var newBalance := pageBalance - TicketPrice;
    db.WriteBalance(uid, newBalance);
    db.LogTransaction(Transaction(uid, TicketPurchase, -TicketPrice, TicketNumbers(numbers), pageBalance, newBalance));
    r := Purchased(newBalance);
  }
}
