/**
 * The "my tickets" page: the fetched tickets (each joined with its draw), the four filter tabs with
 * their counts, the spent / won / winning-ticket totals, and the colouring of each ticket's balls.
 */
module TicketsPage {
  import opened Wrappers
  import opened Schema
  import Seqs
  import AdminDraws

  /** A fetched ticket row together with the draw it belongs to. */
  datatype TicketRow = TicketRow(ticket: Ticket, draw: Draw)

  datatype TicketFilter = AllTickets | ActiveTickets | CompletedTickets | WinningOnly

  /** The test each tab applies to a row. */
  predicate Keeps(f: TicketFilter, row: TicketRow) {
    match f
    case ActiveTickets => row.draw.status == Scheduled || row.draw.status == Active
    case CompletedTickets => row.draw.status == Completed
    case WinningOnly => row.ticket.isWinner
    case AllTickets => true
  }

  /** The rows shown under a tab. */
  function FilteredTickets(rows: seq<TicketRow>, f: TicketFilter): seq<TicketRow> {
    Seqs.Filter(rows, (row: TicketRow) => Keeps(f, row))
  }

  /** A row is shown exactly when it was fetched and passes the tab's test. */
  lemma FilteredTicketsExact(rows: seq<TicketRow>, f: TicketFilter, row: TicketRow)
    ensures row in FilteredTickets(rows, f) <==> row in rows && Keeps(f, row)
  {
    if row in rows && Keeps(f, row) {
      Seqs.FilterKeeps(rows, (row: TicketRow) => Keeps(f, row), row);
    }
  }

  /** Every tab shows the fetched rows in their fetched order, some of them left out. */
  lemma FilteredTicketsKeepOrder(rows: seq<TicketRow>, f: TicketFilter)
    ensures Seqs.IsSublist(FilteredTickets(rows, f), rows)
  {
    Seqs.FilterIsSublist(rows, (row: TicketRow) => Keeps(f, row));
  }

  /** The "all" tab shows every row. */
  lemma AllTabShowsEverything(rows: seq<TicketRow>)
    ensures FilteredTickets(rows, AllTickets) == rows
  {
    Seqs.FilterAll(rows, (row: TicketRow) => Keeps(AllTickets, row));
  }

  // ---------------------------------------------------------------- totals

  function CostOf(row: TicketRow): int { row.ticket.cost }
  function WonBy(row: TicketRow): int { row.ticket.winningAmount }

  /** The sum of the fetched tickets' costs. */
  function TotalSpent(rows: seq<TicketRow>): int {
    Seqs.SumOf(rows, CostOf)
  }

  /** The sum of the fetched tickets' winning amounts. */
  function TotalWinnings(rows: seq<TicketRow>): int {
    Seqs.SumOf(rows, WonBy)
  }

  /** The number of fetched tickets flagged as winners. */
  function WinningTickets(rows: seq<TicketRow>): nat {
    |Seqs.Filter(rows, (row: TicketRow) => row.ticket.isWinner)|
  }

  /** When every ticket was bought at the ticket price, the amount spent is that price per ticket. */
  lemma SpentAtTicketPrice(rows: seq<TicketRow>)
    requires forall i :: 0 <= i < |rows| ==> rows[i].ticket.cost == TicketPrice
    ensures TotalSpent(rows) == TicketPrice * |rows|
  {
    Seqs.SumOfConstant(rows, CostOf, TicketPrice);
  }

  /** When non-winning tickets carry no prize (as settlement writes them), all winnings come from the winners tab. */
  lemma WinningsComeFromWinners(rows: seq<TicketRow>)
    requires forall i :: 0 <= i < |rows| && !rows[i].ticket.isWinner ==> rows[i].ticket.winningAmount == 0
    ensures TotalWinnings(rows) == Seqs.SumOf(FilteredTickets(rows, WinningOnly), WonBy)
  {
    Seqs.SumOfOnlyFrom(rows, WonBy, (row: TicketRow) => Keeps(WinningOnly, row));
  }

  /**
   * What a fetched row can hold: the insert's defaults while its draw is unsettled, or the grade that
   * settlement wrote against the row's own draw, whose jackpot is not negative.
   */
  predicate UnsettledOrGraded(row: TicketRow) {
    (row.ticket.matches == 0 && row.ticket.winningAmount == 0 && !row.ticket.isWinner) ||
    (row.draw.winningNumbers.Some? && row.draw.jackpot >= 0 &&
     row.ticket == AdminDraws.Grade(row.ticket, row.draw.winningNumbers.value, row.draw.jackpot))
  }

  /**
   * Over tickets of many draws, settled or not, no row books a negative prize, so the winnings total is
   * non-negative, and every row that is not a winner carries no prize, so the total is the winners tab's.
   */
  lemma GradedWinningsNonNegative(rows: seq<TicketRow>)
    requires forall i :: 0 <= i < |rows| ==> UnsettledOrGraded(rows[i])
    ensures TotalWinnings(rows) >= 0
    ensures TotalWinnings(rows) == Seqs.SumOf(FilteredTickets(rows, WinningOnly), WonBy)
  {
    forall i | 0 <= i < |rows|
      ensures WonBy(rows[i]) >= 0 && (!rows[i].ticket.isWinner ==> rows[i].ticket.winningAmount == 0)
    {
      AdminDraws.PrizeTable(rows[i].ticket.matches, rows[i].draw.jackpot);
    }
    Seqs.SumOfNonNegative(rows, WonBy);
    WinningsComeFromWinners(rows);
  }

  /** The count printed on each tab button. */
  function TabCount(rows: seq<TicketRow>, f: TicketFilter): nat {
    match f
    case AllTickets => |rows|
    case ActiveTickets => |Seqs.Filter(rows, (t: TicketRow) => t.draw.status == Scheduled || t.draw.status == Active)|
    case CompletedTickets => |Seqs.Filter(rows, (t: TicketRow) => t.draw.status == Completed)|
    case WinningOnly => WinningTickets(rows)
  }

  /** Each button's count is the number of rows its tab shows. */
  lemma TabCountIsShownCount(rows: seq<TicketRow>, f: TicketFilter)
    ensures TabCount(rows, f) == |FilteredTickets(rows, f)|
  {
    match f
    case AllTickets => AllTabShowsEverything(rows);
    case ActiveTickets =>
      Seqs.FilterCongruent(rows, (t: TicketRow) => t.draw.status == Scheduled || t.draw.status == Active,
                           (row: TicketRow) => Keeps(f, row));
    case CompletedTickets =>
      Seqs.FilterCongruent(rows, (t: TicketRow) => t.draw.status == Completed, (row: TicketRow) => Keeps(f, row));
    case WinningOnly =>
      Seqs.FilterCongruent(rows, (row: TicketRow) => row.ticket.isWinner, (row: TicketRow) => Keeps(f, row));
  }

  // ---------------------------------------------------------------- ball colours

  /** Green: a winner's matched number; yellow: a matched number of a non-winner; amber: anything else. */
  datatype BallColour = Green | Yellow | Amber

  /** A ball is highlighted exactly when its number is among the draw's drawn numbers, green exactly when the ticket also won. */
  function ColourOf(num: int, winningNumbers: Option<seq<int>>, isWinner: bool): (r: BallColour)
    ensures r != Amber <==> winningNumbers.Some? && num in winningNumbers.value
    ensures r == Green <==> isWinner && winningNumbers.Some? && num in winningNumbers.value
  {
    var isWinningNumber := winningNumbers.Some? && num in winningNumbers.value;
    if isWinner && isWinningNumber then Green
    else if isWinningNumber then Yellow
    else Amber
  }

  /** On a ticket of a drawn draw, the highlighted balls are exactly the ticket's matches as settlement counts them. */
  lemma HighlightedBallsAreMatches(numbers: seq<int>, winning: seq<int>, isWinner: bool)
    ensures |Seqs.Filter(numbers, (n: int) => ColourOf(n, Some(winning), isWinner) != Amber)|
            == AdminDraws.MatchCount(numbers, winning)
  {
    Seqs.FilterCongruent(numbers, (n: int) => ColourOf(n, Some(winning), isWinner) != Amber, (n: int) => n in winning);
  }
}
