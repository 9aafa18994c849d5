/**
 * What the admin lists share: the status tabs (all / pending / confirmed / rejected) with their
 * counts, and a case-insensitive search box matched against several text columns of a row.
 */
module Review {
  import opened Schema
  import Seqs
  import Text

  datatype StatusFilter = AllStatuses | OnlyStatus(status: RequestStatus)

  /** `filter === 'all' || row.status === filter`. */
  predicate PassesFilter(f: StatusFilter, s: RequestStatus) {
    f.AllStatuses? || f.status == s
  }

  /** `a.toLowerCase().includes(term.toLowerCase()) || b.toLowerCase().includes(...) || ...`. */
  predicate AnyFieldIncludes(fields: seq<string>, term: string) {
    exists i :: 0 <= i < |fields| && Text.Includes(Text.ToLower(fields[i]), Text.ToLower(term))
  }

  /** An empty search box matches every row. */
  lemma EmptyTermMatches(fields: seq<string>)
    requires fields != []
    ensures AnyFieldIncludes(fields, "")
  {
    assert Text.ToLower("") == "";
    Text.IncludesEmpty(Text.ToLower(fields[0]));
  }

  /** Typing the term in capitals finds the same rows. */
  lemma SearchIgnoresCase(fields: seq<string>, term: string)
    ensures AnyFieldIncludes(fields, term) == AnyFieldIncludes(fields, Text.ToLower(term))
  {
    Text.ToLowerIdempotent(term);
  }

  /** `rows.filter(r => r.status === s).length`. */
  function CountStatus<R>(rows: seq<R>, status: R -> RequestStatus, s: RequestStatus): nat {
    |Seqs.Filter(rows, (r: R) => status(r) == s)|
  }

  /** The pending, confirmed and rejected tab counts add up to the "all" count. */
  lemma {:induction false} TabCounts<R>(rows: seq<R>, status: R -> RequestStatus)
    ensures CountStatus(rows, status, Pending) + CountStatus(rows, status, Confirmed) +
            CountStatus(rows, status, Rejected) == |rows|
    decreases |rows|
  {
    if rows != [] {
      TabCounts(rows[..|rows| - 1], status);
    }
  }
}
