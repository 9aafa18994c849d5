/**
 * Picking lottery numbers on a 1..37 grid: a press toggles a number, at most six numbers are held,
 * and the held numbers are kept in ascending order (`[...prev, num].sort((a, b) => a - b)`).
 * The admin's winning-number grid and the player's ticket grid share this logic.
 */
module Selection {
  import Seqs

  const Picks: nat := 6
  const Lowest: int := 1
  const Highest: int := 37

  predicate Sorted(s: seq<int>) {
    forall i, j :: 0 <= i < j < |s| ==> s[i] <= s[j]
  }

  predicate StrictlyIncreasing(s: seq<int>) {
    forall i, j :: 0 <= i < j < |s| ==> s[i] < s[j]
  }

  predicate OnGrid(s: seq<int>) {
    forall i :: 0 <= i < |s| ==> Lowest <= s[i] <= Highest
  }

  /** A selection the grid can hold: distinct grid numbers in ascending order, at most six. */
  predicate ValidSelection(s: seq<int>) {
    StrictlyIncreasing(s) && |s| <= Picks && OnGrid(s)
  }

  /** Places `x` in a list after the leading elements smaller than it. */
  function Insert(s: seq<int>, x: int): seq<int> {
    if s == [] then [x]
    else if x <= s[0] then [x] + s
    else [s[0]] + Insert(s[1..], x)
  }

  /** `sort((a, b) => a - b)`: the ascending rearrangement of `s` (insertion sort). */
  function SortAscending(s: seq<int>): (r: seq<int>)
    ensures Sorted(r)
    ensures multiset(r) == multiset(s)
    decreases |s|
  {
    if s == [] then []
    else
      var init := SortAscending(s[..|s| - 1]);
      InsertSorted(init, s[|s| - 1]);
      InsertMultiset(init, s[|s| - 1]);
      assert s == s[..|s| - 1] + [s[|s| - 1]];
      Insert(init, s[|s| - 1])
  }

  /** `filter(n => n !== x)`. */
  function Without(s: seq<int>, x: int): seq<int> {
    Seqs.Filter(s, (n: int) => n != x)
  }

  /**
   * A press on number `num`: a held number is released; otherwise it is added while fewer than six
   * are held, and refused (selection unchanged, an error shown) once six are held.
   */
  function Toggle(prev: seq<int>, num: int): (r: seq<int>)
    ensures num in prev ==> num !in r && forall y :: y != num ==> (y in r <==> y in prev)
    ensures num !in prev && |prev| < Picks ==>
              Sorted(r) && multiset(r) == multiset(prev) + multiset{num}
    ensures num !in prev && |prev| >= Picks ==> r == prev
  {
    if num in prev then
      var r := Without(prev, num);
      assert forall y :: y != num && y in prev ==> y in r by {
        forall y | y != num && y in prev ensures y in r {
          Seqs.FilterKeeps(prev, (n: int) => n != num, y);
        }
      }
      r
    else if |prev| < Picks then SortAscending(prev + [num])
    else prev
  }

  lemma HeadSorted(h: int, s: seq<int>)
    requires Sorted(s)
    requires forall y :: y in s ==> h <= y
    ensures Sorted([h] + s)
  {
    var t := [h] + s;
    forall i, j | 0 <= i < j < |t| ensures t[i] <= t[j] {
      assert t[j] == s[j - 1];
      assert s[j - 1] in s;
      if i > 0 {
        assert t[i] == s[i - 1];
      }
    }
  }

  lemma HeadStrict(h: int, s: seq<int>)
    requires StrictlyIncreasing(s)
    requires forall y :: y in s ==> h < y
    ensures StrictlyIncreasing([h] + s)
  {
    var t := [h] + s;
    forall i, j | 0 <= i < j < |t| ensures t[i] < t[j] {
      assert t[j] == s[j - 1];
      assert s[j - 1] in s;
      if i > 0 {
        assert t[i] == s[i - 1];
      }
    }
  }

  lemma {:induction false} InsertMultiset(s: seq<int>, x: int)
    ensures multiset(Insert(s, x)) == multiset(s) + multiset{x}
    decreases |s|
  {
    if s != [] && x > s[0] {
      InsertMultiset(s[1..], x);
      assert s == [s[0]] + s[1..];
    }
  }

  lemma {:induction false} InsertElements(s: seq<int>, x: int)
    ensures forall y :: y in Insert(s, x) <==> y in s || y == x
    ensures |Insert(s, x)| == |s| + 1
    decreases |s|
  {
    InsertMultiset(s, x);
    assert forall y :: y in Insert(s, x) <==> y in multiset(Insert(s, x));
  }

  /** Inserting into an ascending list keeps it ascending. */
  lemma {:induction false} InsertSorted(s: seq<int>, x: int)
    requires Sorted(s)
    ensures Sorted(Insert(s, x))
    decreases |s|
  {
    if s == [] {
    } else if x <= s[0] {
      forall y | y in s ensures x <= y {
        var k :| 0 <= k < |s| && s[k] == y;
        assert s[0] <= s[k] || k == 0;
      }
      HeadSorted(x, s);
    } else {
      var tail := s[1..];
      assert Sorted(tail) by {
        forall i, j | 0 <= i < j < |tail| ensures tail[i] <= tail[j] {
          assert tail[i] == s[i + 1] && tail[j] == s[j + 1];
        }
      }
      InsertSorted(tail, x);
      InsertElements(tail, x);
      var rest := Insert(tail, x);
      forall y | y in rest ensures s[0] <= y {
        if y in tail {
          var k :| 0 <= k < |tail| && tail[k] == y;
          assert s[k + 1] == y;
        }
      }
      HeadSorted(s[0], rest);
    }
  }

  /** Inserting a new number into a strictly ascending list keeps it strictly ascending. */
  lemma {:induction false} InsertStrict(s: seq<int>, x: int)
    requires StrictlyIncreasing(s) && x !in s
    ensures StrictlyIncreasing(Insert(s, x))
    decreases |s|
  {
    if s == [] {
    } else if x <= s[0] {
      assert s[0] in s;
      forall y | y in s ensures x < y {
        var k :| 0 <= k < |s| && s[k] == y;
        assert s[0] < s[k] || k == 0;
      }
      HeadStrict(x, s);
    } else {
      var tail := s[1..];
      assert StrictlyIncreasing(tail) by {
        forall i, j | 0 <= i < j < |tail| ensures tail[i] < tail[j] {
          assert tail[i] == s[i + 1] && tail[j] == s[j + 1];
        }
      }
      assert x !in tail;
      InsertStrict(tail, x);
      InsertElements(tail, x);
      var rest := Insert(tail, x);
      forall y | y in rest ensures s[0] < y {
        if y in tail {
          var k :| 0 <= k < |tail| && tail[k] == y;
          assert s[k + 1] == y;
        }
      }
      HeadStrict(s[0], rest);
    }
  }

  /** Inserting a number no held number exceeds appends it. */
  lemma {:induction false} InsertLast(s: seq<int>, x: int)
    requires StrictlyIncreasing(s)
    requires forall i :: 0 <= i < |s| ==> s[i] < x
    ensures Insert(s, x) == s + [x]
    decreases |s|
  {
    if s != [] {
      var tail := s[1..];
      assert StrictlyIncreasing(tail) by {
        forall i, j | 0 <= i < j < |tail| ensures tail[i] < tail[j] {
          assert tail[i] == s[i + 1] && tail[j] == s[j + 1];
        }
      }
      InsertLast(tail, x);
      assert [s[0]] + (tail + [x]) == s + [x];
    }
  }

  lemma InitStrict(s: seq<int>)
    requires StrictlyIncreasing(s) && s != []
    ensures StrictlyIncreasing(s[..|s| - 1])
    ensures forall i :: 0 <= i < |s| - 1 ==> s[i] < s[|s| - 1]
  {
  }

  /** Sorting a strictly ascending list leaves it as it is. */
  lemma {:induction false} SortSorted(s: seq<int>)
    requires StrictlyIncreasing(s)
    ensures SortAscending(s) == s
    decreases |s|
  {
    if s != [] {
      var init := s[..|s| - 1];
      InitStrict(s);
      SortSorted(init);
      InsertLast(init, s[|s| - 1]);
      assert init + [s[|s| - 1]] == s;
    }
  }

  /** The sorted form of a selection with one new number is that number inserted in place. */
  lemma AddedIsInserted(prev: seq<int>, num: int)
    requires StrictlyIncreasing(prev)
    ensures SortAscending(prev + [num]) == Insert(prev, num)
  {
    assert (prev + [num])[..|prev + [num]| - 1] == prev;
    SortSorted(prev);
  }

  lemma {:induction false} WithoutKeepsOrder(s: seq<int>, x: int)
    requires StrictlyIncreasing(s)
    ensures StrictlyIncreasing(Without(s, x))
    decreases |s|
  {
    if s != [] {
      var init := s[..|s| - 1];
      var last := s[|s| - 1];
      InitStrict(s);
      WithoutKeepsOrder(init, x);
      if last != x {
        var w := Without(init, x);
        assert Without(s, x) == w + [last];
        forall y | y in w ensures y < last {
          assert y in init;
        }
        forall i, j | 0 <= i < j < |w + [last]| ensures (w + [last])[i] < (w + [last])[j] {
          assert (w + [last])[i] == w[i];
          if j < |w| {
            assert (w + [last])[j] == w[j];
          } else {
            assert w[i] in w;
          }
        }
      }
    }
  }

  /** Every press keeps the selection a valid one: distinct, ascending, at most six grid numbers. */
  lemma {:induction false} ToggleKeepsValid(prev: seq<int>, num: int)
    requires ValidSelection(prev)
    requires Lowest <= num <= Highest
    ensures ValidSelection(Toggle(prev, num))
  {
    var r := Toggle(prev, num);
    if num in prev {
      WithoutKeepsOrder(prev, num);
      forall i | 0 <= i < |r| ensures Lowest <= r[i] <= Highest {
        assert r[i] in r;
        var k :| 0 <= k < |prev| && prev[k] == r[i];
      }
    } else if |prev| < Picks {
      AddedIsInserted(prev, num);
      InsertStrict(prev, num);
      InsertElements(prev, num);
      forall i | 0 <= i < |r| ensures Lowest <= r[i] <= Highest {
        assert r[i] in r;
        if r[i] != num {
          var k :| 0 <= k < |prev| && prev[k] == r[i];
        }
      }
    }
  }

  /** Pressing a number twice undoes the first press, unless that press was refused. */
  lemma {:induction false} ToggleTwice(prev: seq<int>, num: int)
    requires ValidSelection(prev)
    requires num !in prev && |prev| < Picks
    ensures Toggle(Toggle(prev, num), num) == prev
  {
    var added := Toggle(prev, num);
    AddedIsInserted(prev, num);
    InsertElements(prev, num);
    assert num in added;
    InsertThenWithout(prev, num);
  }

  lemma {:induction false} InsertThenWithout(s: seq<int>, x: int)
    requires x !in s
    ensures Without(Insert(s, x), x) == s
    decreases |s|
  {
    var ne := (n: int) => n != x;
    if s == [] {
      Seqs.FilterCons(x, [], ne);
    } else if x <= s[0] {
      Seqs.FilterCons(x, s, ne);
      WithoutAbsent(s, x);
    } else {
      InsertThenWithout(s[1..], x);
      Seqs.FilterCons(s[0], Insert(s[1..], x), ne);
      assert [s[0]] + s[1..] == s;
    }
  }

  lemma WithoutAbsent(s: seq<int>, x: int)
    requires x !in s
    ensures Without(s, x) == s
  {
    Seqs.FilterAll(s, (n: int) => n != x);
  }
}
