/**
 * The list operations the pages apply to fetched rows: `Array.prototype.filter`, `filter(...).length`
 * and `reduce((sum, x) => sum + f(x), 0)`. Both are defined from the back of the sequence, so that
 * appending a row extends the result by at most one element (the shape the ledger proofs need).
 */
module Seqs {

  /** `s.filter(p)`: the elements of `s` satisfying `p`, in their original order. */
  function Filter<T>(s: seq<T>, p: T -> bool): (r: seq<T>)
    ensures |r| <= |s|
    ensures forall x :: x in r ==> x in s && p(x)
    decreases |s|
  {
    if s == [] then []
    else Filter(s[..|s| - 1], p) + (if p(s[|s| - 1]) then [s[|s| - 1]] else [])
  }

  /** `s.reduce((acc, x) => acc + f(x), 0)`. */
  function SumOf<T>(s: seq<T>, f: T -> int): int
    decreases |s|
  {
    if s == [] then 0 else SumOf(s[..|s| - 1], f) + f(s[|s| - 1])
  }

  lemma FilterAppend<T>(s: seq<T>, x: T, p: T -> bool)
    ensures Filter(s + [x], p) == Filter(s, p) + (if p(x) then [x] else [])
  {
    assert (s + [x])[..|s + [x]| - 1] == s;
  }

  /** Filtering a list with a new first element. */
  lemma {:induction false} FilterCons<T>(x: T, s: seq<T>, p: T -> bool)
    ensures Filter([x] + s, p) == (if p(x) then [x] else []) + Filter(s, p)
    decreases |s|
  {
    if s == [] {
      assert ([x] + s)[..|[x] + s| - 1] == [];
    } else {
      var init := s[..|s| - 1];
      assert ([x] + s)[..|[x] + s| - 1] == [x] + init;
      FilterCons(x, init, p);
    }
  }

  /** Every element of `s` that satisfies `p` is kept: with the ensures of `Filter`, `x in Filter(s, p) <==> x in s && p(x)`. */
  lemma {:induction false} FilterKeeps<T>(s: seq<T>, p: T -> bool, x: T)
    requires x in s && p(x)
    ensures x in Filter(s, p)
    decreases |s|
  {
    var init := s[..|s| - 1];
    assert s == init + [s[|s| - 1]];
    if x != s[|s| - 1] {
      assert x in init;
      FilterKeeps(init, p, x);
    }
  }

  /** A predicate that holds everywhere keeps the whole list (the "all" filter). */
  lemma {:induction false} FilterAll<T>(s: seq<T>, p: T -> bool)
    requires forall i :: 0 <= i < |s| ==> p(s[i])
    ensures Filter(s, p) == s
    decreases |s|
  {
    if s != [] {
      FilterAll(s[..|s| - 1], p);
      assert s[..|s| - 1] + [s[|s| - 1]] == s;
    }
  }

  /** The complement of a test (the "every other row" side of a filter). */
  function Negate<T>(p: T -> bool): T -> bool {
    x => !p(x)
  }

  /** Elements either pass a test or fail it: the two counts add up to the length. */
  lemma {:induction false} FilterPartition<T>(s: seq<T>, p: T -> bool)
    ensures |Filter(s, p)| + |Filter(s, Negate(p))| == |s|
    decreases |s|
  {
    if s != [] {
      FilterPartition(s[..|s| - 1], p);
    }
  }

  /** A sum splits into the part over the elements passing a test and the part over the rest. */
  lemma {:induction false} SumOfPartition<T>(s: seq<T>, f: T -> int, p: T -> bool)
    ensures SumOf(s, f) == SumOf(Filter(s, p), f) + SumOf(Filter(s, Negate(p)), f)
    decreases |s|
  {
    if s != [] {
      var init := s[..|s| - 1];
      var x := s[|s| - 1];
      SumOfPartition(init, f, p);
      if p(x) {
        assert Filter(s, p) == Filter(init, p) + [x];
        assert Filter(s, Negate(p)) == Filter(init, Negate(p));
        SumOfAppend(Filter(init, p), x, f);
      } else {
        assert Filter(s, p) == Filter(init, p);
        assert Filter(s, Negate(p)) == Filter(init, Negate(p)) + [x];
        SumOfAppend(Filter(init, Negate(p)), x, f);
      }
    }
  }

  lemma SumOfAppend<T>(s: seq<T>, x: T, f: T -> int)
    ensures SumOf(s + [x], f) == SumOf(s, f) + f(x)
  {
    assert (s + [x])[..|s + [x]| - 1] == s;
  }

  /** A sum over elements that are all zero outside `p` equals the sum over the `p`-elements alone. */
  lemma {:induction false} SumOfOnlyFrom<T>(s: seq<T>, f: T -> int, p: T -> bool)
    requires forall i :: 0 <= i < |s| && !p(s[i]) ==> f(s[i]) == 0
    ensures SumOf(s, f) == SumOf(Filter(s, p), f)
    decreases |s|
  {
    if s != [] {
      var init := s[..|s| - 1];
      var x := s[|s| - 1];
      SumOfOnlyFrom(init, f, p);
      if p(x) {
        assert Filter(s, p) == Filter(init, p) + [x];
        SumOfAppend(Filter(init, p), x, f);
      } else {
        assert Filter(s, p) == Filter(init, p);
      }
    }
  }

  /** A sum over a list whose elements all contribute `c` is `c` times its length. */
  lemma {:induction false} SumOfConstant<T>(s: seq<T>, f: T -> int, c: int)
    requires forall i :: 0 <= i < |s| ==> f(s[i]) == c
    ensures SumOf(s, f) == c * |s|
    decreases |s|
  {
    if s != [] {
      SumOfConstant(s[..|s| - 1], f, c);
    }
  }

  /** A sum of non-negative terms is non-negative. */
  lemma {:induction false} SumOfNonNegative<T>(s: seq<T>, f: T -> int)
    requires forall i :: 0 <= i < |s| ==> f(s[i]) >= 0
    ensures SumOf(s, f) >= 0
    decreases |s|
  {
    if s != [] {
      SumOfNonNegative(s[..|s| - 1], f);
    }
  }

  /** `r` is `s` with some elements dropped: what is left keeps its relative order. */
  predicate IsSublist<T(==)>(r: seq<T>, s: seq<T>)
    decreases |s|
  {
    if r == [] then true
    else if s == [] then false
    else (r[|r| - 1] == s[|s| - 1] && IsSublist(r[..|r| - 1], s[..|s| - 1])) || IsSublist(r, s[..|s| - 1])
  }

  /** A filter result is an order-preserving sublist of its input. */
  lemma {:induction false} FilterIsSublist<T>(s: seq<T>, p: T -> bool)
    ensures IsSublist(Filter(s, p), s)
    decreases |s|
  {
    if s != [] {
      var init := s[..|s| - 1];
      var r := Filter(s, p);
      FilterIsSublist(init, p);
      if p(s[|s| - 1]) {
        assert r[..|r| - 1] == Filter(init, p);
      } else if r != [] {
        assert r == Filter(init, p);
      }
    }
  }

  /** Two tests that agree on every element of `s` keep the same elements. */
  lemma {:induction false} FilterCongruent<T>(s: seq<T>, p: T -> bool, q: T -> bool)
    requires forall i :: 0 <= i < |s| ==> p(s[i]) == q(s[i])
    ensures Filter(s, p) == Filter(s, q)
    decreases |s|
  {
    if s != [] {
      FilterCongruent(s[..|s| - 1], p, q);
    }
  }

  /** A test that no element passes keeps nothing. */
  lemma {:induction false} FilterNone<T>(s: seq<T>, p: T -> bool)
    requires forall i :: 0 <= i < |s| ==> !p(s[i])
    ensures Filter(s, p) == []
    decreases |s|
  {
    if s != [] {
      FilterNone(s[..|s| - 1], p);
    }
  }
}
