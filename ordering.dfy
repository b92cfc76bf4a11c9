/**
 * Orderings and canonical forms the solver relies on: Python's comparison of
 * tuples of ints, sorting (ascending for signatures, descending for bucket
 * sizes), the sorted tuple of a set, and distinctness of a list of balls.
 */
module Ordering {

  /** Python's `<` on two tuples (or lists) of ints: lexicographic, a proper prefix sorts first. */
  predicate LexLess(a: seq<int>, b: seq<int>)
    decreases |a|
  {
    if |a| == 0 then |b| > 0
    else if |b| == 0 then false
    else a[0] < b[0] || (a[0] == b[0] && LexLess(a[1..], b[1..]))
  }

  predicate LexLeq(a: seq<int>, b: seq<int>) {
    a == b || LexLess(a, b)
  }

  /** A lexicographically smaller non-empty list starts no higher. */
  lemma LexLessHead(a: seq<int>, b: seq<int>)
    requires LexLess(a, b) && |a| > 0
    ensures |b| > 0 && a[0] <= b[0]
  {
  }

  lemma {:induction false} LexLessIrreflexive(a: seq<int>)
    ensures !LexLess(a, a)
    decreases |a|
  {
    if |a| > 0 {
      LexLessIrreflexive(a[1..]);
    }
  }

  lemma {:induction false} LexLessAsymmetric(a: seq<int>, b: seq<int>)
    requires LexLess(a, b)
    ensures !LexLess(b, a)
    decreases |a|
  {
    if |a| > 0 && |b| > 0 && a[0] == b[0] {
      LexLessAsymmetric(a[1..], b[1..]);
    }
  }

  lemma {:induction false} LexLessTransitive(a: seq<int>, b: seq<int>, c: seq<int>)
    requires LexLess(a, b) && LexLess(b, c)
    ensures LexLess(a, c)
    decreases |a|
  {
    if |a| > 0 && |b| > 0 && |c| > 0 && a[0] == b[0] && b[0] == c[0] {
      LexLessTransitive(a[1..], b[1..], c[1..]);
    }
  }

  /** Any two tuples are equal or ordered one way. */
  lemma {:induction false} LexTotal(a: seq<int>, b: seq<int>)
    ensures a == b || LexLess(a, b) || LexLess(b, a)
    decreases |a|
  {
    if |a| > 0 && |b| > 0 && a[0] == b[0] {
      LexTotal(a[1..], b[1..]);
      if a[1..] == b[1..] {
        assert a == [a[0]] + a[1..] && b == [b[0]] + b[1..];
      }
    }
  }

  lemma LexLeqTransitive(a: seq<int>, b: seq<int>, c: seq<int>)
    requires LexLeq(a, b) && LexLeq(b, c)
    ensures LexLeq(a, c)
  {
    if a != b && b != c {
      LexLessTransitive(a, b, c);
    }
  }

  // ---------------------------------------------------------------------------
  // Ascending sort of a list of int tuples (Python's `sorted` on tuples)

  predicate SortedSeqs(s: seq<seq<int>>) {
    forall i, j :: 0 <= i < j < |s| ==> LexLeq(s[i], s[j])
  }

  /** A lower bound of a list is a lower bound of every element of its multiset. */
  lemma LowerBoundOfMultiset(x: seq<int>, s: seq<seq<int>>, y: seq<int>)
    requires forall i :: 0 <= i < |s| ==> LexLeq(x, s[i])
    requires y in multiset(s)
    ensures LexLeq(x, y)
  {
    var i :| 0 <= i < |s| && s[i] == y;
  }

  function InsertSorted(x: seq<int>, s: seq<seq<int>>): (r: seq<seq<int>>)
    requires SortedSeqs(s)
    ensures SortedSeqs(r)
    ensures multiset(r) == multiset(s) + multiset{x}
    decreases |s|
  {
    if s == [] then [x]
    else if LexLeq(x, s[0]) then
      InsertFront(x, s);
      [x] + s
    else
      SortedTail(s);
      var t := InsertSorted(x, s[1..]);
      InsertAfterHead(x, s, t);
      [s[0]] + t
  }

  lemma SortedTail(s: seq<seq<int>>)
    requires SortedSeqs(s) && s != []
    ensures SortedSeqs(s[1..])
  {
  }

  /** A value no greater than the head of a sorted list goes in front of it. */
  lemma InsertFront(x: seq<int>, s: seq<seq<int>>)
    requires SortedSeqs(s) && s != [] && LexLeq(x, s[0])
    ensures SortedSeqs([x] + s)
    ensures multiset([x] + s) == multiset(s) + multiset{x}
  {
    forall j | 0 <= j < |s| ensures LexLeq(x, s[j]) {
      if j > 0 { LexLeqTransitive(x, s[0], s[j]); }
    }
    assert s == [s[0]] + s[1..];
  }

  /** A value above the head of a sorted list goes, sorted, into its tail. */
  lemma InsertAfterHead(x: seq<int>, s: seq<seq<int>>, t: seq<seq<int>>)
    requires SortedSeqs(s) && s != [] && !LexLeq(x, s[0])
    requires SortedSeqs(t) && multiset(t) == multiset(s[1..]) + multiset{x}
    ensures SortedSeqs([s[0]] + t)
    ensures multiset([s[0]] + t) == multiset(s) + multiset{x}
  {
    LexTotal(x, s[0]);
    forall j | 0 <= j < |t| ensures LexLeq(s[0], t[j]) {
      assert t[j] in multiset(t);
      if t[j] != x {
        assert t[j] in multiset(s[1..]);
        assert forall i :: 0 <= i < |s[1..]| ==> LexLeq(s[0], s[1..][i]);
        LowerBoundOfMultiset(s[0], s[1..], t[j]);
      }
    }
    assert s == [s[0]] + s[1..];
  }

  /** Python's `sorted` on a list of int tuples (an insertion sort; the order is total, so the result is unique). */
  function SortSeqs(s: seq<seq<int>>): (r: seq<seq<int>>)
    ensures SortedSeqs(r)
    ensures multiset(r) == multiset(s)
    decreases |s|
  {
    if s == [] then []
    else
      assert s == [s[0]] + s[1..];
      InsertSorted(s[0], SortSeqs(s[1..]))
  }

  /** Two sorted lists with the same elements (with multiplicity) are the same list. */
  lemma {:induction false} SortedSeqsUnique(a: seq<seq<int>>, b: seq<seq<int>>)
    requires SortedSeqs(a) && SortedSeqs(b)
    requires multiset(a) == multiset(b)
    ensures a == b
    decreases |a|
  {
    assert |a| == |multiset(a)| == |multiset(b)| == |b|;
    if |a| > 0 {
      SortedSameHead(a, b);
      TailMultiset(a);
      TailMultiset(b);
      SortedSeqsUnique(a[1..], b[1..]);
      assert a == [a[0]] + a[1..] && b == [b[0]] + b[1..];
    }
  }

  lemma SortedSameHead(a: seq<seq<int>>, b: seq<seq<int>>)
    requires SortedSeqs(a) && SortedSeqs(b)
    requires multiset(a) == multiset(b)
    requires |a| > 0 && |b| > 0
    ensures a[0] == b[0]
  {
    assert a[0] in multiset(b) && b[0] in multiset(a);
    var j :| 0 <= j < |b| && b[j] == a[0];
    var i :| 0 <= i < |a| && a[i] == b[0];
    assert LexLeq(b[0], a[0]) && LexLeq(a[0], b[0]);
    if a[0] != b[0] {
      LexLessAsymmetric(a[0], b[0]);
    }
  }

  lemma TailMultiset(a: seq<seq<int>>)
    requires |a| > 0
    ensures multiset(a[1..]) == multiset(a) - multiset{a[0]}
    ensures SortedSeqs(a) ==> SortedSeqs(a[1..])
  {
    assert a == [a[0]] + a[1..];
  }

  // ---------------------------------------------------------------------------
  // Descending sort of ints (Python's `sorted(..., reverse=True)`)

  predicate Descending(s: seq<int>) {
    forall i, j :: 0 <= i < j < |s| ==> s[i] >= s[j]
  }

  lemma ConsDescending(h: int, t: seq<int>)
    requires Descending(t)
    requires t != [] ==> h >= t[0]
    ensures Descending([h] + t)
  {
  }

  function InsertDescending(x: int, s: seq<int>): (r: seq<int>)
    requires Descending(s)
    ensures Descending(r)
    ensures multiset(r) == multiset(s) + multiset{x}
    ensures r[0] == if s == [] || x >= s[0] then x else s[0]
    decreases |s|
  {
    if s == [] || x >= s[0] then
      ConsDescending(x, s);
      [x] + s
    else
      var t := InsertDescending(x, s[1..]);
      assert s == [s[0]] + s[1..];
      ConsDescending(s[0], t);
      [s[0]] + t
  }

  function SortDescending(s: seq<int>): (r: seq<int>)
    ensures Descending(r)
    ensures multiset(r) == multiset(s)
    decreases |s|
  {
    if s == [] then []
    else
      assert s == [s[0]] + s[1..];
      InsertDescending(s[0], SortDescending(s[1..]))
  }

  // ---------------------------------------------------------------------------
  // The sorted tuple of a set of ints (Python's `tuple(sorted(a_set))`)

  predicate StrictlyIncreasing(s: seq<int>) {
    forall i, j :: 0 <= i < j < |s| ==> s[i] < s[j]
  }

  /** Inserts x into a strictly increasing list unless it is already there. */
  function InsertDistinct(x: int, s: seq<int>): (r: seq<int>)
    requires StrictlyIncreasing(s)
    ensures StrictlyIncreasing(r)
    ensures forall y :: y in r <==> y == x || y in s
    ensures r != [] && r[0] == if s == [] || x < s[0] then x else s[0]
    decreases |s|
  {
    if s == [] || x < s[0] then [x] + s
    else if x == s[0] then s
    else
      assert s == [s[0]] + s[1..];
      [s[0]] + InsertDistinct(x, s[1..])
  }

  /** Python's `tuple(sorted(set(xs)))`: the distinct values of xs in increasing order. */
  function SortedElements(xs: seq<int>): (r: seq<int>)
    ensures StrictlyIncreasing(r)
    ensures forall y :: y in r <==> y in xs
    decreases |xs|
  {
    if xs == [] then []
    else
      assert xs == [xs[0]] + xs[1..];
      InsertDistinct(xs[0], SortedElements(xs[1..]))
  }

  /** Two strictly increasing lists with the same elements are equal. */
  lemma {:induction false} IncreasingUnique(a: seq<int>, b: seq<int>)
    requires StrictlyIncreasing(a) && StrictlyIncreasing(b)
    requires forall y :: y in a <==> y in b
    ensures a == b
    decreases |a|
  {
    assert a != [] ==> a[0] in a && a[0] in b;
    assert b != [] ==> b[0] in b && b[0] in a;
    if a != [] && b != [] {
      HeadIsLeast(b, a[0]);
      HeadIsLeast(a, b[0]);
      forall y ensures y in a[1..] <==> y in b[1..] {
        if y in a[1..] { assert y in a && y != a[0]; assert y in b; }
        if y in b[1..] { assert y in b && y != b[0]; assert y in a; }
      }
      IncreasingUnique(a[1..], b[1..]);
      assert a == [a[0]] + a[1..] && b == [b[0]] + b[1..];
    }
  }

  lemma HeadIsLeast(s: seq<int>, x: int)
    requires StrictlyIncreasing(s) && x in s
    ensures s[0] <= x
  {
    var k :| 0 <= k < |s| && s[k] == x;
  }

  /** Adding a value at the end of the list adds it to the set, as `set.add` does. */
  lemma SortedElementsSnoc(xs: seq<int>, x: int)
    ensures SortedElements(xs + [x]) == InsertDistinct(x, SortedElements(xs))
  {
    IncreasingUnique(SortedElements(xs + [x]), InsertDistinct(x, SortedElements(xs)));
  }

  // ---------------------------------------------------------------------------
  // Distinct elements (the source tests `len(set(xs)) == len(xs)`)

  predicate NoDuplicates(s: seq<int>) {
    forall i, j :: 0 <= i < j < |s| ==> s[i] != s[j]
  }

  function Elements(s: seq<int>): set<int> {
    set x | x in s
  }

  lemma {:induction false} ElementsAtMostLength(s: seq<int>)
    ensures |Elements(s)| <= |s|
    decreases |s|
  {
    if s != [] {
      ElementsAtMostLength(s[1..]);
      assert Elements(s) == {s[0]} + Elements(s[1..]);
    }
  }

  /** A list has no repeated element exactly when its set is as large as the list. */
  lemma {:induction false} NoDuplicatesIffSetSize(s: seq<int>)
    ensures NoDuplicates(s) <==> |Elements(s)| == |s|
    decreases |s|
  {
    if s != [] {
      var t := s[1..];
      assert Elements(s) == {s[0]} + Elements(t);
      NoDuplicatesIffSetSize(t);
      if s[0] in t {
        assert Elements(s) == Elements(t);
        ElementsAtMostLength(t);
        var j :| 0 <= j < |t| && t[j] == s[0];
        assert s[0] == s[j + 1];
      } else {
        assert |Elements(s)| == 1 + |Elements(t)|;
        if NoDuplicates(t) {
          forall i, j | 0 <= i < j < |s| ensures s[i] != s[j] {
            if i > 0 { assert s[i] == t[i - 1] && s[j] == t[j - 1]; }
            else { assert s[j] in t; }
          }
        } else {
          var i, j :| 0 <= i < j < |t| && t[i] == t[j];
          assert s[i + 1] == s[j + 1];
        }
      }
    }
  }

  /** A strictly increasing list repeats nothing. */
  lemma IncreasingNoDuplicates(s: seq<int>)
    requires StrictlyIncreasing(s)
    ensures NoDuplicates(s)
  {
  }

  // ---------------------------------------------------------------------------
  // Python's `range(lo, hi)`

  function Range(lo: int, hi: int): (r: seq<int>)
    ensures |r| == if lo <= hi then hi - lo else 0
  {
    if lo < hi then seq(hi - lo, i => lo + i) else []
  }

  /** `range(lo, hi)` holds exactly the integers from lo up to but excluding hi, in increasing order. */
  lemma RangeSpec(lo: int, hi: int)
    ensures StrictlyIncreasing(Range(lo, hi))
    ensures forall x :: x in Range(lo, hi) <==> lo <= x < hi
  {
    var r := Range(lo, hi);
    forall x | lo <= x < hi ensures x in r {
      assert r[x - lo] == x;
    }
  }

  /** Two ranges, the second starting no lower than the first ends, form a strictly increasing list. */
  lemma RangesIncreasing(a: int, b: int, c: int, d: int)
    requires a <= b <= c <= d
    ensures StrictlyIncreasing(Range(a, b) + Range(c, d))
  {
    var s := Range(a, b) + Range(c, d);
    forall i | 0 <= i < |s| ensures s[i] == if i < b - a then a + i else c + i - (b - a) {
      if i >= b - a { assert s[i] == Range(c, d)[i - (b - a)]; }
    }
  }
}
