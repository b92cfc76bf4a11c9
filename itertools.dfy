/**
 * `itertools.combinations(xs, k)`: the k-element selections of a list that
 * keep the list's order, enumerated in lexicographic order of positions.
 */
module Itertools {
  import opened Ordering

  function Prepend(x: int, cs: seq<seq<int>>): seq<seq<int>>
  {
    seq(|cs|, i requires 0 <= i < |cs| => [x] + cs[i])
  }

  /** The selections that take xs[0] come first, then those that skip it. */
  function Combinations(xs: seq<int>, k: nat): seq<seq<int>>
    decreases |xs|
  {
    if k == 0 then [[]]
    else if xs == [] then []
    else Prepend(xs[0], Combinations(xs[1..], k - 1)) + Combinations(xs[1..], k)
  }

  function Binomial(n: nat, k: nat): nat
    decreases n
  {
    if k == 0 then 1
    else if n == 0 then 0
    else Binomial(n - 1, k - 1) + Binomial(n - 1, k)
  }

  /** There are C(|xs|, k) selections. */
  lemma {:induction false} CombinationsCount(xs: seq<int>, k: nat)
    ensures |Combinations(xs, k)| == Binomial(|xs|, k)
    decreases |xs|
  {
    if k > 0 && xs != [] {
      CombinationsCount(xs[1..], k - 1);
      CombinationsCount(xs[1..], k);
      CombinationsCountStep(xs, k);
    }
  }

  lemma CombinationsCountStep(xs: seq<int>, k: nat)
    requires k > 0 && xs != []
    ensures |Combinations(xs, k)| == |Combinations(xs[1..], k - 1)| + |Combinations(xs[1..], k)|
    ensures Binomial(|xs|, k) == Binomial(|xs[1..]|, k - 1) + Binomial(|xs[1..]|, k)
  {
  }

  /** Whatever the list, each selection has k elements, all taken from it. */
  lemma {:induction false} CombinationsWithin(xs: seq<int>, k: nat)
    ensures forall i :: 0 <= i < |Combinations(xs, k)| ==>
      |Combinations(xs, k)[i]| == k && forall y :: y in Combinations(xs, k)[i] ==> y in xs
    decreases |xs|
  {
    if k > 0 && xs != [] {
      var tail := xs[1..];
      CombinationsWithin(tail, k - 1);
      CombinationsWithin(tail, k);
      var taking := Combinations(tail, k - 1);
      var front := Prepend(xs[0], taking);
      var all := Combinations(xs, k);
      assert all == front + Combinations(tail, k);
      forall i | 0 <= i < |all| ensures |all[i]| == k && forall y :: y in all[i] ==> y in xs {
        if i < |front| {
          assert all[i] == [xs[0]] + taking[i];
          assert forall y :: y in all[i] ==> y == xs[0] || y in taking[i];
        } else {
          assert all[i] == Combinations(tail, k)[i - |front|];
        }
        assert forall y :: y in tail ==> y in xs;
      }
    }
  }

  lemma TailFacts(xs: seq<int>)
    requires StrictlyIncreasing(xs) && xs != []
    ensures StrictlyIncreasing(xs[1..])
    ensures forall y :: y in xs[1..] ==> xs[0] < y
    ensures forall y :: y in xs ==> y == xs[0] || y in xs[1..]
  {
    forall y | y in xs[1..] ensures xs[0] < y {
      var i :| 0 <= i < |xs[1..]| && xs[1..][i] == y;
      assert xs[i + 1] == y;
    }
    forall y | y in xs ensures y == xs[0] || y in xs[1..] {
      var i :| 0 <= i < |xs| && xs[i] == y;
      if i > 0 { assert xs[1..][i - 1] == y; }
    }
  }

  lemma ConsIncreasing(x: int, d: seq<int>)
    requires StrictlyIncreasing(d)
    requires forall y :: y in d ==> x < y
    ensures StrictlyIncreasing([x] + d)
  {
    forall p, q | 0 <= p < q < |[x] + d| ensures ([x] + d)[p] < ([x] + d)[q] {
      assert ([x] + d)[q] == d[q - 1] && d[q - 1] in d;
    }
  }

  /** Every selection is a strictly increasing k-element list drawn from xs. */
  lemma {:induction false} CombinationsSound(xs: seq<int>, k: nat, c: seq<int>)
    requires StrictlyIncreasing(xs)
    requires c in Combinations(xs, k)
    ensures |c| == k && StrictlyIncreasing(c) && forall y :: y in c ==> y in xs
    decreases |xs|
  {
    // the proof needs only the contracts of the calls, not the definitions
    hide *;
    if k == 0 || xs == [] {
      CombinationsBase(xs, k, c);
    } else {
      var x, tail := xs[0], xs[1..];
      TailFacts(xs);
      CombinationsCases(xs, k, c);
      if c != [] && c[0] == x && c[1..] in Combinations(tail, k - 1) {
        var d := c[1..];
        CombinationsSound(tail, k - 1, d);
        assert c == [x] + d;
        ConsIncreasing(x, d);
        forall y | y in c ensures y in xs {
          if y != x { assert y in d; }
        }
      } else {
        CombinationsSound(tail, k, c);
      }
    }
  }

  /** With nothing to choose, the only selection is the empty one; from nothing, none of a positive size. */
  lemma CombinationsBase(xs: seq<int>, k: nat, c: seq<int>)
    requires (k == 0 || xs == []) && c in Combinations(xs, k)
    ensures k == 0 && c == [] && StrictlyIncreasing(c)
  {
  }

  /** A selection of k from xs either takes xs[0] before a selection of k - 1 from the tail, or is a selection of k from the tail. */
  lemma CombinationsCases(xs: seq<int>, k: nat, c: seq<int>)
    requires k > 0 && xs != [] && c in Combinations(xs, k)
    ensures (c != [] && c[0] == xs[0] && c[1..] in Combinations(xs[1..], k - 1)) || c in Combinations(xs[1..], k)
  {
    var taking := Combinations(xs[1..], k - 1);
    var front := Prepend(xs[0], taking);
    assert Combinations(xs, k) == front + Combinations(xs[1..], k);
    if c in front {
      var i :| 0 <= i < |front| && front[i] == c;
      assert c == [xs[0]] + taking[i] && c[1..] == taking[i];
    }
  }

  /** Every strictly increasing k-element list drawn from xs is one of the selections. */
  lemma {:induction false} CombinationsComplete(xs: seq<int>, k: nat, c: seq<int>)
    requires StrictlyIncreasing(xs)
    requires |c| == k && StrictlyIncreasing(c) && forall y :: y in c ==> y in xs
    ensures c in Combinations(xs, k)
    decreases |xs|
  {
    if k == 0 {
      assert c == [];
    } else {
      assert c[0] in c && c[0] in xs;
      var x, tail := xs[0], xs[1..];
      TailFacts(xs);
      if c[0] == x {
        var d := c[1..];
        assert c == [x] + d;
        forall y | y in d ensures y in tail {
          var i :| 0 <= i < |d| && d[i] == y;
          assert c[i + 1] == y && c[0] < c[i + 1];
        }
        CombinationsComplete(tail, k - 1, d);
        TakingIn(xs, k, d);
      } else {
        forall y | y in c ensures y in tail {
          var i :| 0 <= i < |c| && c[i] == y;
          assert c[0] <= c[i];
        }
        CombinationsComplete(tail, k, c);
        SkippingIn(xs, k, c);
      }
    }
  }

  /** A selection of k - 1 from the tail, behind xs[0], is a selection of k from xs. */
  lemma TakingIn(xs: seq<int>, k: nat, d: seq<int>)
    requires k > 0 && xs != [] && d in Combinations(xs[1..], k - 1)
    ensures [xs[0]] + d in Combinations(xs, k)
  {
    var taking := Combinations(xs[1..], k - 1);
    var front := Prepend(xs[0], taking);
    assert Combinations(xs, k) == front + Combinations(xs[1..], k);
    var i :| 0 <= i < |taking| && taking[i] == d;
    assert front[i] == [xs[0]] + d;
  }

  /** A selection of k from the tail is a selection of k from xs. */
  lemma SkippingIn(xs: seq<int>, k: nat, c: seq<int>)
    requires k > 0 && xs != [] && c in Combinations(xs[1..], k)
    ensures c in Combinations(xs, k)
  {
    var front := Prepend(xs[0], Combinations(xs[1..], k - 1));
    assert Combinations(xs, k) == front + Combinations(xs[1..], k);
  }

  /** Over a strictly increasing list the selections are listed in strictly increasing lexicographic order. */
  lemma {:induction false} CombinationsLexOrdered(xs: seq<int>, k: nat)
    requires StrictlyIncreasing(xs)
    ensures forall i, j :: 0 <= i < j < |Combinations(xs, k)| ==>
      LexLess(Combinations(xs, k)[i], Combinations(xs, k)[j])
    decreases |xs|
  {
    if k > 0 && xs != [] {
      var x, tail := xs[0], xs[1..];
      var taking, skipping := Combinations(tail, k - 1), Combinations(tail, k);
      var front := Prepend(x, taking);
      var r := front + skipping;
      assert Combinations(xs, k) == r;
      CombinationsLexOrdered(tail, k - 1);
      CombinationsLexOrdered(tail, k);
      forall i, j | 0 <= i < j < |r| ensures LexLess(r[i], r[j]) {
        if j < |front| {
          assert r[i] == [x] + taking[i] && r[j] == [x] + taking[j];
          assert LexLess(taking[i], taking[j]);
          assert r[i][1..] == taking[i] && r[j][1..] == taking[j];
        } else if i >= |front| {
          assert r[i] == skipping[i - |front|] && r[j] == skipping[j - |front|];
        } else {
          var d := skipping[j - |front|];
          assert r[j] == d;
          CombinationsSound(tail, k, d);
          assert d[0] in d && d[0] in tail;
          TailFacts(xs);
          assert r[i] == [x] + taking[i];
        }
      }
    }
  }

  /** Whenever k <= |xs| there is a selection, and the first one is the first k elements. */
  lemma {:induction false} CombinationsFirst(xs: seq<int>, k: nat)
    requires k <= |xs|
    ensures |Combinations(xs, k)| > 0 && Combinations(xs, k)[0] == xs[..k]
    decreases |xs|
  {
    if k > 0 {
      CombinationsFirst(xs[1..], k - 1);
      TakingComesFirst(xs, k);
      assert xs[..k] == [xs[0]] + xs[1..][..k - 1];
    }
  }

  /** The first selection of xs, when one takes xs[0], extends the first selection of the tail. */
  lemma TakingComesFirst(xs: seq<int>, k: nat)
    requires 0 < k <= |xs|
    requires |Combinations(xs[1..], k - 1)| > 0
    ensures |Combinations(xs, k)| > 0
    ensures Combinations(xs, k)[0] == [xs[0]] + Combinations(xs[1..], k - 1)[0]
  {
    var front := Prepend(xs[0], Combinations(xs[1..], k - 1));
    assert Combinations(xs, k) == front + Combinations(xs[1..], k);
    assert front[0] == [xs[0]] + Combinations(xs[1..], k - 1)[0];
  }
}
