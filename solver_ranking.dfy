/**
 * How the solver ranks a weighing against the remaining vectors: the number
 * of vectors giving each result, largest first and padded with zeros to three
 * entries, then the plate size. Ranks compare as Python tuples do, and the
 * smaller rank is the better weighing.
 */
module Ranking {
  import opened Ordering
  import opened GameRules
  import opened Beliefs

  /** The result frequencies as a Python dict: keys in the order first seen, with their counts. */
  datatype Tally = Tally(keys: seq<int>, counts: seq<int>)

  /** The position of k among the keys. */
  function IndexOf(keys: seq<int>, k: int): (i: nat)
    requires k in keys
    ensures i < |keys| && keys[i] == k
    ensures forall j :: 0 <= j < i ==> keys[j] != k
    decreases |keys|
  {
    if keys[0] == k then 0 else IndexOf(keys[1..], k) + 1
  }

  /** `freq[r] = freq.get(r, 0) + 1`: bump an existing count, or append a new key with count 1. */
  function Count(t: Tally, r: int): (t': Tally)
    requires |t.keys| == |t.counts|
    ensures |t'.keys| == |t'.counts|
  {
    if r in t.keys then
      var i := IndexOf(t.keys, r);
      Tally(t.keys, t.counts[i := t.counts[i] + 1])
    else
      Tally(t.keys + [r], t.counts + [1])
  }

  /** The tally of the results of `w` over the vectors, counted in list order. */
  function Frequencies(sols: seq<seq<int>>, w: Weighing): (t: Tally)
    requires Applicable(sols, w)
    ensures |t.keys| == |t.counts|
    decreases |sols|
  {
    if sols == [] then Tally([], [])
    else Count(Frequencies(sols[..|sols| - 1], w), Outcome(sols[|sols| - 1], w))
  }

  /** Counting one more vector extends the tally of the prefix before it by that vector's result. */
  lemma FrequenciesSnoc(sols: seq<seq<int>>, w: Weighing, j: nat)
    requires Applicable(sols, w) && j < |sols|
    ensures Applicable(sols[..j], w) && Applicable(sols[..j + 1], w)
    ensures InRange(w.left, |sols[j]|) && InRange(w.right, |sols[j]|)
    ensures Outcome(sols[j], w) == TellHeavierPlate(sols[j], w.left, w.right)
    ensures Frequencies(sols[..j + 1], w) == Count(Frequencies(sols[..j], w), Outcome(sols[j], w))
  {
    assert sols[..j + 1][..j] == sols[..j];
  }

  /** Nothing is counted before the first vector. */
  lemma FrequenciesStart(sols: seq<seq<int>>, w: Weighing)
    requires Applicable(sols, w)
    ensures Applicable(sols[..0], w) && Frequencies(sols[..0], w) == Tally([], [])
  {
  }

  /** The two cases of `Count`, as a contract. */
  lemma CountCases(t: Tally, r: int)
    requires |t.keys| == |t.counts|
    ensures r in t.keys ==>
      var i := IndexOf(t.keys, r); Count(t, r) == Tally(t.keys, t.counts[i := t.counts[i] + 1])
    ensures r !in t.keys ==> Count(t, r) == Tally(t.keys + [r], t.counts + [1])
  {
  }

  function Zeros(n: nat): (r: seq<int>)
    ensures |r| == n && forall i :: 0 <= i < n ==> r[i] == 0
  {
    seq(n, _ => 0)
  }

  /** Zeros appended up to three entries. */
  function Pad3(s: seq<int>): seq<int> {
    if |s| < 3 then s + Zeros(3 - |s|) else s
  }

  /** A rank: descending bucket sizes, then the number of balls per plate. */
  datatype Rank = Rank(freqs: seq<int>, plateSize: int)

  /** `rank_weighing`. */
  function RankOf(sols: seq<seq<int>>, w: Weighing): Rank
    requires Applicable(sols, w)
  {
    Rank(Pad3(SortDescending(Frequencies(sols, w).counts)), |w.left|)
  }

  /** The rank in the steps `rank_weighing` takes: sort the counts, pad them to three, pair with the plate size. */
  lemma RankOfPadded(sols: seq<seq<int>>, w: Weighing)
    requires Applicable(sols, w)
    ensures var d := SortDescending(Frequencies(sols, w).counts);
      RankOf(sols, w) == Rank(if |d| < 3 then d + Zeros(3 - |d|) else d, |w.left|)
  {
    // only the shapes of RankOf and Pad3 matter here
    hide Frequencies, SortDescending;
  }

  /** Python's `<` on (list, int) pairs. */
  predicate RankLess(a: Rank, b: Rank) {
    LexLess(a.freqs, b.freqs) || (a.freqs == b.freqs && a.plateSize < b.plateSize)
  }

  /** The rank every search starts from: all vectors in every bucket, one ball more than there are. */
  function InitialRank(nSolutions: int, nBalls: int): Rank {
    Rank([nSolutions, nSolutions, nSolutions], nBalls + 1)
  }

  /** The sizes of the three lists the solver could be left with after the weighing; result q's bucket is at q + 1. */
  function Buckets(sols: seq<seq<int>>, w: Weighing): (b: seq<int>)
    requires Applicable(sols, w)
    ensures |b| == 3
  {
    [|Filter(sols, w, LEFT)|, |Filter(sols, w, EQUAL)|, |Filter(sols, w, RIGHT)|]
  }

  /** The sum of a list of counts. */
  function Total(s: seq<int>): int
    decreases |s|
  {
    if s == [] then 0 else s[0] + Total(s[1..])
  }

  lemma {:induction false} TotalAppend(a: seq<int>, b: seq<int>)
    ensures Total(a + b) == Total(a) + Total(b)
    decreases |a|
  {
    if a != [] {
      assert (a + b)[0] == a[0] && (a + b)[1..] == a[1..] + b;
      TotalAppend(a[1..], b);
    } else {
      assert a + b == b;
    }
  }

  lemma Total3(s: seq<int>)
    requires |s| == 3
    ensures Total(s) == s[0] + s[1] + s[2]
  {
    var s1 := s[1..];
    var s2 := s1[1..];
    assert s2[1..] == [];
    assert Total(s2) == s2[0];
    assert Total(s1) == s1[0] + Total(s2);
  }

  lemma CancelOne(a: multiset<int>, b: multiset<int>, c: multiset<int>, x: int)
    requires multiset{x} + a == b + multiset{x} + c
    ensures a == b + c
  {
    assert a == (multiset{x} + a) - multiset{x};
  }

  /** The same numbers in another order have the same sum. */
  lemma {:induction false} TotalPermutation(a: seq<int>, b: seq<int>)
    requires multiset(a) == multiset(b)
    ensures Total(a) == Total(b)
    decreases |a|
  {
    if a == [] {
      assert |multiset(b)| == 0;
    } else {
      var x := a[0];
      assert x in multiset(b);
      var j :| 0 <= j < |b| && b[j] == x;
      var rest := b[..j] + b[j + 1..];
      assert b == b[..j] + [x] + b[j + 1..];
      assert a == [x] + a[1..];
      assert multiset(a) == multiset{x} + multiset(a[1..]);
      assert multiset(b) == multiset(b[..j]) + multiset{x} + multiset(b[j + 1..]);
      assert multiset(rest) == multiset(b[..j]) + multiset(b[j + 1..]);
      CancelOne(multiset(a[1..]), multiset(b[..j]), multiset(b[j + 1..]), x);
      TotalAppend(b[..j] + [x], b[j + 1..]);
      TotalAppend(b[..j], [x]);
      TotalAppend(b[..j], b[j + 1..]);
      TotalPermutation(a[1..], rest);
    }
  }

  // ---------------------------------------------------------------------------
  // The tally counts the buckets

  /** Filtering a list with one more vector at the end. */
  lemma {:induction false} FilterSnoc(sols: seq<seq<int>>, x: seq<int>, w: Weighing, result: int)
    requires Applicable(sols + [x], w)
    ensures Applicable(sols, w) && Fits(w, |x|)
    ensures Filter(sols + [x], w, result) == Filter(sols, w, result) + (if Outcome(x, w) == result then [x] else [])
    decreases |sols|
  {
    assert Fits(w, |(sols + [x])[|sols|]|);
    assert Applicable(sols, w) by {
      forall j | 0 <= j < |sols| ensures Fits(w, |sols[j]|) {
        assert sols[j] == (sols + [x])[j];
      }
    }
    if sols != [] {
      assert (sols + [x])[1..] == sols[1..] + [x];
      FilterSnoc(sols[1..], x, w, result);
    }
  }

  /** One more vector at the end grows the bucket of its result by one. */
  lemma BucketsSnoc(sols: seq<seq<int>>, x: seq<int>, w: Weighing)
    requires Applicable(sols + [x], w)
    ensures Applicable(sols, w) && Fits(w, |x|)
    ensures Buckets(sols + [x], w) == Buckets(sols, w)[Outcome(x, w) + 1 := Buckets(sols, w)[Outcome(x, w) + 1] + 1]
  {
    FilterSnoc(sols, x, w, LEFT);
    FilterSnoc(sols, x, w, EQUAL);
    FilterSnoc(sols, x, w, RIGHT);
  }

  /** At most three results exist, so keys without repetition that miss one of them number at most two. */
  lemma KeysBound(keys: seq<int>, r: int)
    requires NoDuplicates(keys) && forall i :: 0 <= i < |keys| ==> LEFT <= keys[i] <= RIGHT
    requires LEFT <= r <= RIGHT
    ensures r !in keys ==> |keys| <= 2
  {
    if |keys| > 2 {
      var a, b, c := keys[0], keys[1], keys[2];
      assert a != b && a != c && b != c;
      assert r == a || r == b || r == c;
    }
  }

  /** Each result seen once, with the size of its bucket; the unseen results have empty buckets. */
  ghost predicate TallyKeys(t: Tally, b: seq<int>) {
    && |b| == 3
    && |t.keys| == |t.counts| <= 3
    && NoDuplicates(t.keys)
    && (forall i :: 0 <= i < |t.keys| ==> LEFT <= t.keys[i] <= RIGHT && t.counts[i] == b[t.keys[i] + 1] > 0)
    && (forall k :: 0 <= k < 3 && k - 1 !in t.keys ==> b[k] == 0)
  }

  /** The counts and one zero per unseen result are the bucket sizes. */
  ghost predicate TallySizes(t: Tally, b: seq<int>) {
    && |t.counts| <= 3
    && multiset(t.counts) + multiset(Zeros(3 - |t.counts|)) == multiset(b)
  }

  /**
   * What the tally holds at any point: each result seen once, with the size
   * of its bucket; the unseen results have empty buckets; so the counts and
   * one zero per unseen result are the bucket sizes.
   */
  ghost predicate TallyOf(t: Tally, b: seq<int>) {
    TallyKeys(t, b) && TallySizes(t, b)
  }

  lemma MultisetBumpAt(s: seq<int>, i: int)
    requires 0 <= i < |s|
    ensures multiset(s[i := s[i] + 1]) == multiset(s) - multiset{s[i]} + multiset{s[i] + 1}
  {
  }

  lemma BumpKeys(t: Tally, b: seq<int>, r: int)
    requires TallyKeys(t, b) && LEFT <= r <= RIGHT && r in t.keys
    ensures TallyKeys(Count(t, r), b[r + 1 := b[r + 1] + 1])
    ensures t.counts[IndexOf(t.keys, r)] == b[r + 1]
  {
    // only the cases of Count matter here
    hide Count;
    var i := IndexOf(t.keys, r);
    var c' := t.counts[i := t.counts[i] + 1];
    var b' := b[r + 1 := b[r + 1] + 1];
    CountCases(t, r);
    forall j | 0 <= j < |t.keys| ensures c'[j] == b'[t.keys[j] + 1] > 0 {
      if j != i { assert t.keys[j] != r; }
    }
    forall k | 0 <= k < 3 && k - 1 !in t.keys ensures b'[k] == 0 {
      assert k != r + 1;
    }
  }

  lemma BumpSizes(t: Tally, b: seq<int>, r: int)
    requires TallySizes(t, b) && |t.keys| == |t.counts| && |b| == 3 && LEFT <= r <= RIGHT && r in t.keys
    requires t.counts[IndexOf(t.keys, r)] == b[r + 1]
    ensures TallySizes(Count(t, r), b[r + 1 := b[r + 1] + 1])
  {
    var i := IndexOf(t.keys, r);
    var c, v := t.counts, b[r + 1];
    var c', b' := c[i := v + 1], b[r + 1 := v + 1];
    assert Count(t, r) == Tally(t.keys, c');
    MultisetBumpAt(c, i);
    MultisetBumpAt(b, r + 1);
    var z := multiset(Zeros(3 - |c|));
    assert v in multiset(c);
    MultisetShift(multiset(c), z, multiset(b), v);
  }

  /** A result seen before: its count goes up by one. */
  lemma TallyBump(t: Tally, b: seq<int>, r: int)
    requires TallyOf(t, b) && LEFT <= r <= RIGHT && r in t.keys
    ensures TallyOf(Count(t, r), b[r + 1 := b[r + 1] + 1])
  {
    BumpKeys(t, b, r);
    BumpSizes(t, b, r);
  }

  lemma MultisetShift(a: multiset<int>, z: multiset<int>, b: multiset<int>, v: int)
    requires a + z == b && v in a
    ensures (a - multiset{v} + multiset{v + 1}) + z == b - multiset{v} + multiset{v + 1}
  {
  }

  lemma NewKeys(t: Tally, b: seq<int>, r: int)
    requires TallyKeys(t, b) && LEFT <= r <= RIGHT && r !in t.keys
    ensures TallyKeys(Count(t, r), b[r + 1 := b[r + 1] + 1])
    ensures b[r + 1] == 0 && |t.counts| <= 2
  {
    KeysBound(t.keys, r);
    var t' := Tally(t.keys + [r], t.counts + [1]);
    var b' := b[r + 1 := b[r + 1] + 1];
    assert Count(t, r) == t';
    assert NoDuplicates(t'.keys) by {
      forall i, j | 0 <= i < j < |t'.keys| ensures t'.keys[i] != t'.keys[j] {
        if j == |t.keys| { assert t.keys[i] in t.keys; }
      }
    }
    forall j | 0 <= j < |t'.keys| ensures t'.counts[j] == b'[t'.keys[j] + 1] > 0 {
      if j < |t.keys| { assert t.keys[j] != r; }
    }
    forall k | 0 <= k < 3 && k - 1 !in t'.keys ensures b'[k] == 0 {
      assert k != r + 1;
      assert k - 1 !in t.keys;
    }
  }

  lemma NewSizes(t: Tally, b: seq<int>, r: int)
    requires TallySizes(t, b) && |t.keys| == |t.counts| <= 2 && |b| == 3 && LEFT <= r <= RIGHT && r !in t.keys
    requires b[r + 1] == 0
    ensures TallySizes(Count(t, r), b[r + 1 := b[r + 1] + 1])
  {
    var c := t.counts;
    assert Count(t, r) == Tally(t.keys + [r], c + [1]);
    MultisetBumpAt(b, r + 1);
    assert Zeros(3 - |c|) == Zeros(2 - |c|) + [0];
    MultisetSwapZero(multiset(c), multiset(Zeros(2 - |c|)), multiset(b));
  }

  /** A result not seen before: it is appended with count 1, taking the place of one zero. */
  lemma TallyNew(t: Tally, b: seq<int>, r: int)
    requires TallyOf(t, b) && LEFT <= r <= RIGHT && r !in t.keys
    ensures TallyOf(Count(t, r), b[r + 1 := b[r + 1] + 1])
  {
    NewKeys(t, b, r);
    NewSizes(t, b, r);
  }

  lemma MultisetSwapZero(a: multiset<int>, z: multiset<int>, b: multiset<int>)
    requires a + z + multiset{0} == b
    ensures a + multiset{1} + z == b - multiset{0} + multiset{1}
  {
  }

  /** Counting one more result r keeps the tally true once r's bucket grows by one. */
  lemma TallyStep(t: Tally, b: seq<int>, r: int)
    requires TallyOf(t, b) && LEFT <= r <= RIGHT
    ensures TallyOf(Count(t, r), b[r + 1 := b[r + 1] + 1])
  {
    if r in t.keys {
      TallyBump(t, b, r);
    } else {
      TallyNew(t, b, r);
    }
  }

  /** The tally of `rank_weighing` holds each result seen, once, with the size of its bucket. */
  lemma {:induction false} FrequenciesSpec(sols: seq<seq<int>>, w: Weighing)
    requires Applicable(sols, w)
    ensures TallyOf(Frequencies(sols, w), Buckets(sols, w))
    decreases |sols|
  {
    if sols == [] {
      assert Zeros(3) == [0, 0, 0];
    } else {
      var p, x := sols[..|sols| - 1], sols[|sols| - 1];
      assert sols == p + [x];
      BucketsSnoc(p, x, w);
      var t, b, r := Frequencies(p, w), Buckets(p, w), Outcome(x, w);
      assert Frequencies(sols, w) == Count(t, r);
      assert Buckets(sols, w) == b[r + 1 := b[r + 1] + 1];
      FrequenciesSpec(p, w);
      TallyStep(t, b, r);
    }
  }

  // ---------------------------------------------------------------------------
  // What a rank says

  /** A reordering of positive numbers has as many numbers, all positive. */
  lemma PermutationPositive(c: seq<int>, s: seq<int>)
    requires multiset(s) == multiset(c) && forall j :: 0 <= j < |c| ==> c[j] > 0
    ensures |s| == |c| && forall i :: 0 <= i < |s| ==> s[i] > 0
  {
    assert |multiset(s)| == |multiset(c)|;
    forall i | 0 <= i < |s| ensures s[i] > 0 {
      assert s[i] in multiset(c);
      var j :| 0 <= j < |c| && c[j] == s[i];
    }
  }

  /** Zeros after descending positive numbers keep them descending. */
  lemma PadDescending(s: seq<int>)
    requires Descending(s) && |s| <= 3 && forall i :: 0 <= i < |s| ==> s[i] > 0
    ensures |Pad3(s)| == 3 && Descending(Pad3(s))
    ensures forall i :: 0 <= i < 3 ==> Pad3(s)[i] >= 0
    ensures multiset(Pad3(s)) == multiset(s) + multiset(Zeros(3 - |s|))
  {
    if |s| == 3 {
      assert Zeros(0) == [];
    }
  }

  /** Sorting the positive counts largest first and padding with zeros keeps them in descending order and the same as the buckets. */
  lemma PaddedSort(t: Tally, b: seq<int>)
    requires TallyOf(t, b)
    ensures |Pad3(SortDescending(t.counts))| == 3
    ensures Descending(Pad3(SortDescending(t.counts)))
    ensures multiset(Pad3(SortDescending(t.counts))) == multiset(b)
    ensures forall i :: 0 <= i < 3 ==> Pad3(SortDescending(t.counts))[i] >= 0
  {
    var s := SortDescending(t.counts);
    PermutationPositive(t.counts, s);
    PadDescending(s);
  }

  /**
   * The rank lists the sizes of the three lists the solver could be left
   * with, largest first; they add up to the current number of vectors.
   */
  lemma RankSpec(sols: seq<seq<int>>, w: Weighing)
    requires Applicable(sols, w)
    ensures |RankOf(sols, w).freqs| == 3
    ensures Descending(RankOf(sols, w).freqs)
    ensures multiset(RankOf(sols, w).freqs) == multiset(Buckets(sols, w))
    ensures RankOf(sols, w).freqs[0] + RankOf(sols, w).freqs[1] + RankOf(sols, w).freqs[2] == |sols|
    ensures forall i :: 0 <= i < 3 ==> 0 <= RankOf(sols, w).freqs[i] <= |sols|
    ensures RankOf(sols, w).plateSize == |w.left|
  {
    var t, b := Frequencies(sols, w), Buckets(sols, w);
    FrequenciesSpec(sols, w);
    PaddedSort(t, b);
    FilterPartition(sols, w);
    var f := Pad3(SortDescending(t.counts));
    TotalPermutation(f, b);
    Total3(f);
    Total3(b);
  }

  // ---------------------------------------------------------------------------
  // The order on ranks

  lemma RankLessIrreflexive(a: Rank)
    ensures !RankLess(a, a)
  {
    LexLessIrreflexive(a.freqs);
  }

  lemma RankLessTransitive(a: Rank, b: Rank, c: Rank)
    requires RankLess(a, b) && RankLess(b, c)
    ensures RankLess(a, c)
  {
    if LexLess(a.freqs, b.freqs) && LexLess(b.freqs, c.freqs) {
      LexLessTransitive(a.freqs, b.freqs, c.freqs);
    }
  }

  /** Ranks are totally ordered, so a first-found minimum is a minimum. */
  lemma RankTotal(a: Rank, b: Rank)
    ensures a == b || RankLess(a, b) || RankLess(b, a)
  {
    LexTotal(a.freqs, b.freqs);
  }

  lemma RankLessAsymmetric(a: Rank, b: Rank)
    requires RankLess(a, b)
    ensures !RankLess(b, a)
  {
    if LexLess(a.freqs, b.freqs) {
      LexLessAsymmetric(a.freqs, b.freqs);
    } else {
      LexLessIrreflexive(a.freqs);
    }
  }

  /** Three non-negative bucket sizes adding up to n never exceed [n, n, n], and equal it only when n is 0. */
  lemma BucketsAtMostAll(f: seq<int>, n: int)
    requires |f| == 3 && f[0] + f[1] + f[2] == n && forall i :: 0 <= i < 3 ==> f[i] >= 0
    ensures LexLess(f, [n, n, n]) || (f == [n, n, n] && n == 0)
  {
    var all := [n, n, n];
    if f[0] == n && n > 0 {
      assert f[1..][0] == 0 < all[1..][0];
      assert LexLess(f[1..], all[1..]);
    } else if n == 0 {
      assert f == [0, 0, 0];
    }
  }

  /** Every weighing whose plates hold at most all the balls beats the starting rank. */
  lemma RankBeatsInitial(sols: seq<seq<int>>, w: Weighing, nBalls: int)
    requires Applicable(sols, w) && |w.left| <= nBalls
    ensures RankLess(RankOf(sols, w), InitialRank(|sols|, nBalls))
  {
    RankSpec(sols, w);
    BucketsAtMostAll(RankOf(sols, w).freqs, |sols|);
  }
}
