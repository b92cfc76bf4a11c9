/**
 * The candidate weighings: for every even number of balls left off the
 * balance, one representative set of unweighed balls per signature, and for
 * each of those one representative split of the weighed balls into two
 * plates of equal size per signature of the split.
 */
module Candidates {
  import opened Ordering
  import opened Itertools
  import opened GameRules
  import opened Beliefs
  import opened Signatures

  /** A weighing the oracle accepts: equal, non-empty, disjoint plates of balls of the game, each listed in increasing order. */
  predicate Proper(w: Weighing, nBalls: int) {
    && 1 <= |w.left| == |w.right|
    && StrictlyIncreasing(w.left) && StrictlyIncreasing(w.right)
    && NoDuplicates(w.left + w.right)
    && InRange(w.left + w.right, nBalls)
  }

  /** The balls that are not left off: every ball of the game not in `unweighed`, in order. */
  function WeighedBalls(nBalls: nat, unweighed: seq<int>): (r: seq<int>)
    ensures InRange(r, nBalls)
  {
    RangeSpec(0, nBalls);
    var r := Without(Range(0, nBalls), unweighed);
    forall i | 0 <= i < |r| ensures 0 <= r[i] < nBalls {
      assert r[i] in r;
    }
    r
  }

  /** The plate splits of the weighed balls: one per signature of a `per`-ball plate and its rest. */
  function SplitsOf(pbw: seq<seq<int>>, weighed: seq<int>, per: nat): (r: seq<Weighing>)
    requires InRange(weighed, |pbw|)
    ensures |r| == |UniqueSignatureCombinations(pbw, weighed, per, true)|
  {
    var u := UniqueSignatureCombinations(pbw, weighed, per, true);
    seq(|u|, i requires 0 <= i < |u| => Weighing(u[i].comb, Without(weighed, u[i].comb)))
  }

  /** For each set of unweighed balls, in order, the splits of the balls that remain. */
  function SplitLists(pbw: seq<seq<int>>, unweighed: seq<Pick>, per: nat): (r: seq<seq<Weighing>>)
    ensures |r| == |unweighed|
  {
    seq(|unweighed|, i requires 0 <= i < |unweighed| => SplitsOf(pbw, WeighedBalls(|pbw|, unweighed[i].comb), per))
  }

  /** The first m lists, concatenated in order. */
  function Concat(ls: seq<seq<Weighing>>, m: nat): seq<Weighing>
    requires m <= |ls|
    decreases m
  {
    if m == 0 then [] else Concat(ls, m - 1) + ls[m - 1]
  }

  /** All candidates with exactly u balls left off the balance. */
  function ForUnweighed(pbw: seq<seq<int>>, u: nat): seq<Weighing>
    requires u <= |pbw|
  {
    RangeSpec(0, |pbw|);
    InRangeSub(Range(0, |pbw|), Range(0, |pbw|), |pbw|);
    var unweighed := UniqueSignatureCombinations(pbw, Range(0, |pbw|), u, false);
    Concat(SplitLists(pbw, unweighed, (|pbw| - u) / 2), |unweighed|)
  }

  /** The candidates for u, u + 2, ... unweighed balls while at least two balls are weighed. */
  function CandidatesFrom(pbw: seq<seq<int>>, u: nat): seq<Weighing>
    decreases |pbw| - u
  {
    if u + 2 > |pbw| then [] else ForUnweighed(pbw, u) + CandidatesFrom(pbw, u + 2)
  }

  /** `n % 2`: the fewest balls that can be left off so that the rest split evenly. */
  function MinUnweighed(n: nat): nat {
    n % 2
  }

  /** `yield_all_candidate_weighings`, for per-ball signatures `pbw` of the |pbw| balls. */
  function CandidateWeighings(pbw: seq<seq<int>>): seq<Weighing> {
    CandidatesFrom(pbw, MinUnweighed(|pbw|))
  }

  // ---------------------------------------------------------------------------
  // Every candidate is a proper weighing

  predicate AllProper(ws: seq<Weighing>, nBalls: int) {
    forall i :: 0 <= i < |ws| ==> Proper(ws[i], nBalls)
  }

  lemma {:induction false} ConcatProper(ls: seq<seq<Weighing>>, m: nat, nBalls: int)
    requires m <= |ls| && forall i :: 0 <= i < |ls| ==> AllProper(ls[i], nBalls)
    ensures AllProper(Concat(ls, m), nBalls)
    decreases m
  {
    if m > 0 {
      ConcatProper(ls, m - 1, nBalls);
      var a, b := Concat(ls, m - 1), ls[m - 1];
      assert AllProper(b, nBalls);
      forall i | 0 <= i < |a + b| ensures Proper((a + b)[i], nBalls) {
        if i >= |a| { assert (a + b)[i] == b[i - |a|]; }
      }
    }
  }

  /** Two increasing lists with no common element have no repeated element between them. */
  lemma DisjointNoDuplicates(a: seq<int>, b: seq<int>)
    requires StrictlyIncreasing(a) && StrictlyIncreasing(b)
    requires forall x :: x in a ==> x !in b
    ensures NoDuplicates(a + b)
  {
    IncreasingNoDuplicates(a);
    IncreasingNoDuplicates(b);
    var s := a + b;
    forall i, j | 0 <= i < j < |s| ensures s[i] != s[j] {
      if j < |a| {
        assert s[i] == a[i] && s[j] == a[j];
      } else if i >= |a| {
        assert s[i] == b[i - |a|] && s[j] == b[j - |a|];
      } else {
        assert s[i] == a[i] && s[i] in a;
        assert s[j] == b[j - |a|] && s[j] in b;
      }
    }
  }

  /** A plate of half the weighed balls against the other half. */
  lemma SplitProper(weighed: seq<int>, c: seq<int>, nBalls: int)
    requires InRange(weighed, nBalls) && StrictlyIncreasing(weighed)
    requires StrictlyIncreasing(c) && (forall x :: x in c ==> x in weighed)
    requires 1 <= |c| && |weighed| == 2 * |c|
    ensures Proper(Weighing(c, Without(weighed, c)), nBalls)
  {
    SplitPartition(weighed, c);
    DisjointNoDuplicates(c, Without(weighed, c));
    InRangeSub(weighed, c, nBalls);
    InRangeSub(weighed, Without(weighed, c), nBalls);
    InRangeConcat(c, Without(weighed, c), nBalls);
  }

  /** Each split puts `per` balls on the left and the rest of the weighed balls on the right. */
  lemma SplitsOfProper(pbw: seq<seq<int>>, weighed: seq<int>, per: nat)
    requires InRange(weighed, |pbw|) && StrictlyIncreasing(weighed)
    requires 1 <= per && |weighed| == 2 * per
    ensures AllProper(SplitsOf(pbw, weighed, per), |pbw|)
  {
    var u := UniqueSignatureCombinations(pbw, weighed, per, true);
    var r := SplitsOf(pbw, weighed, per);
    UniqueCombinationsShape(pbw, weighed, per, true);
    forall i | 0 <= i < |r| ensures Proper(r[i], |pbw|) {
      assert r[i] == Weighing(u[i].comb, Without(weighed, u[i].comb));
      SplitProper(weighed, u[i].comb, |pbw|);
    }
  }

  /** Leaving off some increasing balls of the game leaves the others, in increasing order. */
  lemma WeighedCount(nBalls: nat, c: seq<int>)
    requires StrictlyIncreasing(c) && forall x :: x in c ==> 0 <= x < nBalls
    ensures |WeighedBalls(nBalls, c)| == nBalls - |c|
    ensures StrictlyIncreasing(WeighedBalls(nBalls, c))
  {
    RangeSpec(0, nBalls);
    SplitPartition(Range(0, nBalls), c);
  }

  /** Every set of unweighed balls has u increasing balls of the game. */
  predicate UnweighedShape(unweighed: seq<Pick>, nBalls: int, u: int) {
    forall i :: 0 <= i < |unweighed| ==>
      |unweighed[i].comb| == u && StrictlyIncreasing(unweighed[i].comb) && forall x :: x in unweighed[i].comb ==> 0 <= x < nBalls
  }

  lemma SplitListsProper(pbw: seq<seq<int>>, unweighed: seq<Pick>, u: nat, per: nat)
    requires |pbw| == u + 2 * per && 1 <= per && UnweighedShape(unweighed, |pbw|, u)
    ensures forall i :: 0 <= i < |unweighed| ==> AllProper(SplitLists(pbw, unweighed, per)[i], |pbw|)
  {
    forall i | 0 <= i < |unweighed| ensures AllProper(SplitLists(pbw, unweighed, per)[i], |pbw|) {
      var c := unweighed[i].comb;
      WeighedCount(|pbw|, c);
      SplitsOfProper(pbw, WeighedBalls(|pbw|, c), per);
    }
  }

  /** The sets of unweighed balls are u-combinations of the game's balls. */
  lemma UnweighedSets(pbw: seq<seq<int>>, u: nat)
    requires u <= |pbw|
    ensures InRange(Range(0, |pbw|), |pbw|)
    ensures UnweighedShape(UniqueSignatureCombinations(pbw, Range(0, |pbw|), u, false), |pbw|, u)
  {
    RangeSpec(0, |pbw|);
    InRangeSub(Range(0, |pbw|), Range(0, |pbw|), |pbw|);
    UniqueCombinationsShape(pbw, Range(0, |pbw|), u, false);
  }

  lemma ForUnweighedProper(pbw: seq<seq<int>>, u: nat)
    requires u + 2 <= |pbw| && (|pbw| - u) % 2 == 0
    ensures AllProper(ForUnweighed(pbw, u), |pbw|)
  {
    UnweighedSets(pbw, u);
    var unweighed := UniqueSignatureCombinations(pbw, Range(0, |pbw|), u, false);
    var per := (|pbw| - u) / 2;
    SplitListsProper(pbw, unweighed, u, per);
    ConcatProper(SplitLists(pbw, unweighed, per), |unweighed|, |pbw|);
  }

  lemma AllProperConcat(a: seq<Weighing>, b: seq<Weighing>, nBalls: int)
    requires AllProper(a, nBalls) && AllProper(b, nBalls)
    ensures AllProper(a + b, nBalls)
  {
    forall i | 0 <= i < |a + b| ensures Proper((a + b)[i], nBalls) {
      if i >= |a| { assert (a + b)[i] == b[i - |a|]; }
    }
  }

  lemma {:induction false} CandidatesFromProper(pbw: seq<seq<int>>, u: nat)
    requires (|pbw| - u) % 2 == 0
    ensures AllProper(CandidatesFrom(pbw, u), |pbw|)
    decreases |pbw| - u
  {
    if u + 2 <= |pbw| {
      CandidatesFromProper(pbw, u + 2);
      ForUnweighedProper(pbw, u);
      AllProperConcat(ForUnweighed(pbw, u), CandidatesFrom(pbw, u + 2), |pbw|);
    }
  }

  /** Every candidate weighing is proper, so the oracle never refuses one for its plates. */
  lemma CandidatesProper(pbw: seq<seq<int>>)
    ensures AllProper(CandidateWeighings(pbw), |pbw|)
  {
    CandidatesFromProper(pbw, MinUnweighed(|pbw|));
  }

  /** Distinct balls of the game are at most all of them, so a proper weighing's two plates hold at most n balls together. */
  lemma ProperPlatesBound(w: Weighing, nBalls: int)
    requires Proper(w, nBalls)
    ensures 2 * |w.left| <= nBalls
  {
    var both := w.left + w.right;
    var all := Range(0, nBalls);
    NoDuplicatesIffSetSize(both);
    RangeSpec(0, nBalls);
    IncreasingNoDuplicates(all);
    NoDuplicatesIffSetSize(all);
    forall x | x in Elements(both) ensures x in Elements(all) {
      var i :| 0 <= i < |both| && both[i] == x;
    }
    var e, f := Elements(both), Elements(all);
    assert f == e + (f - e);
  }

  // ---------------------------------------------------------------------------
  // There is a candidate exactly when there are two balls to weigh

  lemma ConcatNonEmpty(ls: seq<seq<Weighing>>, m: nat)
    requires 1 <= m <= |ls| && |ls[m - 1]| > 0
    ensures |Concat(ls, m)| > 0
  {
  }

  lemma UnweighedAt(unweighed: seq<Pick>, nBalls: int, u: int, i: nat)
    requires UnweighedShape(unweighed, nBalls, u) && i < |unweighed|
    ensures |unweighed[i].comb| == u && StrictlyIncreasing(unweighed[i].comb)
    ensures forall x :: x in unweighed[i].comb ==> 0 <= x < nBalls
  {
  }

  lemma SplitListsLength(pbw: seq<seq<int>>, unweighed: seq<Pick>, per: nat, i: nat)
    requires i < |unweighed|
    ensures |SplitLists(pbw, unweighed, per)[i]| == |UniqueSignatureCombinations(pbw, WeighedBalls(|pbw|, unweighed[i].comb), per, true)|
  {
  }

  lemma SplitListsNonEmpty(pbw: seq<seq<int>>, unweighed: seq<Pick>, u: nat, per: nat)
    requires |pbw| == u + 2 * per && 1 <= per && UnweighedShape(unweighed, |pbw|, u) && |unweighed| > 0
    ensures |Concat(SplitLists(pbw, unweighed, per), |unweighed|)| > 0
  {
    // the proof needs only the lemmas' contracts, not the definitions
    hide *;
    var m := |unweighed|;
    var c := unweighed[m - 1].comb;
    UnweighedAt(unweighed, |pbw|, u, m - 1);
    WeighedCount(|pbw|, c);
    SplitListsLength(pbw, unweighed, per, m - 1);
    UniqueCombinationsNonEmpty(pbw, WeighedBalls(|pbw|, c), per, true);
    ConcatNonEmpty(SplitLists(pbw, unweighed, per), m);
  }

  lemma ForUnweighedNonEmpty(pbw: seq<seq<int>>, u: nat)
    requires u + 2 <= |pbw| && (|pbw| - u) % 2 == 0
    ensures |ForUnweighed(pbw, u)| > 0
  {
    UnweighedSets(pbw, u);
    UniqueCombinationsNonEmpty(pbw, Range(0, |pbw|), u, false);
    SplitListsNonEmpty(pbw, UniqueSignatureCombinations(pbw, Range(0, |pbw|), u, false), u, (|pbw| - u) / 2);
  }

  /** The number of balls left off runs from n % 2 to n - 2, so there is a candidate exactly when n >= 2. */
  lemma CandidatesNonEmptyIff(pbw: seq<seq<int>>)
    ensures |CandidateWeighings(pbw)| > 0 <==> |pbw| >= 2
  {
    if |pbw| >= 2 {
      ForUnweighedNonEmpty(pbw, MinUnweighed(|pbw|));
    }
  }

  // ---------------------------------------------------------------------------
  // No two candidates have the same pair of plate signatures

  predicate PlatesInRange(ws: seq<Weighing>, nBalls: int) {
    forall k :: 0 <= k < |ws| ==> InRange(ws[k].left, nBalls) && InRange(ws[k].right, nBalls)
  }

  /** What tells two weighings apart for the solver: the signatures of the two plates. */
  function Key(pbw: seq<seq<int>>, w: Weighing): (seq<seq<int>>, seq<seq<int>>)
    requires InRange(w.left, |pbw|) && InRange(w.right, |pbw|)
  {
    (Signature(pbw, w.left), Signature(pbw, w.right))
  }

  predicate KeysDistinct(pbw: seq<seq<int>>, ws: seq<Weighing>)
    requires PlatesInRange(ws, |pbw|)
  {
    forall i, j :: 0 <= i < j < |ws| ==> Key(pbw, ws[i]) != Key(pbw, ws[j])
  }

  /** The signatures of all the balls on the balance, as a multiset. */
  function Load(pbw: seq<seq<int>>, w: Weighing): multiset<seq<int>>
    requires InRange(w.left, |pbw|) && InRange(w.right, |pbw|)
  {
    multiset(Project(pbw, w.left)) + multiset(Project(pbw, w.right))
  }

  /** Every weighing of the list puts the signatures `load` on the balance. */
  predicate LoadedAs(pbw: seq<seq<int>>, ws: seq<Weighing>, load: multiset<seq<int>>) {
    PlatesInRange(ws, |pbw|) && forall k :: 0 <= k < |ws| ==> Load(pbw, ws[k]) == load
  }

  predicate Sized(ws: seq<Weighing>, per: int) {
    forall k :: 0 <= k < |ws| ==> |ws[k].left| == per
  }

  /** Equal plate signatures mean the same balance load and the same plate size. */
  lemma KeyDetermines(pbw: seq<seq<int>>, w1: Weighing, w2: Weighing)
    requires InRange(w1.left, |pbw|) && InRange(w1.right, |pbw|)
    requires InRange(w2.left, |pbw|) && InRange(w2.right, |pbw|)
    ensures Key(pbw, w1) == Key(pbw, w2) ==> Load(pbw, w1) == Load(pbw, w2) && |w1.left| == |w2.left|
  {
    SignatureEqIff(pbw, w1.left, w2.left);
    SignatureEqIff(pbw, w1.right, w2.right);
    assert |multiset(Signature(pbw, w1.left))| == |w1.left|;
    assert |multiset(Signature(pbw, w2.left))| == |w2.left|;
  }

  /** A combination and its rest together carry the signatures of all the balls. */
  lemma SplitLoad(pbw: seq<seq<int>>, balls: seq<int>, comb: seq<int>)
    requires InRange(balls, |pbw|) && StrictlyIncreasing(balls) && StrictlyIncreasing(comb)
    requires forall x :: x in comb ==> x in balls
    ensures InRange(comb, |pbw|) && InRange(Without(balls, comb), |pbw|)
    ensures multiset(Project(pbw, comb)) + multiset(Project(pbw, Without(balls, comb))) == multiset(Project(pbw, balls))
  {
    var rest := Without(balls, comb);
    InRangeSub(balls, rest, |pbw|);
    InRangeSub(balls, comb, |pbw|);
    WithoutSplit(balls, comb);
    ProjectConcat(pbw, rest, comb);
    ProjectPermutation(pbw, rest + comb, balls);
  }

  lemma MultisetCancel<T>(a: multiset<T>, b: multiset<T>, x: multiset<T>)
    requires a + x == b + x
    ensures a == b
  {
    assert forall e :: a[e] == (a + x)[e] - x[e];
  }

  lemma KeysDistinctAppend(pbw: seq<seq<int>>, a: seq<Weighing>, b: seq<Weighing>)
    requires PlatesInRange(a, |pbw|) && PlatesInRange(b, |pbw|)
    requires KeysDistinct(pbw, a) && KeysDistinct(pbw, b)
    requires forall i, j :: 0 <= i < |a| && 0 <= j < |b| ==> Key(pbw, a[i]) != Key(pbw, b[j])
    ensures PlatesInRange(a + b, |pbw|) && KeysDistinct(pbw, a + b)
  {
    var s := a + b;
    assert forall k :: 0 <= k < |a| ==> s[k] == a[k];
    assert forall k :: |a| <= k < |s| ==> s[k] == b[k - |a|];
    forall i, j | 0 <= i < j < |s| ensures Key(pbw, s[i]) != Key(pbw, s[j]) {
      if j < |a| {
      } else if i >= |a| {
        assert s[i] == b[i - |a|] && s[j] == b[j - |a|];
      } else {
        assert s[i] == a[i] && s[j] == b[j - |a|];
      }
    }
  }

  /** The splits of one set of weighed balls all load the whole set and differ in their left plate's signature. */
  lemma SplitsOfDistinct(pbw: seq<seq<int>>, weighed: seq<int>, per: nat)
    requires InRange(weighed, |pbw|) && StrictlyIncreasing(weighed)
    ensures var r := SplitsOf(pbw, weighed, per);
      LoadedAs(pbw, r, multiset(Project(pbw, weighed))) && KeysDistinct(pbw, r) && Sized(r, per)
  {
    var u := UniqueSignatureCombinations(pbw, weighed, per, true);
    var r := SplitsOf(pbw, weighed, per);
    UniqueCombinationsShape(pbw, weighed, per, true);
    UniqueCombinationsDistinct(pbw, weighed, per, true);
    forall k | 0 <= k < |r|
      ensures InRange(r[k].left, |pbw|) && InRange(r[k].right, |pbw|)
      ensures Load(pbw, r[k]) == multiset(Project(pbw, weighed)) && |r[k].left| == per
    {
      assert r[k] == Weighing(u[k].comb, Without(weighed, u[k].comb));
      SplitLoad(pbw, weighed, u[k].comb);
    }
    forall i, j | 0 <= i < j < |r| ensures Key(pbw, r[i]) != Key(pbw, r[j]) {
      assert r[i].left == u[i].comb && r[j].left == u[j].comb;
    }
  }

  /** Appending a list of one new load keeps the keys distinct. */
  lemma AppendDistinct(pbw: seq<seq<int>>, a: seq<Weighing>, b: seq<Weighing>, prev: seq<multiset<seq<int>>>, load: multiset<seq<int>>, per: int)
    requires PlatesInRange(a, |pbw|) && KeysDistinct(pbw, a) && Sized(a, per)
    requires forall k :: 0 <= k < |a| ==> Load(pbw, a[k]) in prev
    requires LoadedAs(pbw, b, load) && KeysDistinct(pbw, b) && Sized(b, per)
    requires load !in prev
    ensures var s := a + b;
      && PlatesInRange(s, |pbw|) && KeysDistinct(pbw, s) && Sized(s, per)
      && forall k :: 0 <= k < |s| ==> Load(pbw, s[k]) in prev + [load]
  {
    hide Signature, Project;
    forall i, j | 0 <= i < |a| && 0 <= j < |b| ensures Key(pbw, a[i]) != Key(pbw, b[j]) {
      KeyDetermines(pbw, a[i], b[j]);
    }
    KeysDistinctAppend(pbw, a, b);
    var s := a + b;
    forall k | 0 <= k < |s| ensures |s[k].left| == per && Load(pbw, s[k]) in prev + [load] {
      if k < |a| { assert s[k] == a[k]; } else { assert s[k] == b[k - |a|]; }
    }
  }

  /**
   * Lists whose weighings have distinct keys within a list and whose lists
   * have distinct loads concatenate to a list with distinct keys.
   */
  lemma {:induction false} ConcatDistinct(pbw: seq<seq<int>>, ls: seq<seq<Weighing>>, loads: seq<multiset<seq<int>>>, per: int, m: nat)
    requires m <= |ls| == |loads|
    requires forall i :: 0 <= i < |ls| ==> LoadedAs(pbw, ls[i], loads[i]) && KeysDistinct(pbw, ls[i]) && Sized(ls[i], per)
    requires forall i, j :: 0 <= i < j < |loads| ==> loads[i] != loads[j]
    ensures var c := Concat(ls, m);
      && PlatesInRange(c, |pbw|) && KeysDistinct(pbw, c) && Sized(c, per)
      && forall k :: 0 <= k < |c| ==> Load(pbw, c[k]) in loads[..m]
    decreases m
  {
    hide Signature, Project;
    if m > 0 {
      ConcatDistinct(pbw, ls, loads, per, m - 1);
      assert loads[..m] == loads[..m - 1] + [loads[m - 1]];
      assert loads[m - 1] !in loads[..m - 1];
      AppendDistinct(pbw, Concat(ls, m - 1), ls[m - 1], loads[..m - 1], loads[m - 1], per);
    }
  }

  /** With u balls left off, the candidates have plates of (n - u) / 2 balls and distinct keys. */
  lemma ForUnweighedDistinct(pbw: seq<seq<int>>, u: nat)
    requires u <= |pbw|
    ensures var ws := ForUnweighed(pbw, u);
      PlatesInRange(ws, |pbw|) && KeysDistinct(pbw, ws) && Sized(ws, (|pbw| - u) / 2)
  {
    hide Signature, Project, SplitsOf, UniqueSignatureCombinations;
    UnweighedSets(pbw, u);
    RangeSpec(0, |pbw|);
    var all := Range(0, |pbw|);
    var un := UniqueSignatureCombinations(pbw, all, u, false);
    var per := (|pbw| - u) / 2;
    var ls := SplitLists(pbw, un, per);
    UniqueCombinationsDistinct(pbw, all, u, false);
    var loads := seq(|un|, i requires 0 <= i < |un| => multiset(Project(pbw, WeighedBalls(|pbw|, un[i].comb))));
    forall i | 0 <= i < |ls| ensures LoadedAs(pbw, ls[i], loads[i]) && KeysDistinct(pbw, ls[i]) && Sized(ls[i], per) {
      UnweighedAt(un, |pbw|, u, i);
      WeighedCount(|pbw|, un[i].comb);
      SplitsOfDistinct(pbw, WeighedBalls(|pbw|, un[i].comb), per);
    }
    forall i, j | 0 <= i < j < |loads| ensures loads[i] != loads[j] {
      UnweighedAt(un, |pbw|, u, i);
      UnweighedAt(un, |pbw|, u, j);
      var ci, cj := un[i].comb, un[j].comb;
      SplitLoad(pbw, all, ci);
      SplitLoad(pbw, all, cj);
      SignatureEqIff(pbw, ci, cj);
      assert loads[i] == multiset(Project(pbw, Without(all, ci)));
      assert loads[j] == multiset(Project(pbw, Without(all, cj)));
      if loads[i] == loads[j] {
        MultisetCancel(multiset(Project(pbw, ci)), multiset(Project(pbw, cj)), loads[i]);
      }
    }
    ConcatDistinct(pbw, ls, loads, per, |un|);
  }

  lemma {:induction false} CandidatesFromDistinct(pbw: seq<seq<int>>, u: nat)
    ensures var ws := CandidatesFrom(pbw, u);
      && PlatesInRange(ws, |pbw|) && KeysDistinct(pbw, ws)
      && forall k :: 0 <= k < |ws| ==> 2 * |ws[k].left| <= |pbw| - u
    decreases |pbw| - u
  {
    hide Signature, Project, ForUnweighed;
    if u + 2 <= |pbw| {
      CandidatesFromDistinct(pbw, u + 2);
      ForUnweighedDistinct(pbw, u);
      var a, b := ForUnweighed(pbw, u), CandidatesFrom(pbw, u + 2);
      forall i, j | 0 <= i < |a| && 0 <= j < |b| ensures Key(pbw, a[i]) != Key(pbw, b[j]) {
        KeyDetermines(pbw, a[i], b[j]);
      }
      KeysDistinctAppend(pbw, a, b);
      var s := a + b;
      forall k | 0 <= k < |s| ensures 2 * |s[k].left| <= |pbw| - u {
        if k < |a| { assert s[k] == a[k]; } else { assert s[k] == b[k - |a|]; }
      }
    }
  }

  /**
   * No two candidate weighings put the same signatures on the left plate and
   * the same on the right, so the solver never ranks the same weighing twice.
   */
  lemma CandidatesDistinct(pbw: seq<seq<int>>)
    ensures var ws := CandidateWeighings(pbw);
      && PlatesInRange(ws, |pbw|)
      && forall i, j :: 0 <= i < j < |ws| ==>
           (Signature(pbw, ws[i].left), Signature(pbw, ws[i].right)) != (Signature(pbw, ws[j].left), Signature(pbw, ws[j].right))
  {
    var ws := CandidateWeighings(pbw);
    CandidatesFromDistinct(pbw, MinUnweighed(|pbw|));
    assert forall i, j :: 0 <= i < j < |ws| ==> Key(pbw, ws[i]) != Key(pbw, ws[j]);
  }
}
