/**
 * Signatures of ball combinations and their deduplication. A ball's signature
 * is the sorted tuple of weights it may still have; a combination's signature
 * is the sorted list of its balls' signatures. Two combinations with the same
 * signature are interchangeable for the solver, so only the first of each
 * signature, in enumeration order, is kept.
 */
module Signatures {
  import opened Ordering
  import opened Itertools
  import opened GameRules

  /** The signatures of the given balls, in the order given. */
  function Project(pbw: seq<seq<int>>, balls: seq<int>): (r: seq<seq<int>>)
    requires InRange(balls, |pbw|)
    ensures |r| == |balls| && forall i :: 0 <= i < |balls| ==> r[i] == pbw[balls[i]]
    decreases |balls|
  {
    if balls == [] then []
    else
      assert forall i :: 0 <= i < |balls[1..]| ==> balls[1..][i] == balls[i + 1];
      [pbw[balls[0]]] + Project(pbw, balls[1..])
  }

  /** `get_combination_signature`: the sorted list of the balls' signatures. */
  function Signature(pbw: seq<seq<int>>, balls: seq<int>): (sig: seq<seq<int>>)
    requires InRange(balls, |pbw|)
    ensures SortedSeqs(sig) && multiset(sig) == multiset(Project(pbw, balls))
  {
    SortSeqs(Project(pbw, balls))
  }

  lemma ProjectConcat(pbw: seq<seq<int>>, a: seq<int>, b: seq<int>)
    requires InRange(a, |pbw|) && InRange(b, |pbw|)
    ensures InRange(a + b, |pbw|)
    ensures Project(pbw, a + b) == Project(pbw, a) + Project(pbw, b)
  {
    InRangeConcat(a, b, |pbw|);
    var l, r := Project(pbw, a + b), Project(pbw, a) + Project(pbw, b);
    forall i | 0 <= i < |l| ensures l[i] == r[i] {
      if i < |a| { assert (a + b)[i] == a[i]; } else { assert (a + b)[i] == b[i - |a|]; }
    }
  }

  /** Taking out the element at position k removes one copy of it. */
  lemma RemoveAt(b: seq<int>, k: int, nBalls: int)
    requires 0 <= k < |b| && InRange(b, nBalls)
    ensures b == b[..k] + [b[k]] + b[k + 1..]
    ensures multiset(b[..k] + b[k + 1..]) == multiset(b) - multiset{b[k]}
    ensures InRange(b[..k], nBalls) && InRange(b[k + 1..], nBalls) && InRange(b[..k] + b[k + 1..], nBalls)
  {
    assert b == b[..k] + [b[k]] + b[k + 1..];
    InRangeSlice(b, 0, k, nBalls);
    InRangeSlice(b, k + 1, |b|, nBalls);
    assert b[..k] == b[0..k] && b[k + 1..] == b[k + 1..|b|];
    InRangeConcat(b[..k], b[k + 1..], nBalls);
  }

  lemma ProjectRemoveAt(pbw: seq<seq<int>>, b: seq<int>, k: int)
    requires 0 <= k < |b| && InRange(b, |pbw|)
    ensures InRange(b[..k] + b[k + 1..], |pbw|)
    ensures multiset(Project(pbw, b)) == multiset(Project(pbw, b[..k] + b[k + 1..])) + multiset{pbw[b[k]]}
  {
    // the proof needs only the contract of Project
    hide Project;
    RemoveAt(b, k, |pbw|);
    var b1, b2 := b[..k], b[k + 1..];
    assert Project(pbw, [b[k]]) == [pbw[b[k]]];
    ProjectConcat(pbw, b1, b2);
    ProjectConcat(pbw, b1, [b[k]]);
    ProjectConcat(pbw, b1 + [b[k]], b2);
  }

  lemma ProjectCons(pbw: seq<seq<int>>, a: seq<int>)
    requires InRange(a, |pbw|) && a != []
    ensures InRange(a[1..], |pbw|)
    ensures multiset(Project(pbw, a)) == multiset{pbw[a[0]]} + multiset(Project(pbw, a[1..]))
  {
    InRangeSlice(a, 1, |a|, |pbw|);
    assert a[1..] == a[1..|a|];
  }

  lemma MultisetTail(a: seq<int>)
    requires a != []
    ensures multiset(a[1..]) == multiset(a) - multiset{a[0]}
  {
    assert a == [a[0]] + a[1..];
  }

  lemma AddSame<T>(x: T, m1: multiset<T>, m2: multiset<T>)
    requires m1 == m2
    ensures multiset{x} + m1 == m2 + multiset{x}
  {
  }

  /** Rearranging the balls rearranges their signatures. */
  lemma {:induction false} ProjectPermutation(pbw: seq<seq<int>>, a: seq<int>, b: seq<int>)
    requires InRange(a, |pbw|) && InRange(b, |pbw|)
    requires multiset(a) == multiset(b)
    ensures multiset(Project(pbw, a)) == multiset(Project(pbw, b))
    decreases |a|
  {
    if a == [] {
      assert |b| == |multiset(b)| == 0;
    } else {
      assert a[0] in multiset(b);
      var k :| 0 <= k < |b| && b[k] == a[0];
      RemoveAt(b, k, |pbw|);
      ProjectCons(pbw, a);
      MultisetTail(a);
      var rest := b[..k] + b[k + 1..];
      ProjectPermutation(pbw, a[1..], rest);
      ProjectRemoveAt(pbw, b, k);
      AddSame(pbw[a[0]], multiset(Project(pbw, a[1..])), multiset(Project(pbw, rest)));
    }
  }

  /** Two combinations have the same signature exactly when their balls' signatures agree as multisets. */
  lemma SignatureEqIff(pbw: seq<seq<int>>, a: seq<int>, b: seq<int>)
    requires InRange(a, |pbw|) && InRange(b, |pbw|)
    ensures Signature(pbw, a) == Signature(pbw, b) <==> multiset(Project(pbw, a)) == multiset(Project(pbw, b))
  {
    if multiset(Project(pbw, a)) == multiset(Project(pbw, b)) {
      SortedSeqsUnique(Signature(pbw, a), Signature(pbw, b));
    }
  }

  /** The signature does not depend on the order in which the balls are given. */
  lemma SignatureOrderIndependent(pbw: seq<seq<int>>, a: seq<int>, b: seq<int>)
    requires InRange(a, |pbw|) && InRange(b, |pbw|)
    requires multiset(a) == multiset(b)
    ensures Signature(pbw, a) == Signature(pbw, b)
  {
    ProjectPermutation(pbw, a, b);
    SignatureEqIff(pbw, a, b);
  }

  // ---------------------------------------------------------------------------
  // The balls left over by a combination

  /** `[ball for ball in balls if ball not in comb]` */
  function Without(balls: seq<int>, comb: seq<int>): (r: seq<int>)
    ensures forall x :: x in r <==> x in balls && x !in comb
    ensures |r| <= |balls|
    decreases |balls|
  {
    if balls == [] then []
    else
      assert forall x :: x in balls <==> x == balls[0] || x in balls[1..];
      (if balls[0] in comb then [] else [balls[0]]) + Without(balls[1..], comb)
  }

  lemma {:induction false} WithoutIncreasing(balls: seq<int>, comb: seq<int>)
    requires StrictlyIncreasing(balls)
    ensures StrictlyIncreasing(Without(balls, comb))
    decreases |balls|
  {
    if balls != [] {
      TailFacts(balls);
      assert StrictlyIncreasing(balls[1..]);
      WithoutIncreasing(balls[1..], comb);
      if balls[0] !in comb {
        ConsIncreasing(balls[0], Without(balls[1..], comb));
      }
    }
  }

  /** In a list without repeats every element occurs once. */
  lemma {:induction false} NoDuplicatesMultiset(s: seq<int>)
    requires NoDuplicates(s)
    ensures forall e :: multiset(s)[e] == if e in s then 1 else 0
    decreases |s|
  {
    if s != [] {
      var t := s[1..];
      assert NoDuplicates(t) by {
        forall i, j | 0 <= i < j < |t| ensures t[i] != t[j] { assert t[i] == s[i + 1] && t[j] == s[j + 1]; }
      }
      NoDuplicatesMultiset(t);
      assert s == [s[0]] + t;
      assert s[0] !in t by {
        forall j | 0 <= j < |t| ensures t[j] != s[0] { assert t[j] == s[j + 1]; }
      }
      assert forall e :: e in s <==> e == s[0] || e in t;
    }
  }

  /** A combination and its rest together hold each ball of the list once. */
  lemma WithoutSplit(balls: seq<int>, comb: seq<int>)
    requires StrictlyIncreasing(balls) && StrictlyIncreasing(comb)
    requires forall x :: x in comb ==> x in balls
    ensures multiset(Without(balls, comb)) + multiset(comb) == multiset(balls)
  {
    var rest := Without(balls, comb);
    WithoutIncreasing(balls, comb);
    IncreasingNoDuplicates(balls);
    IncreasingNoDuplicates(comb);
    IncreasingNoDuplicates(rest);
    NoDuplicatesMultiset(balls);
    NoDuplicatesMultiset(comb);
    NoDuplicatesMultiset(rest);
  }

  /** The rest's ball signatures are the whole list's minus the combination's. */
  lemma RestProjection(pbw: seq<seq<int>>, balls: seq<int>, comb: seq<int>)
    requires InRange(balls, |pbw|) && StrictlyIncreasing(balls) && StrictlyIncreasing(comb)
    requires forall x :: x in comb ==> x in balls
    ensures InRange(comb, |pbw|) && InRange(Without(balls, comb), |pbw|)
    ensures multiset(Project(pbw, Without(balls, comb))) == multiset(Project(pbw, balls)) - multiset(Project(pbw, comb))
  {
    var rest := Without(balls, comb);
    InRangeSub(balls, rest, |pbw|);
    InRangeSub(balls, comb, |pbw|);
    WithoutSplit(balls, comb);
    ProjectConcat(pbw, rest, comb);
    ProjectPermutation(pbw, rest + comb, balls);
  }

  /**
   * Among combinations of a list of distinct balls, equal signatures mean
   * equal signatures of what is left over.
   */
  lemma RestDetermined(pbw: seq<seq<int>>, balls: seq<int>, c1: seq<int>, c2: seq<int>)
    requires InRange(balls, |pbw|) && StrictlyIncreasing(balls)
    requires StrictlyIncreasing(c1) && StrictlyIncreasing(c2)
    requires forall x :: x in c1 ==> x in balls
    requires forall x :: x in c2 ==> x in balls
    requires InRange(c1, |pbw|) && InRange(c2, |pbw|)
    requires Signature(pbw, c1) == Signature(pbw, c2)
    ensures InRange(Without(balls, c1), |pbw|) && InRange(Without(balls, c2), |pbw|)
    ensures Signature(pbw, Without(balls, c1)) == Signature(pbw, Without(balls, c2))
  {
    RestProjection(pbw, balls, c1);
    RestProjection(pbw, balls, c2);
    SignatureEqIff(pbw, c1, c2);
    SignatureEqIff(pbw, Without(balls, c1), Without(balls, c2));
  }

  // ---------------------------------------------------------------------------
  // Deduplication by signature (`get_unique_signature_combinations`)

  /**
   * The dictionary's keys after some combinations, in insertion order, with
   * the enumeration position each key's entry came from. Keys are compared
   * only for equality, so the bookkeeping is stated for any key type.
   */
  datatype Table<K> = Table(keys: seq<K>, at: seq<nat>)

  /**
   * One loop iteration: a combination whose signature is a key is skipped;
   * with the rest considered, so is one whose rest's signature is a key;
   * otherwise its signature becomes a key.
   */
  function Admit<K(==)>(t: Table<K>, sig: K, restSig: K, considerRest: bool, pos: nat): Table<K>
  {
    if sig in t.keys then t
    else if considerRest && restSig in t.keys then t
    else Table(t.keys + [sig], t.at + [pos])
  }

  /** The table after combinations with the given signatures and rest signatures, in order. */
  function Dedup<K(==)>(sigs: seq<K>, restSigs: seq<K>, considerRest: bool): (t: Table<K>)
    requires |sigs| == |restSigs|
    ensures |t.keys| == |t.at|
    ensures forall i :: 0 <= i < |t.at| ==> t.at[i] < |sigs| && t.keys[i] == sigs[t.at[i]]
    decreases |sigs|
  {
    if sigs == [] then Table([], [])
    else
      var n := |sigs| - 1;
      Admit(Dedup(sigs[..n], restSigs[..n], considerRest), sigs[n], restSigs[n], considerRest, n)
  }

  predicate Increasing(at: seq<nat>) {
    forall i, j :: 0 <= i < j < |at| ==> at[i] < at[j]
  }

  predicate Distinct<K(==)>(keys: seq<K>) {
    forall i, j :: 0 <= i < j < |keys| ==> keys[i] != keys[j]
  }

  /** Entries are taken at increasing enumeration positions. */
  lemma {:induction false} DedupOrdered<K>(sigs: seq<K>, restSigs: seq<K>, considerRest: bool)
    requires |sigs| == |restSigs|
    ensures Increasing(Dedup(sigs, restSigs, considerRest).at)
    decreases |sigs|
  {
    if sigs != [] {
      var n := |sigs| - 1;
      DedupOrdered(sigs[..n], restSigs[..n], considerRest);
      var t0 := Dedup(sigs[..n], restSigs[..n], considerRest);
      var t := Dedup(sigs, restSigs, considerRest);
      if t != t0 {
        assert t.at == t0.at + [n];
        forall i, j | 0 <= i < j < |t.at| ensures t.at[i] < t.at[j] {
          if j == |t0.at| { assert t0.at[i] < n; }
        }
      }
    }
  }

  /** No signature is a key twice. */
  lemma {:induction false} DedupDistinct<K>(sigs: seq<K>, restSigs: seq<K>, considerRest: bool)
    requires |sigs| == |restSigs|
    ensures Distinct(Dedup(sigs, restSigs, considerRest).keys)
    decreases |sigs|
  {
    if sigs != [] {
      var n := |sigs| - 1;
      DedupDistinct(sigs[..n], restSigs[..n], considerRest);
      var t0 := Dedup(sigs[..n], restSigs[..n], considerRest);
      var t := Dedup(sigs, restSigs, considerRest);
      if t != t0 {
        assert t.keys == t0.keys + [sigs[n]] && sigs[n] !in t0.keys;
        forall i, j | 0 <= i < j < |t.keys| ensures t.keys[i] != t.keys[j] {
          if j == |t0.keys| { assert t.keys[i] == t0.keys[i]; }
        }
      }
    }
  }

  /** The first combination is always admitted, so a non-empty enumeration keeps at least one entry. */
  lemma {:induction false} DedupNonEmpty<K>(sigs: seq<K>, restSigs: seq<K>, considerRest: bool)
    requires |sigs| == |restSigs| && |sigs| > 0
    ensures |Dedup(sigs, restSigs, considerRest).keys| > 0
    decreases |sigs|
  {
    var n := |sigs| - 1;
    if n > 0 {
      DedupNonEmpty(sigs[..n], restSigs[..n], considerRest);
    }
  }

  /** Every combination is accounted for: its signature is a key, or (with rests) its rest's signature is. */
  lemma {:induction false} DedupCovers<K>(sigs: seq<K>, restSigs: seq<K>, considerRest: bool)
    requires |sigs| == |restSigs|
    ensures var t := Dedup(sigs, restSigs, considerRest);
      forall p :: 0 <= p < |sigs| ==> sigs[p] in t.keys || (considerRest && restSigs[p] in t.keys)
    decreases |sigs|
  {
    // the proof needs only the contracts of the calls, not the definition
    hide Dedup;
    if sigs != [] {
      var n := |sigs| - 1;
      DedupCovers(sigs[..n], restSigs[..n], considerRest);
      DedupLast(sigs, restSigs, considerRest);
      var t := Dedup(sigs, restSigs, considerRest);
      forall p | 0 <= p < n ensures sigs[p] in t.keys || (considerRest && restSigs[p] in t.keys) {
        assert sigs[..n][p] == sigs[p] && restSigs[..n][p] == restSigs[p];
      }
    }
  }

  /** The last combination keeps every earlier key and is itself accounted for. */
  lemma DedupLast<K>(sigs: seq<K>, restSigs: seq<K>, considerRest: bool)
    requires |sigs| == |restSigs| && sigs != []
    ensures var n := |sigs| - 1;
      var t0, t := Dedup(sigs[..n], restSigs[..n], considerRest), Dedup(sigs, restSigs, considerRest);
      (forall key :: key in t0.keys ==> key in t.keys)
      && (sigs[n] in t.keys || (considerRest && restSigs[n] in t.keys))
  {
  }

  /** Combinations with equal signatures have rests with equal signatures. */
  predicate RestsFollow<K(==)>(sigs: seq<K>, restSigs: seq<K>)
    requires |sigs| == |restSigs|
  {
    forall p, q :: 0 <= p < |sigs| && 0 <= q < |sigs| && sigs[p] == sigs[q] ==> restSigs[p] == restSigs[q]
  }

  /**
   * Each key's entry is the first combination in enumeration order with that
   * signature. Without rests this holds outright; with rests it needs rests to
   * follow signatures.
   */
  lemma {:induction false} DedupFirst<K>(sigs: seq<K>, restSigs: seq<K>, considerRest: bool)
    requires |sigs| == |restSigs|
    requires considerRest ==> RestsFollow(sigs, restSigs)
    ensures var t := Dedup(sigs, restSigs, considerRest);
      forall i, p :: 0 <= i < |t.keys| && 0 <= p < t.at[i] ==> sigs[p] != t.keys[i]
    decreases |sigs|
  {
    if sigs != [] {
      var n := |sigs| - 1;
      var s0, r0 := sigs[..n], restSigs[..n];
      assert considerRest ==> RestsFollow(s0, r0);
      DedupFirst(s0, r0, considerRest);
      DedupCovers(s0, r0, considerRest);
      var t0 := Dedup(s0, r0, considerRest);
      var t := Dedup(sigs, restSigs, considerRest);
      forall i, p | 0 <= i < |t.keys| && 0 <= p < t.at[i] ensures sigs[p] != t.keys[i] {
        assert s0[p] == sigs[p] && r0[p] == restSigs[p];
        if i == |t0.keys| {
          assert sigs[n] !in t0.keys && !(considerRest && restSigs[n] in t0.keys);
        }
      }
    }
  }

  // ---------------------------------------------------------------------------
  // The kept combinations

  /** A kept entry: the combination alone, or with its rest when the rest is considered. */
  datatype Pick = Plain(comb: seq<int>) | Split(comb: seq<int>, rest: seq<int>)

  predicate AllInRange(combs: seq<seq<int>>, nBalls: int) {
    forall i :: 0 <= i < |combs| ==> InRange(combs[i], nBalls)
  }

  lemma CombinationsInRange(balls: seq<int>, k: nat, nBalls: int)
    requires InRange(balls, nBalls)
    ensures AllInRange(Combinations(balls, k), nBalls)
  {
    CombinationsWithin(balls, k);
    forall i | 0 <= i < |Combinations(balls, k)| ensures InRange(Combinations(balls, k)[i], nBalls) {
      InRangeSub(balls, Combinations(balls, k)[i], nBalls);
    }
  }

  lemma WithoutAllInRange(balls: seq<int>, combs: seq<seq<int>>, nBalls: int)
    requires InRange(balls, nBalls)
    ensures forall p :: 0 <= p < |combs| ==> InRange(Without(balls, combs[p]), nBalls)
  {
    forall p | 0 <= p < |combs| ensures InRange(Without(balls, combs[p]), nBalls) {
      InRangeSub(balls, Without(balls, combs[p]), nBalls);
    }
  }

  function SignatureList(pbw: seq<seq<int>>, combs: seq<seq<int>>): (r: seq<seq<seq<int>>>)
    requires AllInRange(combs, |pbw|)
    ensures |r| == |combs| && forall p :: 0 <= p < |combs| ==> r[p] == Signature(pbw, combs[p])
  {
    seq(|combs|, p requires 0 <= p < |combs| => Signature(pbw, combs[p]))
  }

  function RestSignatures(pbw: seq<seq<int>>, balls: seq<int>, combs: seq<seq<int>>): (r: seq<seq<seq<int>>>)
    requires InRange(balls, |pbw|)
    ensures |r| == |combs|
    ensures forall p :: 0 <= p < |combs| ==> InRange(Without(balls, combs[p]), |pbw|) && r[p] == Signature(pbw, Without(balls, combs[p]))
  {
    WithoutAllInRange(balls, combs, |pbw|);
    seq(|combs|, p requires 0 <= p < |combs| =>
      var rest := Without(balls, combs[p]);
      InRangeSub(balls, rest, |pbw|);
      Signature(pbw, rest))
  }

  function Entry(balls: seq<int>, comb: seq<int>, considerRest: bool): Pick {
    if considerRest then Split(comb, Without(balls, comb)) else Plain(comb)
  }

  /** The kept entries for the given combinations, in insertion order. */
  function UniqueOf(pbw: seq<seq<int>>, balls: seq<int>, combs: seq<seq<int>>, considerRest: bool): (r: seq<Pick>)
    requires InRange(balls, |pbw|) && AllInRange(combs, |pbw|)
  {
    var t := Dedup(SignatureList(pbw, combs), RestSignatures(pbw, balls, combs), considerRest);
    seq(|t.at|, i requires 0 <= i < |t.at| => Entry(balls, combs[t.at[i]], considerRest))
  }

  /** `dict.values()`: the kept entries for the k-combinations of the balls, in insertion order. */
  function UniqueSignatureCombinations(pbw: seq<seq<int>>, balls: seq<int>, k: nat, considerRest: bool): (r: seq<Pick>)
    requires InRange(balls, |pbw|)
  {
    CombinationsInRange(balls, k, |pbw|);
    UniqueOf(pbw, balls, Combinations(balls, k), considerRest)
  }

  lemma UniqueOfPositions(pbw: seq<seq<int>>, balls: seq<int>, combs: seq<seq<int>>, considerRest: bool)
    requires InRange(balls, |pbw|) && AllInRange(combs, |pbw|)
    ensures var t := Dedup(SignatureList(pbw, combs), RestSignatures(pbw, balls, combs), considerRest);
      var r := UniqueOf(pbw, balls, combs, considerRest);
      |r| == |t.at| == |t.keys| && forall i :: 0 <= i < |r| ==>
        t.at[i] < |combs| && r[i] == Entry(balls, combs[t.at[i]], considerRest) && r[i].comb == combs[t.at[i]]
        && t.keys[i] == Signature(pbw, combs[t.at[i]])
  {
  }

  /** Each entry is one of the combinations, with its rest exactly when rests are considered; enumeration order is kept. */
  lemma UniqueOfShape(pbw: seq<seq<int>>, balls: seq<int>, combs: seq<seq<int>>, considerRest: bool)
    requires InRange(balls, |pbw|) && AllInRange(combs, |pbw|)
    ensures var r := UniqueOf(pbw, balls, combs, considerRest);
      && (forall i :: 0 <= i < |r| ==>
           r[i].comb in combs && r[i].Split? == considerRest && (considerRest ==> r[i].rest == Without(balls, r[i].comb)))
      && ((forall p, q :: 0 <= p < q < |combs| ==> LexLess(combs[p], combs[q])) ==>
           forall i, j :: 0 <= i < j < |r| ==> LexLess(r[i].comb, r[j].comb))
  {
    UniqueOfPositions(pbw, balls, combs, considerRest);
    DedupOrdered(SignatureList(pbw, combs), RestSignatures(pbw, balls, combs), considerRest);
  }

  /** The entries have pairwise distinct signatures. */
  lemma UniqueOfDistinct(pbw: seq<seq<int>>, balls: seq<int>, combs: seq<seq<int>>, considerRest: bool)
    requires InRange(balls, |pbw|) && AllInRange(combs, |pbw|)
    ensures var r := UniqueOf(pbw, balls, combs, considerRest);
      forall i, j :: 0 <= i < j < |r| ==>
        r[i].comb in combs && r[j].comb in combs && Signature(pbw, r[i].comb) != Signature(pbw, r[j].comb)
  {
    UniqueOfPositions(pbw, balls, combs, considerRest);
    DedupDistinct(SignatureList(pbw, combs), RestSignatures(pbw, balls, combs), considerRest);
  }

  /** No combination before position q has the signature of the one at q. */
  predicate FirstOfSignature(pbw: seq<seq<int>>, combs: seq<seq<int>>, q: int)
    requires AllInRange(combs, |pbw|)
  {
    0 <= q < |combs| && forall p :: 0 <= p < q ==> Signature(pbw, combs[p]) != Signature(pbw, combs[q])
  }

  /** Each entry's combination is, in the enumeration, the first with its signature. */
  predicate EntriesFirst(pbw: seq<seq<int>>, combs: seq<seq<int>>, r: seq<Pick>)
    requires AllInRange(combs, |pbw|)
  {
    forall i :: 0 <= i < |r| ==> FirstInEnumeration(pbw, combs, r[i].comb)
  }

  /** Some position of the enumeration holds e and is the first with its signature. */
  predicate FirstInEnumeration(pbw: seq<seq<int>>, combs: seq<seq<int>>, e: seq<int>)
    requires AllInRange(combs, |pbw|)
  {
    exists q :: 0 <= q < |combs| && FirstOfSignature(pbw, combs, q) && combs[q] == e
  }

  /** Each entry is the first combination with its signature. */
  lemma UniqueOfFirst(pbw: seq<seq<int>>, balls: seq<int>, combs: seq<seq<int>>, considerRest: bool)
    requires InRange(balls, |pbw|) && AllInRange(combs, |pbw|)
    requires considerRest ==> RestsFollow(SignatureList(pbw, combs), RestSignatures(pbw, balls, combs))
    ensures EntriesFirst(pbw, combs, UniqueOf(pbw, balls, combs, considerRest))
  {
    var sigs, rests := SignatureList(pbw, combs), RestSignatures(pbw, balls, combs);
    var t := Dedup(sigs, rests, considerRest);
    var r := UniqueOf(pbw, balls, combs, considerRest);
    UniqueOfPositions(pbw, balls, combs, considerRest);
    DedupFirst(sigs, rests, considerRest);
    forall i | 0 <= i < |r| ensures FirstInEnumeration(pbw, combs, r[i].comb) {
      var q := t.at[i];
      forall p | 0 <= p < q ensures Signature(pbw, combs[p]) != Signature(pbw, combs[q]) {
        assert sigs[p] != t.keys[i];
      }
      assert FirstOfSignature(pbw, combs, q) && combs[q] == r[i].comb;
    }
  }

  /** The entry combination e stands for c: they share a signature, or (with rests considered) c's rest has e's signature. */
  predicate StandsFor(pbw: seq<seq<int>>, balls: seq<int>, c: seq<int>, e: seq<int>, considerRest: bool)
    requires InRange(balls, |pbw|) && InRange(c, |pbw|) && InRange(e, |pbw|)
  {
    var rest := Without(balls, c);
    InRangeSub(balls, rest, |pbw|);
    Signature(pbw, c) == Signature(pbw, e) || (considerRest && Signature(pbw, rest) == Signature(pbw, e))
  }

  /** Every combination has an entry among r that stands for it. */
  predicate Covered(pbw: seq<seq<int>>, balls: seq<int>, combs: seq<seq<int>>, r: seq<Pick>, considerRest: bool)
    requires InRange(balls, |pbw|) && AllInRange(combs, |pbw|)
  {
    forall p :: 0 <= p < |combs| ==> CoveredAt(pbw, balls, combs, r, considerRest, p)
  }

  /** The combination at position p has an entry among r that stands for it. */
  predicate CoveredAt(pbw: seq<seq<int>>, balls: seq<int>, combs: seq<seq<int>>, r: seq<Pick>, considerRest: bool, p: int)
    requires InRange(balls, |pbw|) && AllInRange(combs, |pbw|) && 0 <= p < |combs|
  {
    exists i :: 0 <= i < |r| && InRange(r[i].comb, |pbw|) && r[i].comb in combs
                && StandsFor(pbw, balls, combs[p], r[i].comb, considerRest)
  }

  lemma UniqueOfCoverAt(pbw: seq<seq<int>>, balls: seq<int>, combs: seq<seq<int>>, considerRest: bool, p: int)
    requires InRange(balls, |pbw|) && AllInRange(combs, |pbw|) && 0 <= p < |combs|
    ensures CoveredAt(pbw, balls, combs, UniqueOf(pbw, balls, combs, considerRest), considerRest, p)
  {
    var sigs, rests := SignatureList(pbw, combs), RestSignatures(pbw, balls, combs);
    var t := Dedup(sigs, rests, considerRest);
    var r := UniqueOf(pbw, balls, combs, considerRest);
    DedupCovers(sigs, rests, considerRest);
    var key := if sigs[p] in t.keys then sigs[p] else rests[p];
    assert key in t.keys;
    var i :| 0 <= i < |t.keys| && t.keys[i] == key;
    UniqueOfPositions(pbw, balls, combs, considerRest);
    var e := combs[t.at[i]];
    assert r[i].comb == e && e in combs && InRange(e, |pbw|);
    assert StandsFor(pbw, balls, combs[p], e, considerRest);
  }

  /** Every combination shares its signature, or (with rests) its rest's signature, with an entry. */
  lemma UniqueOfCover(pbw: seq<seq<int>>, balls: seq<int>, combs: seq<seq<int>>, considerRest: bool)
    requires InRange(balls, |pbw|) && AllInRange(combs, |pbw|)
    ensures Covered(pbw, balls, combs, UniqueOf(pbw, balls, combs, considerRest), considerRest)
  {
    forall p | 0 <= p < |combs| ensures CoveredAt(pbw, balls, combs, UniqueOf(pbw, balls, combs, considerRest), considerRest, p) {
      UniqueOfCoverAt(pbw, balls, combs, considerRest, p);
    }
  }

  /** A combination and its rest split the list: every ball is in exactly one of them, the rest in increasing order. */
  lemma SplitPartition(balls: seq<int>, comb: seq<int>)
    requires StrictlyIncreasing(balls) && StrictlyIncreasing(comb)
    requires forall x :: x in comb ==> x in balls
    ensures StrictlyIncreasing(Without(balls, comb))
    ensures forall x :: x in balls <==> x in comb || x in Without(balls, comb)
    ensures forall x :: x in comb ==> x !in Without(balls, comb)
    ensures |comb| + |Without(balls, comb)| == |balls|
  {
    WithoutSplit(balls, comb);
    WithoutIncreasing(balls, comb);
    assert |multiset(Without(balls, comb)) + multiset(comb)| == |multiset(balls)|;
  }

  /** Every k-combination of an increasing list is an increasing k-element selection from it. */
  lemma CombinationsSoundAll(balls: seq<int>, k: nat)
    requires StrictlyIncreasing(balls)
    ensures forall c :: c in Combinations(balls, k) ==>
      |c| == k && StrictlyIncreasing(c) && forall x :: x in c ==> x in balls
  {
    forall c | c in Combinations(balls, k) ensures |c| == k && StrictlyIncreasing(c) && forall x :: x in c ==> x in balls {
      CombinationsSound(balls, k, c);
    }
  }

  /**
   * The kept entries are k-combinations of the balls in enumeration
   * (lexicographic) order; with rests considered, each carries the balls it
   * leaves over, and otherwise none.
   */
  lemma UniqueCombinationsShape(pbw: seq<seq<int>>, balls: seq<int>, k: nat, considerRest: bool)
    requires InRange(balls, |pbw|) && StrictlyIncreasing(balls)
    ensures var r := UniqueSignatureCombinations(pbw, balls, k, considerRest);
      && (forall i :: 0 <= i < |r| ==>
           && |r[i].comb| == k && StrictlyIncreasing(r[i].comb) && (forall x :: x in r[i].comb ==> x in balls)
           && r[i].Split? == considerRest
           && (considerRest ==> r[i].rest == Without(balls, r[i].comb)))
      && (forall i, j :: 0 <= i < j < |r| ==> LexLess(r[i].comb, r[j].comb))
  {
    CombinationsInRange(balls, k, |pbw|);
    CombinationsSoundAll(balls, k);
    CombinationsLexOrdered(balls, k);
    UniqueOfShape(pbw, balls, Combinations(balls, k), considerRest);
  }

  /** The kept combinations have pairwise distinct signatures. */
  lemma UniqueCombinationsDistinct(pbw: seq<seq<int>>, balls: seq<int>, k: nat, considerRest: bool)
    requires InRange(balls, |pbw|)
    ensures AllInRange(Combinations(balls, k), |pbw|)
    ensures var r := UniqueSignatureCombinations(pbw, balls, k, considerRest);
      forall i, j :: 0 <= i < j < |r| ==>
        r[i].comb in Combinations(balls, k) && r[j].comb in Combinations(balls, k)
        && Signature(pbw, r[i].comb) != Signature(pbw, r[j].comb)
  {
    CombinationsInRange(balls, k, |pbw|);
    UniqueOfDistinct(pbw, balls, Combinations(balls, k), considerRest);
  }

  /** Equal signatures among the k-combinations of distinct balls mean equal rest signatures. */
  lemma CombinationRestsFollow(pbw: seq<seq<int>>, balls: seq<int>, k: nat)
    requires InRange(balls, |pbw|) && StrictlyIncreasing(balls)
    ensures AllInRange(Combinations(balls, k), |pbw|)
    ensures RestsFollow(SignatureList(pbw, Combinations(balls, k)), RestSignatures(pbw, balls, Combinations(balls, k)))
  {
    var combs := Combinations(balls, k);
    CombinationsInRange(balls, k, |pbw|);
    CombinationsSoundAll(balls, k);
    var sigs, rests := SignatureList(pbw, combs), RestSignatures(pbw, balls, combs);
    forall p, q | 0 <= p < |sigs| && 0 <= q < |sigs| && sigs[p] == sigs[q] ensures rests[p] == rests[q] {
      assert combs[p] in combs && combs[q] in combs;
      RestDetermined(pbw, balls, combs[p], combs[q]);
    }
  }

  /**
   * Each kept combination is the first in enumeration order with its
   * signature; with rests considered this relies on the balls being distinct.
   */
  lemma UniqueCombinationsFirst(pbw: seq<seq<int>>, balls: seq<int>, k: nat, considerRest: bool)
    requires InRange(balls, |pbw|) && StrictlyIncreasing(balls)
    ensures AllInRange(Combinations(balls, k), |pbw|)
    ensures EntriesFirst(pbw, Combinations(balls, k), UniqueSignatureCombinations(pbw, balls, k, considerRest))
  {
    CombinationRestsFollow(pbw, balls, k);
    assert UniqueSignatureCombinations(pbw, balls, k, considerRest) == UniqueOf(pbw, balls, Combinations(balls, k), considerRest);
    UniqueOfFirst(pbw, balls, Combinations(balls, k), considerRest);
  }

  /**
   * Nothing is lost: every k-combination shares its signature with a kept
   * one, or (with rests considered) its rest's signature is a kept one's.
   */
  lemma UniqueCombinationsCover(pbw: seq<seq<int>>, balls: seq<int>, k: nat, considerRest: bool)
    requires InRange(balls, |pbw|)
    ensures AllInRange(Combinations(balls, k), |pbw|)
    ensures Covered(pbw, balls, Combinations(balls, k), UniqueSignatureCombinations(pbw, balls, k, considerRest), considerRest)
  {
    CombinationsInRange(balls, k, |pbw|);
    assert UniqueSignatureCombinations(pbw, balls, k, considerRest) == UniqueOf(pbw, balls, Combinations(balls, k), considerRest);
    UniqueOfCover(pbw, balls, Combinations(balls, k), considerRest);
  }

  /** At least one entry is kept whenever there is a k-combination at all. */
  lemma UniqueCombinationsNonEmpty(pbw: seq<seq<int>>, balls: seq<int>, k: nat, considerRest: bool)
    requires InRange(balls, |pbw|) && k <= |balls|
    ensures |UniqueSignatureCombinations(pbw, balls, k, considerRest)| > 0
  {
    var combs := Combinations(balls, k);
    CombinationsFirst(balls, k);
    CombinationsInRange(balls, k, |pbw|);
    DedupNonEmpty(SignatureList(pbw, combs), RestSignatures(pbw, balls, combs), considerRest);
    UniqueOfPositions(pbw, balls, combs, considerRest);
  }
}
