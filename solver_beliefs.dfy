/**
 * What the solver believes: the universe of one-anomaly weight vectors, the
 * filtering of that list by an observed weighing, the compact
 * (index, direction) form of a vector, and the per-ball sets of weights that
 * are still possible.
 */
module Beliefs {
  import opened Outcomes
  import opened Ordering
  import opened GameRules

  /** A weighing: the balls on the left plate and on the right plate. */
  datatype Weighing = Weighing(left: seq<int>, right: seq<int>)

  /** Every weight vector has one weight per ball. */
  predicate Shaped(sols: seq<seq<int>>, nBalls: int) {
    forall j :: 0 <= j < |sols| ==> |sols[j]| == nBalls
  }

  predicate Fits(w: Weighing, nBalls: int) {
    InRange(w.left, nBalls) && InRange(w.right, nBalls)
  }

  /** The weighing can be applied to every vector of the list. */
  predicate Applicable(sols: seq<seq<int>>, w: Weighing) {
    forall j :: 0 <= j < |sols| ==> Fits(w, |sols[j]|)
  }

  lemma ShapedApplicable(sols: seq<seq<int>>, nBalls: int, w: Weighing)
    requires Shaped(sols, nBalls) && Fits(w, nBalls)
    ensures Applicable(sols, w)
  {
  }

  // ---------------------------------------------------------------------------
  // The universe and the compact form

  /** Every ball with every allowed direction, ball-major, as full weight vectors. */
  function Universe(rules: Rules): (u: seq<seq<int>>)
    ensures |u| == rules.nBalls * |rules.anomalyChoices|
    ensures Shaped(u, rules.nBalls)
  {
    var k := |rules.anomalyChoices|;
    seq(rules.nBalls * k, j requires 0 <= j < rules.nBalls * k => Assignment(rules.nBalls, j / k, rules.anomalyChoices[j % k]))
  }

  /** The position of the first weight that is not NORMAL, if any. */
  function FirstAbnormal(s: seq<int>): (r: Option<nat>)
    ensures r.None? <==> forall b :: 0 <= b < |s| ==> s[b] == NORMAL
    ensures r.Some? ==> r.value < |s| && s[r.value] != NORMAL && forall b :: 0 <= b < r.value ==> s[b] == NORMAL
    decreases |s|
  {
    if s == [] then None
    else if s[0] != NORMAL then Some(0)
    else
      match FirstAbnormal(s[1..])
      case None => None
      case Some(i) => Some(i + 1)
  }

  /** The (index, weight) of the first non-NORMAL ball; an all-NORMAL vector has none (Python raises). */
  function CompactSolution(s: seq<int>): (r: Option<(int, int)>)
    ensures r.None? <==> forall b :: 0 <= b < |s| ==> s[b] == NORMAL
    ensures r.Some? ==> 0 <= r.value.0 < |s| && s[r.value.0] == r.value.1 != NORMAL
    ensures r.Some? ==> forall b :: 0 <= b < r.value.0 ==> s[b] == NORMAL
  {
    match FirstAbnormal(s)
    case None => None
    case Some(i) => Some((i, s[i]))
  }

  /** Compacting the vector of a choice gives the choice back. */
  lemma CompactOfAssignment(nBalls: nat, anomalyIndex: int, anomaly: int)
    requires 0 <= anomalyIndex < nBalls && anomaly != NORMAL
    ensures CompactSolution(Assignment(nBalls, anomalyIndex, anomaly)) == Some((anomalyIndex, anomaly))
  {
    var s := Assignment(nBalls, anomalyIndex, anomaly);
    assert s[anomalyIndex] == anomaly;
  }

  /**
   * The universe lists, at position j, the vector of the j-th (ball, direction)
   * choice; so it holds exactly the vectors of allowed choices, each once.
   */
  lemma UniverseSpec(rules: Rules)
    ensures forall j :: 0 <= j < |Universe(rules)| ==>
      j < |AllPossibleChoices(rules)|
      && Universe(rules)[j] == Assignment(rules.nBalls, AllPossibleChoices(rules)[j].0, AllPossibleChoices(rules)[j].1)
      && CompactSolution(Universe(rules)[j]) == Some(AllPossibleChoices(rules)[j])
    ensures forall i, a :: 0 <= i < rules.nBalls && a in rules.anomalyChoices ==> Assignment(rules.nBalls, i, a) in Universe(rules)
    ensures forall i, j :: 0 <= i < j < |Universe(rules)| ==> Universe(rules)[i] != Universe(rules)[j]
  {
    var u, c := Universe(rules), AllPossibleChoices(rules);
    AllPossibleChoicesSpec(rules);
    forall j | 0 <= j < |u|
      ensures u[j] == Assignment(rules.nBalls, c[j].0, c[j].1) && CompactSolution(u[j]) == Some(c[j])
    {
      assert c[j].1 == LIGHTER || c[j].1 == HEAVIER;
      CompactOfAssignment(rules.nBalls, c[j].0, c[j].1);
    }
    forall i, a | 0 <= i < rules.nBalls && a in rules.anomalyChoices ensures Assignment(rules.nBalls, i, a) in u {
      var j :| 0 <= j < |c| && c[j] == (i, a);
      assert u[j] == Assignment(rules.nBalls, i, a);
    }
    forall i, j | 0 <= i < j < |u| ensures u[i] != u[j] {
      assert CompactSolution(u[i]) != CompactSolution(u[j]);
    }
  }

  /**
   * The oracle accepts a lighter or heavier secret whatever the rule set says;
   * the solver's universe holds the secret's vector exactly when its direction
   * is one of the rule set's.
   */
  lemma SecretInUniverseIff(rules: Rules, anomalyIndex: int, anomaly: int)
    requires 0 <= anomalyIndex < rules.nBalls && (anomaly == LIGHTER || anomaly == HEAVIER)
    ensures Assignment(rules.nBalls, anomalyIndex, anomaly) in Universe(rules) <==> anomaly in rules.anomalyChoices
  {
    UniverseSpec(rules);
    var u := Universe(rules);
    if Assignment(rules.nBalls, anomalyIndex, anomaly) in u {
      var j :| 0 <= j < |u| && u[j] == Assignment(rules.nBalls, anomalyIndex, anomaly);
      CompactOfAssignment(rules.nBalls, anomalyIndex, anomaly);
      assert AllPossibleChoices(rules)[j] == (anomalyIndex, anomaly);
    }
  }

  // ---------------------------------------------------------------------------
  // Keeping the vectors that agree with an observation

  function Outcome(s: seq<int>, w: Weighing): int
    requires Fits(w, |s|)
  {
    TellHeavierPlate(s, w.left, w.right)
  }

  /** The vectors, in their order, on which the weighing gives the observed result. */
  function Filter(sols: seq<seq<int>>, w: Weighing, result: int): (r: seq<seq<int>>)
    requires Applicable(sols, w)
    decreases |sols|
  {
    if sols == [] then []
    else (if Outcome(sols[0], w) == result then [sols[0]] else []) + Filter(sols[1..], w, result)
  }

  /** `a` is `b` with some elements removed, the rest in their order. */
  predicate IsSubsequence<T(==)>(a: seq<T>, b: seq<T>)
    decreases |b|
  {
    a == [] || (b != [] && ((a[0] == b[0] && IsSubsequence(a[1..], b[1..])) || IsSubsequence(a, b[1..])))
  }

  lemma {:induction false} SubsequenceFacts<T>(a: seq<T>, b: seq<T>)
    requires IsSubsequence(a, b)
    ensures |a| <= |b|
    ensures forall x :: x in a ==> x in b
    decreases |b|
  {
    if a != [] {
      if a[0] == b[0] && IsSubsequence(a[1..], b[1..]) {
        SubsequenceFacts(a[1..], b[1..]);
        assert forall x :: x in a ==> x == a[0] || x in a[1..];
      } else {
        SubsequenceFacts(a, b[1..]);
      }
    }
  }

  lemma {:induction false} SubsequenceTransitive<T>(a: seq<T>, b: seq<T>, c: seq<T>)
    requires IsSubsequence(a, b) && IsSubsequence(b, c)
    ensures IsSubsequence(a, c)
    decreases |c|
  {
    if a != [] {
      if IsSubsequence(b, c[1..]) {
        SubsequenceTransitive(a, b, c[1..]);
      } else if a[0] == b[0] && IsSubsequence(a[1..], b[1..]) {
        SubsequenceTransitive(a[1..], b[1..], c[1..]);
      } else {
        SubsequenceTransitive(a, b[1..], c[1..]);
      }
    }
  }

  /**
   * Filtering keeps exactly the vectors on which the weighing gives the
   * result, in their order: a subsequence, never longer.
   */
  lemma {:induction false} FilterSpec(sols: seq<seq<int>>, w: Weighing, result: int)
    requires Applicable(sols, w)
    ensures IsSubsequence(Filter(sols, w, result), sols)
    ensures |Filter(sols, w, result)| <= |sols|
    ensures forall j :: 0 <= j < |sols| && Outcome(sols[j], w) == result ==> sols[j] in Filter(sols, w, result)
    ensures forall j :: 0 <= j < |Filter(sols, w, result)| ==>
      Filter(sols, w, result)[j] in sols && Fits(w, |Filter(sols, w, result)[j]|)
      && Outcome(Filter(sols, w, result)[j], w) == result
    decreases |sols|
  {
    if sols != [] {
      var tail := sols[1..];
      FilterSpec(tail, w, result);
      var r := Filter(sols, w, result);
      var rt := Filter(tail, w, result);
      if Outcome(sols[0], w) == result {
        assert r == [sols[0]] + rt;
        assert r[1..] == rt;
      } else {
        assert r == rt;
      }
      forall j | 0 <= j < |sols| && Outcome(sols[j], w) == result ensures sols[j] in r {
        if j > 0 { assert sols[j] == tail[j - 1]; }
      }
      forall j | 0 <= j < |r| ensures r[j] in sols && Fits(w, |r[j]|) && Outcome(r[j], w) == result {
        if r != rt && j > 0 { assert r[j] == rt[j - 1]; }
      }
      SubsequenceFacts(r, sols);
    }
  }

  /** Soundness: the true vector survives a truthful observation. */
  lemma TruthSurvives(sols: seq<seq<int>>, w: Weighing, truth: seq<int>)
    requires Applicable(sols, w) && truth in sols
    ensures Fits(w, |truth|)
    ensures truth in Filter(sols, w, Outcome(truth, w))
  {
    FilterSpec(sols, w, Outcome(truth, w));
  }

  /** The three possible results split the list: the kept parts' sizes add up to the whole. */
  lemma {:induction false} FilterPartition(sols: seq<seq<int>>, w: Weighing)
    requires Applicable(sols, w)
    ensures |Filter(sols, w, LEFT)| + |Filter(sols, w, EQUAL)| + |Filter(sols, w, RIGHT)| == |sols|
    decreases |sols|
  {
    if sols != [] {
      FilterPartition(sols[1..], w);
    }
  }

  /** Observations applied one after the other. */
  function Replay(sols: seq<seq<int>>, ws: seq<Weighing>, results: seq<int>, nBalls: int): (r: seq<seq<int>>)
    requires Shaped(sols, nBalls) && |ws| == |results|
    requires forall i :: 0 <= i < |ws| ==> Fits(ws[i], nBalls)
    ensures Shaped(r, nBalls) && IsSubsequence(r, sols)
    decreases |ws|
  {
    if ws == [] then
      assert IsSubsequence(sols, sols) by { SubsequenceReflexive(sols); }
      sols
    else
      var next := Filter(sols, ws[0], results[0]);
      FilterSpec(sols, ws[0], results[0]);
      SubsequenceFacts(next, sols);
      var r := Replay(next, ws[1..], results[1..], nBalls);
      SubsequenceTransitive(r, next, sols);
      r
  }

  lemma {:induction false} SubsequenceReflexive<T>(a: seq<T>)
    ensures IsSubsequence(a, a)
    decreases |a|
  {
    if a != [] {
      SubsequenceReflexive(a[1..]);
    }
  }

  /** Soundness over a whole game: a vector every observation agrees with is never discarded. */
  lemma {:induction false} ReplayKeepsTruth(sols: seq<seq<int>>, ws: seq<Weighing>, results: seq<int>, nBalls: int, truth: seq<int>)
    requires Shaped(sols, nBalls) && |ws| == |results|
    requires forall i :: 0 <= i < |ws| ==> Fits(ws[i], nBalls)
    requires truth in sols && |truth| == nBalls
    requires forall i :: 0 <= i < |ws| ==> results[i] == Outcome(truth, ws[i])
    ensures truth in Replay(sols, ws, results, nBalls)
    decreases |ws|
  {
    if ws != [] {
      TruthSurvives(sols, ws[0], truth);
      var next := Filter(sols, ws[0], results[0]);
      FilterSpec(sols, ws[0], results[0]);
      assert Shaped(next, nBalls);
      ReplayKeepsTruth(next, ws[1..], results[1..], nBalls, truth);
    }
  }

  // ---------------------------------------------------------------------------
  // Per-ball possible weights

  /** The weight of ball b in each vector, in list order. */
  function Column(sols: seq<seq<int>>, nBalls: int, b: int): (c: seq<int>)
    requires Shaped(sols, nBalls) && 0 <= b < nBalls
    ensures |c| == |sols|
    ensures forall j :: 0 <= j < |sols| ==> c[j] == sols[j][b]
    decreases |sols|
  {
    if sols == [] then [] else Column(sols[..|sols| - 1], nBalls, b) + [sols[|sols| - 1][b]]
  }

  /** For each ball, the sorted distinct weights it has in the remaining vectors. */
  function BallSignatures(sols: seq<seq<int>>, nBalls: nat): (r: seq<seq<int>>)
    requires Shaped(sols, nBalls)
    ensures |r| == nBalls
  {
    seq(nBalls, b requires 0 <= b < nBalls => SortedElements(Column(sols, nBalls, b)))
  }

  /** Ball b's entry is strictly increasing and holds a weight iff some remaining vector gives b that weight. */
  lemma BallSignaturesSpec(sols: seq<seq<int>>, nBalls: nat)
    requires Shaped(sols, nBalls)
    ensures forall b :: 0 <= b < nBalls ==> StrictlyIncreasing(BallSignatures(sols, nBalls)[b])
    ensures forall b, x :: 0 <= b < nBalls ==>
      (x in BallSignatures(sols, nBalls)[b] <==> exists j :: 0 <= j < |sols| && sols[j][b] == x)
  {
    forall b, x | 0 <= b < nBalls
      ensures x in BallSignatures(sols, nBalls)[b] <==> exists j :: 0 <= j < |sols| && sols[j][b] == x
    {
      var c := Column(sols, nBalls, b);
      assert BallSignatures(sols, nBalls)[b] == SortedElements(c);
      if x in c {
        var j :| 0 <= j < |c| && c[j] == x;
        assert sols[j][b] == x;
      }
      if exists j :: 0 <= j < |sols| && sols[j][b] == x {
        var j :| 0 <= j < |sols| && sols[j][b] == x;
        assert c[j] == x;
      }
    }
  }
}
