/**
 * The solver: it keeps the weight vectors that agree with every observation
 * so far and, for each ball, the weights it can still have; it enumerates the
 * candidate weighings, ranks each by how it would split the remaining
 * vectors, chooses the first best one, and finally guesses a remaining vector.
 */
module GameSolver {
  import opened Outcomes
  import opened Ordering
  import opened Itertools
  import opened GameRules
  import opened Beliefs
  import opened Signatures
  import opened Candidates
  import opened Ranking

  /** Every candidate can be weighed against every remaining vector. */
  predicate AllApplicable(sols: seq<seq<int>>, cands: seq<Weighing>) {
    forall j :: 0 <= j < |cands| ==> Applicable(sols, cands[j])
  }

  /**
   * Candidate i is what the search keeps: no candidate ranks strictly
   * better, and every earlier candidate ranks strictly worse.
   */
  predicate FirstBest(sols: seq<seq<int>>, cands: seq<Weighing>, i: int) {
    && 0 <= i < |cands|
    && AllApplicable(sols, cands)
    && (forall j :: 0 <= j < |cands| ==> !RankLess(RankOf(sols, cands[j]), RankOf(sols, cands[i])))
    && (forall j :: 0 <= j < i ==> RankLess(RankOf(sols, cands[i]), RankOf(sols, cands[j])))
  }

  class Solver {
    const rules: Rules
    const nBalls: nat
    /** `tuple(range(n_balls))` */
    const balls: seq<int>
    /** The weight vectors that agree with every observation so far. */
    var possibleSolutions: seq<seq<int>>
    /** For each ball, the sorted weights it still has in some remaining vector. */
    var possibleBallWeights: seq<seq<int>>

    /**
     * The remaining vectors are the universe with some vectors removed, and
     * the per-ball weights are those of the remaining vectors.
     */
    ghost predicate Valid()
      reads this
    {
      && nBalls == rules.nBalls
      && balls == Range(0, nBalls)
      && Shaped(possibleSolutions, nBalls)
      && IsSubsequence(possibleSolutions, Universe(rules))
      && possibleBallWeights == BallSignatures(possibleSolutions, nBalls)
    }

    /** What the enumeration needs: the balls of the game, each with its entry of per-ball weights. */
    predicate Indexed()
      reads this
    {
      balls == Range(0, nBalls) && |possibleBallWeights| == nBalls
    }

    /** What a valid state gives the enumeration and the ranking. */
    lemma ValidShape()
      requires Valid()
      ensures Indexed() && |possibleBallWeights| == nBalls
      ensures Shaped(possibleSolutions, nBalls)
    {
    }

    lemma IndexedShape()
      requires Indexed()
      ensures balls == Range(0, nBalls) && |possibleBallWeights| == nBalls
    {
    }

    /** Starts from every (ball, direction) choice the rules allow. */
    constructor (rules: Rules)
      ensures Valid()
      ensures this.rules == rules
      ensures possibleSolutions == Universe(rules)
    {
      this.rules := rules;
      this.nBalls := rules.nBalls;
      this.balls := Range(0, rules.nBalls);
      this.possibleSolutions := Universe(rules);
      new;
      SubsequenceReflexive(possibleSolutions);
      RecalcPossibleBallWeights();
    }

    /**
     * Rebuilds the per-ball weights: every remaining vector adds each
     * ball's weight to that ball's set (a sorted list without repeats).
     */
    method RecalcPossibleBallWeights()
      requires Shaped(possibleSolutions, nBalls)
      modifies this`possibleBallWeights
      ensures possibleBallWeights == BallSignatures(possibleSolutions, nBalls)
    {
      var sols := possibleSolutions;
      var weights: seq<seq<int>> := seq(nBalls, _ => []);
      for j := 0 to |sols|
        invariant |weights| == nBalls
        invariant forall b :: 0 <= b < nBalls ==> weights[b] == SortedElements(Column(sols[..j], nBalls, b))
      {
        for b := 0 to nBalls
          invariant |weights| == nBalls
          invariant forall c :: 0 <= c < b ==> weights[c] == SortedElements(Column(sols[..j + 1], nBalls, c))
          invariant forall c :: b <= c < nBalls ==> weights[c] == SortedElements(Column(sols[..j], nBalls, c))
        {
          ColumnSnoc(sols, nBalls, b, j);
          SortedElementsSnoc(Column(sols[..j], nBalls, b), sols[j][b]);
          weights := weights[b := InsertDistinct(sols[j][b], weights[b])];
        }
      }
      assert sols[..|sols|] == sols;
      possibleBallWeights := weights;
    }

    /** Keeps the vectors on which the weighing gives the observed result. */
    method AssessWeighing(left: seq<int>, right: seq<int>, heavierPlate: int)
      requires Valid() && Fits(Weighing(left, right), nBalls)
      modifies this`possibleSolutions, this`possibleBallWeights
      ensures Valid()
      ensures possibleSolutions == Filter(old(possibleSolutions), Weighing(left, right), heavierPlate)
    {
      var w := Weighing(left, right);
      ShapedApplicable(possibleSolutions, nBalls, w);
      FilterSpec(possibleSolutions, w, heavierPlate);
      SubsequenceTransitive(Filter(possibleSolutions, w, heavierPlate), possibleSolutions, Universe(rules));
      possibleSolutions := Filter(possibleSolutions, w, heavierPlate);
      RecalcPossibleBallWeights();
    }

    /**
     * The rank of a weighing: the result counts over the remaining vectors,
     * largest first and padded with zeros to three, then the plate size.
     */
    method RankWeighing(left: seq<int>, right: seq<int>) returns (rank: Rank)
      requires Valid() && Fits(Weighing(left, right), nBalls)
      ensures rank == RankOf(possibleSolutions, Weighing(left, right))
    {
      // the proof needs only the contracts of the calls, not the definitions
      hide *;
      var w := Weighing(left, right);
      var sols := possibleSolutions;
      ValidShape();
      ShapedApplicable(sols, nBalls, w);
      FrequenciesStart(sols, w);
      var keys: seq<int>, counts: seq<int> := [], [];
      for j := 0 to |sols|
        invariant Applicable(sols[..j], w)
        invariant Tally(keys, counts) == Frequencies(sols[..j], w)
      {
        FrequenciesSnoc(sols, w, j);
        CountCases(Tally(keys, counts), Outcome(sols[j], w));
        var result := GameRules.TellHeavierPlate(sols[j], left, right);
        if result in keys {
          var i := IndexOf(keys, result);
          counts := counts[i := counts[i] + 1];
        } else {
          keys, counts := keys + [result], counts + [1];
        }
      }
      assert sols[..|sols|] == sols;
      RankOfPadded(sols, w);
      var descending := SortDescending(counts);
      if |descending| < 3 {
        descending := descending + Zeros(3 - |descending|);
      }
      rank := Rank(descending, |left|);
    }

    /**
     * One entry per signature among the combinations of `nChoose` balls, the
     * first in enumeration order; with the rest considered, a combination is
     * also skipped when its rest's signature is already a key, and an entry
     * carries its rest.
     */
    method GetUniqueSignatureCombinations(balls: seq<int>, nChoose: nat, considerRest: bool) returns (r: seq<Pick>)
      requires InRange(balls, |possibleBallWeights|)
      ensures r == UniqueSignatureCombinations(possibleBallWeights, balls, nChoose, considerRest)
    {
      var pbw := possibleBallWeights;
      var combs := Combinations(balls, nChoose);
      CombinationsInRange(balls, nChoose, |pbw|);
      ghost var sigs, rests := SignatureList(pbw, combs), RestSignatures(pbw, balls, combs);
      var keys: seq<seq<seq<int>>> := [];
      r := [];
      for p := 0 to |combs|
        invariant DedupState(balls, combs, considerRest, Dedup(sigs[..p], rests[..p], considerRest), keys, r)
      {
        var combination := combs[p];
        var signature := Signature(pbw, combination);
        ghost var t := Dedup(sigs[..p], rests[..p], considerRest);
        DedupSnoc(sigs, rests, considerRest, p);
        if signature in keys {
          continue;
        }
        var entry := Plain(combination);
        if considerRest {
          var rest := Without(balls, combination);
          InRangeSub(balls, rest, |pbw|);
          var restSignature := Signature(pbw, rest);
          if restSignature in keys {
            continue;
          }
          entry := Split(combination, rest);
        }
        DedupStep(balls, combs, considerRest, t, keys, r, p, signature);
        keys, r := keys + [signature], r + [entry];
      }
      assert sigs[..|combs|] == sigs && rests[..|combs|] == rests;
      DedupDone(pbw, balls, combs, considerRest, keys, r);
    }

    /**
     * Every candidate weighing, in the order the generator yields them: for
     * u = n % 2, n % 2 + 2, ..., n - 2 balls left off, the candidates with u
     * balls left off.
     */
    method YieldAllCandidateWeighings() returns (ws: seq<Weighing>)
      requires Indexed()
      ensures ws == CandidateWeighings(possibleBallWeights)
    {
      // the proof needs only the contracts of the calls, not the definitions
      hide *;
      ghost var pbw := possibleBallWeights;
      IndexedShape();
      ws := [];
      var u: nat := MinUnweighed(nBalls);
      CandidatesStart(pbw);
      // `range(min_unweighed, n - 2 + 1, 2)`: u runs while u <= n - 2
      while u + 2 <= nBalls
        invariant ws + CandidatesFrom(pbw, u) == CandidateWeighings(pbw)
        decreases nBalls - u
      {
        var batch := YieldForUnweighed(u);
        CandidatesStep(pbw, u, ws, batch, CandidateWeighings(pbw));
        ws := ws + batch;
        u := u + 2;
      }
      CandidatesEnd(pbw, u, ws, CandidateWeighings(pbw));
    }

    /**
     * The candidates with u balls left off: for each representative set of
     * unweighed balls, the representative splits of the other balls into
     * two plates of (n - u) / 2 balls.
     */
    method YieldForUnweighed(u: nat) returns (ws: seq<Weighing>)
      requires Indexed() && u + 2 <= nBalls
      ensures ws == ForUnweighed(possibleBallWeights, u)
    {
      // the proof needs only the contracts of the calls, not the definitions
      hide *;
      ghost var pbw := possibleBallWeights;
      IndexedShape();
      RangeInRange(nBalls);
      var perPlate := (nBalls - u) / 2;
      var unweighedLists := GetUniqueSignatureCombinations(balls, u, false);
      ghost var lists := SplitLists(pbw, unweighedLists, perPlate);
      ws := [];
      ConcatNone(lists);
      for i := 0 to |unweighedLists|
        invariant ws == Concat(lists, i)
      {
        var weighed := Without(balls, unweighedLists[i].comb);
        WithoutIncreasing(balls, unweighedLists[i].comb);
        InRangeSub(balls, weighed, nBalls);
        var splits := YieldSplits(weighed, perPlate);
        SplitListsAt(pbw, balls, unweighedLists, perPlate, i);
        ws := ws + splits;
      }
      ForUnweighedUnfold(pbw, balls, u, perPlate, unweighedLists, lists, ws);
    }

    /** Each representative plate of `perPlate` weighed balls, against the rest of them. */
    method YieldSplits(weighed: seq<int>, perPlate: nat) returns (ws: seq<Weighing>)
      requires Indexed() && InRange(weighed, nBalls) && StrictlyIncreasing(weighed)
      ensures ws == SplitsOf(possibleBallWeights, weighed, perPlate)
    {
      var splits := GetUniqueSignatureCombinations(weighed, perPlate, true);
      ghost var plates := SplitsOf(possibleBallWeights, weighed, perPlate);
      SplitsOfEntries(possibleBallWeights, weighed, perPlate);
      ws := [];
      for k := 0 to |splits|
        invariant ws == plates[..k]
      {
        TakeSnoc(plates, k);
        ws := ws + [Weighing(splits[k].comb, splits[k].rest)];
      }
      TakeAll(plates);
    }

    /**
     * Ranks every candidate and keeps the first of the lowest rank; there is
     * none when fewer than two balls are in the game.
     */
    method ChooseWeighing() returns (best: Option<Weighing>)
      requires Valid()
      ensures best.None? <==> nBalls < 2
      ensures best.Some? ==> exists i :: FirstBest(possibleSolutions, CandidateWeighings(possibleBallWeights), i)
                                        && best.value == CandidateWeighings(possibleBallWeights)[i]
    {
      // the proof needs only the contracts of the calls, not the definitions
      hide *;
      ghost var sols := possibleSolutions;
      ValidShape();
      var cands := YieldAllCandidateWeighings();
      CandidatesUsable(sols, possibleBallWeights, nBalls, cands);
      var bestRank := InitialRank(|possibleSolutions|, nBalls);
      best := None;
      ghost var bi := 0;
      for k := 0 to |cands|
        invariant best.None? <==> k == 0
        invariant bi <= k
        invariant best.None? ==> bestRank == InitialRank(|sols|, nBalls)
        invariant best.Some? ==> bi < k && best.value == cands[bi] && bestRank == RankOf(sols, cands[bi])
        invariant forall j :: 0 <= j < k ==> !RankLess(RankOf(sols, cands[j]), bestRank)
        invariant forall j :: 0 <= j < bi ==> RankLess(bestRank, RankOf(sols, cands[j]))
      {
        var rank := RankWeighing(cands[k].left, cands[k].right);
        if k == 0 {
          RankBeatsInitial(sols, cands[k], nBalls);
        }
        if RankLess(rank, bestRank) {
          RankStillBest(sols, cands, k, bestRank, rank);
          bestRank := rank;
          best := Some(cands[k]);
          bi := k;
        }
      }
      if best.Some? {
        FirstBestIntro(sols, cands, bi, bestRank);
      }
    }

    /**
     * Picks one of the remaining vectors (the random choice is the `pick`
     * parameter) and returns it in compact form with the conviction
     * 1 / (number of remaining vectors); with no vector left there is nothing
     * to pick.
     */
    method GuessSolution(pick: nat) returns (r: Option<((int, int), real)>)
      requires Valid()
      requires |possibleSolutions| == 0 || pick < |possibleSolutions|
      ensures r.None? <==> |possibleSolutions| == 0
      ensures r.Some? ==>
        && CompactSolution(possibleSolutions[pick]) == Some(r.value.0)
        && 0 <= r.value.0.0 < nBalls && r.value.0.1 in rules.anomalyChoices
        && Assignment(nBalls, r.value.0.0, r.value.0.1) == possibleSolutions[pick]
        && r.value.1 == 1.0 / (|possibleSolutions| as real)
    {
      var n := |possibleSolutions|;
      if n == 0 {
        return None;
      }
      var attempted := possibleSolutions[pick];
      SubsequenceFacts(possibleSolutions, Universe(rules));
      RemainingCompact(rules, attempted);
      var conviction := 1.0 / (n as real);
      r := Some((CompactSolution(attempted).value, conviction));
    }
  }

  /**
   * Every candidate fits the game, holds at most all its balls on a plate and
   * applies to every remaining vector; there is one exactly when the game has
   * two balls.
   */
  lemma CandidatesUsable(sols: seq<seq<int>>, pbw: seq<seq<int>>, nBalls: nat, cands: seq<Weighing>)
    requires Shaped(sols, nBalls) && |pbw| == nBalls && cands == CandidateWeighings(pbw)
    ensures AllApplicable(sols, cands)
    ensures forall j :: 0 <= j < |cands| ==> Fits(cands[j], nBalls) && |cands[j].left| <= nBalls && Applicable(sols, cands[j])
    ensures |cands| > 0 <==> nBalls >= 2
  {
    CandidatesProper(pbw);
    CandidatesNonEmptyIff(pbw);
    forall j | 0 <= j < |cands|
      ensures Fits(cands[j], nBalls) && |cands[j].left| <= nBalls && Applicable(sols, cands[j])
    {
      var w := cands[j];
      ProperPlatesBound(w, nBalls);
      InRangeConcat(w.left, w.right, nBalls);
      ShapedApplicable(sols, nBalls, w);
    }
  }

  /**
   * A candidate that ranks strictly below the best so far ranks strictly
   * below every earlier candidate, and none ranks strictly below it.
   */
  lemma RankStillBest(sols: seq<seq<int>>, cands: seq<Weighing>, k: nat, bestRank: Rank, rank: Rank)
    requires k < |cands| && AllApplicable(sols, cands) && rank == RankOf(sols, cands[k])
    requires forall j :: 0 <= j < k ==> !RankLess(RankOf(sols, cands[j]), bestRank)
    requires RankLess(rank, bestRank)
    ensures forall j :: 0 <= j < k ==> RankLess(rank, RankOf(sols, cands[j]))
    ensures forall j :: 0 <= j <= k ==> !RankLess(RankOf(sols, cands[j]), rank)
  {
    forall j | 0 <= j < k ensures RankLess(rank, RankOf(sols, cands[j])) {
      var rj := RankOf(sols, cands[j]);
      RankTotal(rj, bestRank);
      if rj != bestRank {
        RankLessTransitive(rank, bestRank, rj);
      }
    }
    forall j | 0 <= j <= k ensures !RankLess(RankOf(sols, cands[j]), rank) {
      if j < k {
        RankLessAsymmetric(rank, RankOf(sols, cands[j]));
      } else {
        RankLessIrreflexive(rank);
      }
    }
  }

  /** The search's choice is determined: at most one candidate is the first of the lowest rank. */
  lemma FirstBestUnique(sols: seq<seq<int>>, cands: seq<Weighing>, i: int, k: int)
    requires FirstBest(sols, cands, i) && FirstBest(sols, cands, k)
    ensures i == k
  {
    var ri, rk := RankOf(sols, cands[i]), RankOf(sols, cands[k]);
    assert !RankLess(rk, ri) && !RankLess(ri, rk);
    assert i < k ==> RankLess(rk, ri);
    assert k < i ==> RankLess(ri, rk);
  }

  /**
   * The chosen weighing's bucket sizes are lexicographically the least of all
   * candidates': in particular no candidate leaves fewer vectors in the worst
   * case, and among those none leaves fewer in the second-worst case.
   */
  lemma FirstBestMinimal(sols: seq<seq<int>>, cands: seq<Weighing>, i: int)
    requires FirstBest(sols, cands, i)
    ensures forall j :: 0 <= j < |cands| ==> LexLeq(RankOf(sols, cands[i]).freqs, RankOf(sols, cands[j]).freqs)
    ensures forall j :: 0 <= j < |cands| ==> RankOf(sols, cands[i]).freqs[0] <= RankOf(sols, cands[j]).freqs[0]
  {
    var ri := RankOf(sols, cands[i]);
    RankSpec(sols, cands[i]);
    forall j | 0 <= j < |cands|
      ensures LexLeq(ri.freqs, RankOf(sols, cands[j]).freqs) && ri.freqs[0] <= RankOf(sols, cands[j]).freqs[0]
    {
      var rj := RankOf(sols, cands[j]);
      RankSpec(sols, cands[j]);
      RankTotal(ri, rj);
      if LexLess(ri.freqs, rj.freqs) {
        LexLessHead(ri.freqs, rj.freqs);
      }
    }
  }

  lemma FirstBestIntro(sols: seq<seq<int>>, cands: seq<Weighing>, i: nat, bestRank: Rank)
    requires i < |cands| && AllApplicable(sols, cands) && bestRank == RankOf(sols, cands[i])
    requires forall j :: 0 <= j < |cands| ==> !RankLess(RankOf(sols, cands[j]), bestRank)
    requires forall j :: 0 <= j < i ==> RankLess(bestRank, RankOf(sols, cands[j]))
    ensures FirstBest(sols, cands, i)
  {
  }

  /** A remaining vector is the vector of one allowed (ball, direction) choice, which compacting recovers. */
  lemma RemainingCompact(rules: Rules, s: seq<int>)
    requires s in Universe(rules)
    ensures CompactSolution(s).Some?
    ensures 0 <= CompactSolution(s).value.0 < rules.nBalls && CompactSolution(s).value.1 in rules.anomalyChoices
    ensures s == Assignment(rules.nBalls, CompactSolution(s).value.0, CompactSolution(s).value.1)
  {
    UniverseSpec(rules);
    AllPossibleChoicesSpec(rules);
    var j :| 0 <= j < |Universe(rules)| && Universe(rules)[j] == s;
  }

  lemma ColumnSnoc(sols: seq<seq<int>>, nBalls: int, b: int, j: int)
    requires Shaped(sols, nBalls) && 0 <= b < nBalls && 0 <= j < |sols|
    ensures Column(sols[..j + 1], nBalls, b) == Column(sols[..j], nBalls, b) + [sols[j][b]]
  {
  }

  /** The loop's dictionary matches the table: the same keys, and the entries of the combinations at its positions. */
  ghost predicate DedupState(balls: seq<int>, combs: seq<seq<int>>, considerRest: bool, t: Table<seq<seq<int>>>, keys: seq<seq<seq<int>>>, r: seq<Pick>) {
    && keys == t.keys
    && |r| == |t.at|
    && (forall i :: 0 <= i < |r| ==> t.at[i] < |combs| && r[i] == Entry(balls, combs[t.at[i]], considerRest))
  }

  /** One more combination: the table for p + 1 admits combination p into the table for p. */
  lemma DedupSnoc<K>(sigs: seq<K>, rests: seq<K>, considerRest: bool, p: nat)
    requires |sigs| == |rests| && p < |sigs|
    ensures Dedup(sigs[..p + 1], rests[..p + 1], considerRest) == Admit(Dedup(sigs[..p], rests[..p], considerRest), sigs[p], rests[p], considerRest, p)
  {
    assert sigs[..p + 1][..p] == sigs[..p] && rests[..p + 1][..p] == rests[..p];
  }

  lemma DedupStep(balls: seq<int>, combs: seq<seq<int>>, considerRest: bool, t: Table<seq<seq<int>>>, keys: seq<seq<seq<int>>>, r: seq<Pick>, p: nat, sig: seq<seq<int>>)
    requires DedupState(balls, combs, considerRest, t, keys, r) && p < |combs|
    ensures DedupState(balls, combs, considerRest, Table(t.keys + [sig], t.at + [p]), keys + [sig], r + [Entry(balls, combs[p], considerRest)])
  {
  }

  lemma DedupDone(pbw: seq<seq<int>>, balls: seq<int>, combs: seq<seq<int>>, considerRest: bool, keys: seq<seq<seq<int>>>, r: seq<Pick>)
    requires InRange(balls, |pbw|) && AllInRange(combs, |pbw|)
    requires DedupState(balls, combs, considerRest, Dedup(SignatureList(pbw, combs), RestSignatures(pbw, balls, combs), considerRest), keys, r)
    ensures r == UniqueOf(pbw, balls, combs, considerRest)
  {
  }

  /** The splits list every kept plate with the rest of the weighed balls as the other plate. */
  lemma SplitsOfEntries(pbw: seq<seq<int>>, weighed: seq<int>, per: nat)
    requires InRange(weighed, |pbw|) && StrictlyIncreasing(weighed)
    ensures var u := UniqueSignatureCombinations(pbw, weighed, per, true);
      var s := SplitsOf(pbw, weighed, per);
      |s| == |u| && forall k :: 0 <= k < |u| ==> u[k].Split? && s[k] == Weighing(u[k].comb, u[k].rest)
  {
    UniqueCombinationsShape(pbw, weighed, per, true);
  }

  lemma ConcatNone(ls: seq<seq<Weighing>>)
    ensures Concat(ls, 0) == []
  {
  }

  lemma SplitListsAt(pbw: seq<seq<int>>, balls: seq<int>, unweighed: seq<Pick>, per: nat, i: nat)
    requires balls == Range(0, |pbw|) && i < |unweighed|
    ensures Concat(SplitLists(pbw, unweighed, per), i + 1) == Concat(SplitLists(pbw, unweighed, per), i) + SplitsOf(pbw, Without(balls, unweighed[i].comb), per)
  {
  }

  lemma ForUnweighedUnfold(pbw: seq<seq<int>>, balls: seq<int>, u: nat, per: nat, unweighed: seq<Pick>, lists: seq<seq<Weighing>>, ws: seq<Weighing>)
    requires u <= |pbw| && balls == Range(0, |pbw|) && InRange(balls, |pbw|) && per == (|pbw| - u) / 2
    requires unweighed == UniqueSignatureCombinations(pbw, balls, u, false)
    requires lists == SplitLists(pbw, unweighed, per) && ws == Concat(lists, |unweighed|)
    ensures ws == ForUnweighed(pbw, u)
  {
  }

  lemma CandidatesStep(pbw: seq<seq<int>>, u: nat, before: seq<Weighing>, batch: seq<Weighing>, all: seq<Weighing>)
    requires u + 2 <= |pbw|
    requires before + CandidatesFrom(pbw, u) == all
    requires batch == ForUnweighed(pbw, u)
    ensures (before + batch) + CandidatesFrom(pbw, u + 2) == all
  {
    CandidatesFromUnfold(pbw, u);
    AppendShift(before, batch, CandidatesFrom(pbw, u + 2), all);
  }

  lemma CandidatesStart(pbw: seq<seq<int>>)
    ensures [] + CandidatesFrom(pbw, MinUnweighed(|pbw|)) == CandidateWeighings(pbw)
  {
  }

  lemma CandidatesEnd(pbw: seq<seq<int>>, u: nat, ws: seq<Weighing>, all: seq<Weighing>)
    requires u + 2 > |pbw| && ws + CandidatesFrom(pbw, u) == all
    ensures ws == all
  {
    assert CandidatesFrom(pbw, u) == [];
  }

  lemma CandidatesFromUnfold(pbw: seq<seq<int>>, u: nat)
    requires u + 2 <= |pbw|
    ensures CandidatesFrom(pbw, u) == ForUnweighed(pbw, u) + CandidatesFrom(pbw, u + 2)
  {
  }

  lemma AppendShift<T>(before: seq<T>, f: seq<T>, rest: seq<T>, all: seq<T>)
    requires before + (f + rest) == all
    ensures (before + f) + rest == all
  {
  }

  /** The balls of the game are in range and in increasing order. */
  lemma RangeInRange(n: nat)
    ensures InRange(Range(0, n), n) && StrictlyIncreasing(Range(0, n))
  {
    RangeSpec(0, n);
  }

  lemma TakeSnoc<T>(s: seq<T>, k: nat)
    requires k < |s|
    ensures s[..k + 1] == s[..k] + [s[k]]
  {
  }

  lemma TakeAll<T>(s: seq<T>)
    ensures s[..|s|] == s
  {
  }
}
