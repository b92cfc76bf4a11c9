/**
 * The rule set of the odd-ball weighing puzzle: the weight and result codes,
 * the validated parameters, the list of (ball, direction) choices, and the
 * balance itself, which sums the weights on each plate and compares them.
 */
module GameRules {
  import opened Outcomes
  import opened Ordering

  /** Ball weights: every ball weighs NORMAL except the one anomalous ball. */
  const NORMAL: int := 1000
  const HEAVIER: int := 1001
  const LIGHTER: int := 999

  /** Weighing results: which plate went down. */
  const LEFT: int := -1
  const EQUAL: int := 0
  const RIGHT: int := 1

  datatype RuleSet = RuleSet(nBalls: int, nWeighings: int, anomalyChoices: seq<int>)

  /** What the constructor's assertions guarantee of every rule set that exists. */
  predicate WellFormed(r: RuleSet) {
    && r.nBalls >= 2
    && r.nWeighings >= 1
    && (r.anomalyChoices == [HEAVIER] || r.anomalyChoices == [LIGHTER, HEAVIER])
  }

  type Rules = r: RuleSet | WellFormed(r) witness RuleSet(2, 1, [HEAVIER])

  datatype RulesError = InvalidConfiguration

  /** The constructor: one anomaly direction means "only heavier", two mean "lighter or heavier". */
  function NewRules(nBalls: int, nWeighings: int, nAnomalyChoices: int := 2): (r: Result<Rules, RulesError>)
    ensures r.Ok? <==> (nAnomalyChoices == 1 || nAnomalyChoices == 2) && nBalls >= 2 && nWeighings >= 1
    ensures r.Ok? ==> r.value.nBalls == nBalls && r.value.nWeighings == nWeighings
    ensures r.Ok? ==> |r.value.anomalyChoices| == nAnomalyChoices
    ensures r.Ok? ==> r.value.anomalyChoices[|r.value.anomalyChoices| - 1] == HEAVIER
    ensures r.Ok? && nAnomalyChoices == 2 ==> r.value.anomalyChoices[0] == LIGHTER
  {
    if !(nAnomalyChoices == 1 || nAnomalyChoices == 2) then Err(InvalidConfiguration)
    else
      var anomalyChoices := if nAnomalyChoices == 1 then [HEAVIER] else [LIGHTER, HEAVIER];
      if !(nBalls >= 2) then Err(InvalidConfiguration)
      else if !(nWeighings >= 1) then Err(InvalidConfiguration)
      else
        var rules: Rules := RuleSet(nBalls, nWeighings, anomalyChoices);
        Ok(rules)
  }

  /** Every (ball, direction) pair, ball-major, directions in the rule set's order. */
  function AllPossibleChoices(rules: Rules): (r: seq<(int, int)>)
    ensures |r| == rules.nBalls * |rules.anomalyChoices|
  {
    var k := |rules.anomalyChoices|;
    seq(rules.nBalls * k, j requires 0 <= j < rules.nBalls * k => (j / k, rules.anomalyChoices[j % k]))
  }

  /** Position `ball * |choices| + c` holds ball `ball` with the c-th direction. */
  lemma ChoiceAt(rules: Rules, ball: int, c: int)
    requires 0 <= ball < rules.nBalls && 0 <= c < |rules.anomalyChoices|
    ensures 0 <= ball * |rules.anomalyChoices| + c < |AllPossibleChoices(rules)|
    ensures AllPossibleChoices(rules)[ball * |rules.anomalyChoices| + c] == (ball, rules.anomalyChoices[c])
  {
    var k := |rules.anomalyChoices|;
    var j := ball * k + c;
    if k == 1 {
      assert j == ball;
    } else {
      assert j == ball * 2 + c;
      assert j / 2 == ball && j % 2 == c;
    }
  }

  /** The pairs are exactly the valid balls with the allowed directions, each once, in ball-major order. */
  lemma AllPossibleChoicesSpec(rules: Rules)
    ensures forall j :: 0 <= j < |AllPossibleChoices(rules)| ==>
      0 <= AllPossibleChoices(rules)[j].0 < rules.nBalls && AllPossibleChoices(rules)[j].1 in rules.anomalyChoices
    ensures forall i, j :: 0 <= i < j < |AllPossibleChoices(rules)| ==>
      AllPossibleChoices(rules)[i].0 <= AllPossibleChoices(rules)[j].0 && AllPossibleChoices(rules)[i] != AllPossibleChoices(rules)[j]
    ensures forall ball, a :: 0 <= ball < rules.nBalls && a in rules.anomalyChoices ==> (ball, a) in AllPossibleChoices(rules)
  {
    var r := AllPossibleChoices(rules);
    var k := |rules.anomalyChoices|;
    forall j | 0 <= j < |r| ensures 0 <= r[j].0 < rules.nBalls && r[j].1 in rules.anomalyChoices {
      assert r[j] == (j / k, rules.anomalyChoices[j % k]);
      if k == 2 { assert j / 2 < rules.nBalls; }
    }
    forall i, j | 0 <= i < j < |r| ensures r[i].0 <= r[j].0 && r[i] != r[j] {
      assert r[i] == (i / k, rules.anomalyChoices[i % k]) && r[j] == (j / k, rules.anomalyChoices[j % k]);
      if k == 2 {
        assert i / 2 <= j / 2;
        if i / 2 == j / 2 { assert i % 2 == 0 && j % 2 == 1; assert rules.anomalyChoices[0] != rules.anomalyChoices[1]; }
      }
    }
    forall ball, a | 0 <= ball < rules.nBalls && a in rules.anomalyChoices ensures (ball, a) in r {
      var c :| 0 <= c < k && rules.anomalyChoices[c] == a;
      ChoiceAt(rules, ball, c);
    }
  }

  // ---------------------------------------------------------------------------
  // The balance

  /** A weight vector that is NORMAL everywhere except `anomaly` at `anomalyIndex`. */
  function Assignment(nBalls: nat, anomalyIndex: int, anomaly: int): (w: seq<int>)
    ensures |w| == nBalls
  {
    seq(nBalls, ball requires 0 <= ball < nBalls => if ball != anomalyIndex then NORMAL else anomaly)
  }

  predicate InRange(plate: seq<int>, nBalls: int) {
    forall i :: 0 <= i < |plate| ==> 0 <= plate[i] < nBalls
  }

  /** A concatenation of plates is in range exactly when both plates are. */
  lemma InRangeConcat(left: seq<int>, right: seq<int>, nBalls: int)
    ensures InRange(left + right, nBalls) <==> InRange(left, nBalls) && InRange(right, nBalls)
  {
    var both := left + right;
    if InRange(both, nBalls) {
      forall i | 0 <= i < |left| ensures 0 <= left[i] < nBalls {
        assert both[i] == left[i];
      }
      forall i | 0 <= i < |right| ensures 0 <= right[i] < nBalls {
        assert both[|left| + i] == right[i];
      }
    }
    if InRange(left, nBalls) && InRange(right, nBalls) {
      forall i | 0 <= i < |both| ensures 0 <= both[i] < nBalls {
        if i >= |left| { assert both[i] == right[i - |left|]; }
      }
    }
  }

  /** A slice of an in-range plate is in range. */
  lemma InRangeSlice(plate: seq<int>, lo: int, hi: int, nBalls: int)
    requires InRange(plate, nBalls) && 0 <= lo <= hi <= |plate|
    ensures InRange(plate[lo..hi], nBalls)
  {
    forall i | 0 <= i < hi - lo ensures 0 <= plate[lo..hi][i] < nBalls {
      assert plate[lo..hi][i] == plate[lo + i];
    }
  }

  /** A plate whose balls all appear on an in-range plate is in range. */
  lemma InRangeSub(plate: seq<int>, sub: seq<int>, nBalls: int)
    requires InRange(plate, nBalls)
    requires forall x :: x in sub ==> x in plate
    ensures InRange(sub, nBalls)
  {
    forall i | 0 <= i < |sub| ensures 0 <= sub[i] < nBalls {
      var x := sub[i];
      assert x in sub;
      assert x in plate;
      var j :| 0 <= j < |plate| && plate[j] == x;
      assert 0 <= plate[j] < nBalls;
    }
  }

  /** Two valid (index, direction) choices give the same weight vector only if they are the same choice. */
  lemma AssignmentInjective(nBalls: nat, i: int, a: int, j: int, b: int)
    requires 0 <= i < nBalls && 0 <= j < nBalls
    requires a != NORMAL && b != NORMAL
    ensures Assignment(nBalls, i, a) == Assignment(nBalls, j, b) <==> i == j && a == b
  {
    if Assignment(nBalls, i, a) == Assignment(nBalls, j, b) {
      assert Assignment(nBalls, i, a)[i] == a;
      assert Assignment(nBalls, j, b)[j] == b;
    }
  }

  /** Total weight of the balls on a plate. */
  function Sum(weights: seq<int>, plate: seq<int>): int
    requires InRange(plate, |weights|)
    decreases |plate|
  {
    if plate == [] then 0
    else
      assert forall i :: 0 <= i < |plate[1..]| ==> plate[1..][i] == plate[i + 1];
      weights[plate[0]] + Sum(weights, plate[1..])
  }

  function TellHeavierPlate(weights: seq<int>, left: seq<int>, right: seq<int>): (r: int)
    requires InRange(left, |weights|) && InRange(right, |weights|)
    ensures r == LEFT || r == EQUAL || r == RIGHT
  {
    var leftWeight, rightWeight := Sum(weights, left), Sum(weights, right);
    if leftWeight > rightWeight then LEFT
    else if leftWeight == rightWeight then EQUAL
    else RIGHT
  }

  /** Swapping the plates swaps LEFT and RIGHT and keeps EQUAL. */
  lemma TellHeavierPlateAntisymmetric(weights: seq<int>, left: seq<int>, right: seq<int>)
    requires InRange(left, |weights|) && InRange(right, |weights|)
    ensures TellHeavierPlate(weights, right, left) == -TellHeavierPlate(weights, left, right)
  {
  }

  /** On a one-anomaly vector, a plate without repeats weighs NORMAL per ball, shifted by the anomaly if it holds that ball. */
  lemma {:induction false} SumOfAssignment(nBalls: nat, anomalyIndex: int, anomaly: int, plate: seq<int>)
    requires InRange(plate, nBalls) && NoDuplicates(plate)
    ensures Sum(Assignment(nBalls, anomalyIndex, anomaly), plate)
         == NORMAL * |plate| + (if anomalyIndex in plate then anomaly - NORMAL else 0)
    decreases |plate|
  {
    if plate != [] {
      var tail := plate[1..];
      assert NoDuplicates(tail) by {
        forall i, j | 0 <= i < j < |tail| ensures tail[i] != tail[j] {
          assert tail[i] == plate[i + 1] && tail[j] == plate[j + 1];
        }
      }
      assert InRange(tail, nBalls) by {
        forall i | 0 <= i < |tail| ensures 0 <= tail[i] < nBalls { assert tail[i] == plate[i + 1]; }
      }
      SumOfAssignment(nBalls, anomalyIndex, anomaly, tail);
      var weights := Assignment(nBalls, anomalyIndex, anomaly);
      assert Sum(weights, plate) == weights[plate[0]] + Sum(weights, tail);
      assert weights[plate[0]] == if plate[0] != anomalyIndex then NORMAL else anomaly;
      assert NORMAL * |plate| == NORMAL * |tail| + NORMAL;
      if plate[0] == anomalyIndex {
        forall j | 0 <= j < |tail| ensures tail[j] != anomalyIndex {
          assert plate[j + 1] == tail[j];
        }
      }
      assert anomalyIndex in plate <==> plate[0] == anomalyIndex || anomalyIndex in tail;
    }
  }

  /**
   * With equal-size plates, no ball used twice, and exactly one anomalous ball:
   * the left plate goes down iff it holds a heavier ball or the right holds a
   * lighter one, and the scale balances iff the anomalous ball is on neither plate.
   */
  lemma OneAnomalyResult(nBalls: nat, anomalyIndex: int, anomaly: int, left: seq<int>, right: seq<int>)
    requires anomaly == LIGHTER || anomaly == HEAVIER
    requires InRange(left, nBalls) && InRange(right, nBalls)
    requires |left| == |right|
    requires NoDuplicates(left + right)
    ensures TellHeavierPlate(Assignment(nBalls, anomalyIndex, anomaly), left, right) == LEFT <==>
      (anomaly == HEAVIER && anomalyIndex in left) || (anomaly == LIGHTER && anomalyIndex in right)
    ensures TellHeavierPlate(Assignment(nBalls, anomalyIndex, anomaly), left, right) == RIGHT <==>
      (anomaly == HEAVIER && anomalyIndex in right) || (anomaly == LIGHTER && anomalyIndex in left)
    ensures TellHeavierPlate(Assignment(nBalls, anomalyIndex, anomaly), left, right) == EQUAL <==>
      anomalyIndex !in left && anomalyIndex !in right
  {
    var both := left + right;
    assert NoDuplicates(left) by {
      forall i, j | 0 <= i < j < |left| ensures left[i] != left[j] {
        assert both[i] == left[i] && both[j] == left[j];
      }
    }
    assert NoDuplicates(right) by {
      forall i, j | 0 <= i < j < |right| ensures right[i] != right[j] {
        assert both[|left| + i] == right[i] && both[|left| + j] == right[j];
      }
    }
    forall i, j | 0 <= i < |left| && 0 <= j < |right| ensures left[i] != right[j] {
      assert both[i] == left[i] && both[|left| + j] == right[j];
    }
    SumOfAssignment(nBalls, anomalyIndex, anomaly, left);
    SumOfAssignment(nBalls, anomalyIndex, anomaly, right);
  }
}
