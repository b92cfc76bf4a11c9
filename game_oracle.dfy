/**
 * The oracle: it hides one anomalous ball, answers a limited number of
 * weighings with the balance of the rule set, and checks the final guess.
 */
module GameOracle {
  import opened Outcomes
  import opened Ordering
  import opened GameRules

  /** The ways a construction or a weighing request is refused (assertion failures in Python). */
  datatype OracleError = InvalidChoice | BudgetExhausted | RepeatedBall | BallOutOfRange

  /** An explicit secret: a ball of the game, lighter or heavier (membership in the rule set's directions is not required). */
  predicate ValidChoice(rules: Rules, anomalyIndex: int, anomaly: int) {
    0 <= anomalyIndex < rules.nBalls && (anomaly == LIGHTER || anomaly == HEAVIER)
  }

  class Oracle {
    const rules: Rules
    const anomalyIndex: int
    const anomaly: int
    /** The hidden weight vector, one weight per ball. */
    const weights: seq<int>
    var nUsedWeighings: nat

    /** What never changes after construction. */
    predicate Hidden() {
      && ValidChoice(rules, anomalyIndex, anomaly)
      && weights == Assignment(rules.nBalls, anomalyIndex, anomaly)
    }

    predicate Valid()
      reads this
    {
      Hidden() && nUsedWeighings <= rules.nWeighings
    }

    /** The explicit-choice construction; the caller has checked the choice (see Create). */
    constructor (rules: Rules, anomalyIndex: int, anomaly: int)
      requires ValidChoice(rules, anomalyIndex, anomaly)
      ensures Valid()
      ensures this.rules == rules && this.anomalyIndex == anomalyIndex && this.anomaly == anomaly
      ensures nUsedWeighings == 0
      ensures |weights| == rules.nBalls && weights[anomalyIndex] == anomaly
      ensures forall b :: 0 <= b < |weights| && b != anomalyIndex ==> weights[b] == NORMAL
    {
      this.rules := rules;
      this.anomalyIndex := anomalyIndex;
      this.anomaly := anomaly;
      this.weights := Assignment(rules.nBalls, anomalyIndex, anomaly);
      this.nUsedWeighings := 0;
    }

    /** The constructor's checks as an error path: an out-of-range ball or a NORMAL/unknown direction is refused. */
    static method Create(rules: Rules, explicitChoice: (int, int)) returns (r: Result<Oracle, OracleError>)
      ensures r.Ok? <==> ValidChoice(rules, explicitChoice.0, explicitChoice.1)
      ensures r.Err? ==> r.error == InvalidChoice
      ensures r.Ok? ==> fresh(r.value) && r.value.Valid() && r.value.nUsedWeighings == 0
      ensures r.Ok? ==> r.value.rules == rules && (r.value.anomalyIndex, r.value.anomaly) == explicitChoice
    {
      var (anomalyIndex, anomaly) := explicitChoice;
      if !(0 <= anomalyIndex < rules.nBalls) {
        return Err(InvalidChoice);
      }
      if !(anomaly == LIGHTER || anomaly == HEAVIER) {
        return Err(InvalidChoice);
      }
      var oracle := new Oracle(rules, anomalyIndex, anomaly);
      return Ok(oracle);
    }

    /**
     * One weighing. Refused when the budget is spent, when a ball appears
     * twice across the plates, or when a ball is not in the game, checked in
     * that order; a refused request uses no weighing. Otherwise one weighing is
     * used and the answer is the balance applied to the hidden weights.
     */
    method TellHeavierPlate(left: seq<int>, right: seq<int>) returns (r: Result<int, OracleError>)
      requires Valid()
      modifies this`nUsedWeighings
      ensures Valid()
      ensures r == Err(BudgetExhausted) <==> old(nUsedWeighings) >= rules.nWeighings
      ensures r == Err(RepeatedBall) <==>
        old(nUsedWeighings) < rules.nWeighings && !NoDuplicates(left + right)
      ensures r == Err(BallOutOfRange) <==>
        old(nUsedWeighings) < rules.nWeighings && NoDuplicates(left + right) && !InRange(left + right, rules.nBalls)
      ensures r.Ok? <==>
        old(nUsedWeighings) < rules.nWeighings && NoDuplicates(left + right) && InRange(left + right, rules.nBalls)
      ensures r.Ok? ==> InRange(left, |weights|) && InRange(right, |weights|)
      ensures r.Ok? ==> r.value == GameRules.TellHeavierPlate(weights, left, right)
      ensures nUsedWeighings == if r.Ok? then old(nUsedWeighings) + 1 else old(nUsedWeighings)
    {
      if !(nUsedWeighings < rules.nWeighings) {
        return Err(BudgetExhausted);
      }
      var involved := left + right;
      NoDuplicatesIffSetSize(involved);
      if |Elements(involved)| != |involved| {
        return Err(RepeatedBall);
      }
      InRangeConcat(left, right, rules.nBalls);
      if !InRange(involved, rules.nBalls) {
        return Err(BallOutOfRange);
      }
      nUsedWeighings := nUsedWeighings + 1;
      return Ok(GameRules.TellHeavierPlate(weights, left, right));
    }

    /** A guess wins exactly when it is a valid choice that describes the hidden weight vector. */
    function CheckGuess(anomalyIndex: int, anomaly: int): (win: bool)
      requires Hidden()
      ensures win <==> ValidChoice(rules, anomalyIndex, anomaly)
                       && Assignment(rules.nBalls, anomalyIndex, anomaly) == weights
    {
      if 0 <= anomalyIndex < rules.nBalls && anomaly != NORMAL then
        AssignmentInjective(rules.nBalls, anomalyIndex, anomaly, this.anomalyIndex, this.anomaly);
        anomalyIndex == this.anomalyIndex && anomaly == this.anomaly
      else
        anomalyIndex == this.anomalyIndex && anomaly == this.anomaly
    }
  }

  /**
   * The oracle's own scenario: twelve balls, three weighings, ball 5 heavier.
   * Six against six goes down on the left, five against five on the right,
   * four against four balances, and a fourth weighing is refused.
   */
  method TwelveBallScenario() returns (results: seq<Result<int, OracleError>>)
    ensures results == [Ok(LEFT), Ok(RIGHT), Ok(EQUAL), Err(BudgetExhausted)]
  {
    var rules := NewRules(12, 3);
    var oracle := new Oracle(rules.value, 5, HEAVIER);
    RangeSpec(0, 6);
    RangeSpec(0, 5);
    RangeSpec(5, 10);
    RangeSpec(0, 4);
    RangeSpec(6, 10);
    RangeSpec(6, 12);
    RangesIncreasing(0, 6, 6, 12);
    RangesIncreasing(0, 5, 5, 10);
    RangesIncreasing(0, 4, 6, 10);
    IncreasingNoDuplicates(Range(0, 6) + Range(6, 12));
    IncreasingNoDuplicates(Range(0, 5) + Range(5, 10));
    IncreasingNoDuplicates(Range(0, 4) + Range(6, 10));
    InRangeConcat(Range(0, 6), Range(6, 12), 12);
    InRangeConcat(Range(0, 5), Range(5, 10), 12);
    InRangeConcat(Range(0, 4), Range(6, 10), 12);
    var r1 := Weigh(oracle, Range(0, 6), Range(6, 12));
    var r2 := Weigh(oracle, Range(0, 5), Range(5, 10));
    var r3 := Weigh(oracle, Range(0, 4), Range(6, 10));
    var r4 := oracle.TellHeavierPlate(Range(0, 3), Range(9, 12));
    results := [r1, r2, r3, r4];
  }

  /** One weighing of two equal-size plates with no ball on both, on an oracle with budget left, with its answer worked out from the one-anomaly rule. */
  method Weigh(oracle: Oracle, left: seq<int>, right: seq<int>) returns (r: Result<int, OracleError>)
    requires oracle.Valid() && oracle.nUsedWeighings < oracle.rules.nWeighings
    requires NoDuplicates(left + right) && InRange(left + right, oracle.rules.nBalls)
    requires |left| == |right|
    modifies oracle`nUsedWeighings
    ensures oracle.Valid() && oracle.nUsedWeighings == old(oracle.nUsedWeighings) + 1
    ensures r.Ok?
    ensures r.value == LEFT <==>
      (oracle.anomaly == HEAVIER && oracle.anomalyIndex in left) || (oracle.anomaly == LIGHTER && oracle.anomalyIndex in right)
    ensures r.value == RIGHT <==>
      (oracle.anomaly == HEAVIER && oracle.anomalyIndex in right) || (oracle.anomaly == LIGHTER && oracle.anomalyIndex in left)
    ensures r.value == EQUAL <==> oracle.anomalyIndex !in left && oracle.anomalyIndex !in right
  {
    InRangeConcat(left, right, oracle.rules.nBalls);
    r := oracle.TellHeavierPlate(left, right);
    OneAnomalyResult(oracle.rules.nBalls, oracle.anomalyIndex, oracle.anomaly, left, right);
  }
}
