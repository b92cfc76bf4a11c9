# Odd-ball weighing: rules, oracle and solver, in Dafny

The puzzle has N identical-looking balls. Exactly one of them is lighter (999) or heavier (1001) than the normal weight (1000). A two-plate balance may be used a fixed number of times, and then the odd ball and its direction must be guessed.

This project models three parts of the program:

- **Rules** (`game_rules.dfy`, module `GameRules`). The rule set validates its parameters and lists the possible choices. The balance sums the weights on each plate and reports the heavier side: -1 for left, 0 for equal, 1 for right.
- **Oracle** (`game_oracle.dfy`, module `GameOracle`). A class holds a hidden one-anomaly weight vector and a weighing counter. It refuses a weighing over budget, a plate set with a repeated ball, and a ball out of range. It also checks the final guess.
- **Solver** (`game_solver.dfy`, class `GameSolver.Solver`). The solver keeps every weight vector consistent with the observations, and for each ball the sorted weights that ball may still have, called its signature. It does four things:
  - It enumerates candidate weighings. Combinations of balls are deduplicated by signature, and only the first in `itertools.combinations` order is kept.
  - It ranks each weighing by its outcome-bucket sizes, sorted descending and padded to three, then by plate size.
  - It picks the first weighing of least rank.
  - It guesses one of the remaining vectors in compact (ball, direction) form.

Each solver method is proved equal to a specification function in one of the modules below. The lemmas state what the source promises about that function.

| module | contents |
|---|---|
| `Beliefs` | the universe of vectors, filtering by a result, per-ball signatures, the compact form |
| `Signatures` | signatures of combinations and the deduplication table |
| `Candidates` | the candidate weighings |
| `Ranking` | tallies and ranks |
| `Itertools` | `itertools.combinations` |
| `Ordering` | sorting, lexicographic order, distinctness |

## Model

| member | source | states |
|---|---|---|
| GameRules.NewRules | game_rules.py:11-25 | Construction succeeds exactly when the number of anomaly choices is 1 or 2, there are at least 2 balls and there is at least 1 weighing. On success the counts are kept; one choice means `[HEAVIER]` and two mean `[LIGHTER, HEAVIER]`. |
| GameRules.AllPossibleChoices | game_rules.py:27-28 | There are `n_balls * len(anomaly_choices)` pairs. |
| GameRules.ChoiceAt | game_rules.py:27-28 | The pair at position `ball * len(anomaly_choices) + c` is `(ball, anomaly_choices[c])`: the list is ball-major. |
| GameRules.AllPossibleChoicesSpec | game_rules.py:27-28 | Every pair has a ball in range and a direction from the rule set. The pairs are distinct, ordered by ball, and every such pair occurs. |
| GameRules.TellHeavierPlate | game_rules.py:44-52 | The result is always LEFT, EQUAL or RIGHT. |
| GameRules.TellHeavierPlateAntisymmetric | game_rules.py:44-52 | Swapping the plates negates the result: LEFT and RIGHT trade places and EQUAL stays. |
| GameRules.SumOfAssignment | game_rules.py:45-46 | On a one-anomaly vector, a plate without repeated balls weighs `1000 * size`, plus the anomaly's deviation when the odd ball is on it. |
| GameRules.OneAnomalyResult | game_rules.py:44-52 | For equal-size disjoint plates and one anomaly: LEFT iff the ball is heavier on the left or lighter on the right; RIGHT symmetrically; EQUAL iff the ball is on neither plate. |
| GameRules.AssignmentInjective | game_solver.py:13-16 | Two one-anomaly vectors over the same balls are equal iff they have the same ball and the same direction. |
| GameOracle.Oracle.Create | game_oracle.py:13-27 | An explicit secret is accepted exactly when the ball is in range and the weight is LIGHTER or HEAVIER. Membership in the rule set's directions is not checked. On acceptance, the new oracle holds that secret and has used no weighing. |
| GameOracle.Oracle.constructor | game_oracle.py:20-27 | The hidden vector has `n_balls` entries: the anomaly at the chosen ball and 1000 everywhere else. The counter starts at 0. |
| GameOracle.Oracle.TellHeavierPlate | game_oracle.py:29-35 | The checks run in source order: budget exhausted, then a repeated ball, then a ball out of range. Each is refused exactly when it fails and the earlier checks pass. Otherwise the result is the balance on the hidden vector. The counter grows by exactly 1 on success, stays put on refusal, and never exceeds the budget. |
| GameOracle.Oracle.CheckGuess | game_oracle.py:37-38 | The guess wins iff it is a valid (ball, direction) whose one-anomaly vector is the hidden one, i.e. both the index and the direction match. |
| GameOracle.Weigh | game_oracle.py:29-35 | For an accepted weighing of equal-size plates with no ball on both, listed in any order, the answer is LEFT, RIGHT or EQUAL exactly as the position and direction of the hidden ball dictate. |
| GameOracle.TwelveBallScenario | game_oracle.py:47-55 | With 12 balls, 3 weighings and secret (5, heavier), the four weighings of the test answer LEFT, RIGHT, EQUAL, and then refuse for budget. |
| Beliefs.Universe | game_solver.py:13-16 | The initial list has `n_balls * len(anomaly_choices)` vectors, each with `n_balls` entries. |
| Beliefs.UniverseSpec | game_solver.py:13-16 | Vector j is the one-anomaly vector of the j-th possible choice, and its compact form is that choice. Every choice's vector occurs, and the vectors are pairwise distinct. |
| Beliefs.SecretInUniverseIff | game_solver.py:13-16 | A valid secret's vector is among the solver's initial vectors iff its direction is one of the rule set's. |
| GameSolver.Solver.constructor | game_solver.py:9-18 | The solver starts from the universe of the rule set, and the per-ball weights are those of the universe. |
| GameSolver.Solver.RecalcPossibleBallWeights | game_solver.py:20-26 | After the nested loop, each ball's entry is the signature function of the current vectors. |
| Beliefs.BallSignaturesSpec | game_solver.py:20-26 | Each ball's entry is strictly increasing (sorted, no duplicates), and it holds a weight iff some remaining vector gives the ball that weight. |
| Ordering.SortedElements | game_solver.py:24-26 | The result is strictly increasing and has exactly the elements of the input: the sorted tuple of a set. |
| Ordering.SortedElementsSnoc | game_solver.py:24 | Adding one more weight to a set gives the sorted distinct list with that weight inserted. This is the step of the loop. |
| GameSolver.Solver.AssessWeighing | game_solver.py:28-31 | The remaining vectors become exactly the old ones whose result matches the observed one, in order. The solver's invariant, including the recomputed per-ball weights, is kept. |
| Beliefs.FilterSpec | game_solver.py:29-30 | The kept list is a subsequence of the old one and no longer. Every old vector with the observed result is kept, and every kept vector has that result. |
| Beliefs.TruthSurvives | game_solver.py:29-30 | The true vector, if present, survives filtering by its own result. |
| Beliefs.FilterPartition | game_solver.py:29-30 | The three results split the vectors: the kept sizes for LEFT, EQUAL and RIGHT sum to the old size. |
| Beliefs.ReplayKeepsTruth | game_solver.py:28-31 | Over any sequence of weighings answered truthfully, the true vector is never discarded. |
| Beliefs.SubsequenceTransitive | game_solver.py:28-31 | Repeated filtering stays a subsequence of the universe. |
| Beliefs.CompactSolution | game_solver.py:110-114 | A vector with no abnormal weight has no compact form. Otherwise the result is the first non-normal index and its weight. |
| Beliefs.CompactOfAssignment | game_solver.py:110-114 | The compact form of the vector built from (i, a) is (i, a). |
| GameSolver.RemainingCompact | game_solver.py:106-114 | Any vector the solver may hold has a compact form. Its ball is in range, its direction is one of the rule set's, and the vector is rebuilt from that pair. |
| GameSolver.Solver.GuessSolution | game_solver.py:95-108 | With no vectors left there is no guess. Otherwise the guess is the compact form of the picked vector, a valid pair of the rule set, with conviction `1 / number left`. |
| Signatures.Signature | game_solver.py:33-34 | The signature is sorted and is a permutation of the balls' per-ball entries. |
| Signatures.SignatureEqIff | game_solver.py:33-34 | Two ball lists have the same signature iff their per-ball entries are equal as multisets. |
| Signatures.SignatureOrderIndependent | game_solver.py:33-34 | Reordering the balls does not change the signature. |
| Ordering.SortSeqs | game_solver.py:34 | `sorted` on tuples: the result is lexicographically sorted and is a permutation of the input. |
| Ordering.SortedSeqsUnique | game_solver.py:34 | Two sorted permutations of the same multiset are equal, so the signature is well defined. |
| GameSolver.Solver.GetUniqueSignatureCombinations | game_solver.py:36-49 | The loop filling the dictionary returns the specification's entries, in insertion order. |
| Signatures.UniqueCombinationsShape | game_solver.py:36-49 | Each entry is a strictly increasing `n_choose`-subset of the balls, and entries come in lexicographic order. With the rest considered, each entry is a split whose rest is the other balls. |
| Signatures.UniqueCombinationsDistinct | game_solver.py:36-49 | The entries are combinations with pairwise different signatures. |
| Signatures.UniqueCombinationsFirst | game_solver.py:36-49 | Each entry is the first combination in enumeration order with its signature. |
| Signatures.UniqueCombinationsCover | game_solver.py:36-49 | Every combination is accounted for: an entry has its signature, or, with the rest considered, an entry has its rest's signature. |
| Signatures.UniqueCombinationsNonEmpty | game_solver.py:36-49 | If at most as many balls are chosen as there are, the result is not empty. |
| Signatures.RestDetermined | game_solver.py:43-44 | Two subsets of the balls with equal signatures have rests with equal signatures. |
| Signatures.SplitPartition | game_solver.py:43 | A subset and its rest partition the balls. |
| Signatures.DedupOrdered | game_solver.py:37-48 | The dictionary's entries come from increasing enumeration positions. |
| Signatures.DedupDistinct | game_solver.py:37-48 | No signature is a key twice. |
| Signatures.DedupCovers | game_solver.py:37-48 | Every position's signature, or with rests its rest's signature, ends up a key. |
| Signatures.DedupFirst | game_solver.py:37-48 | No earlier position has a key's signature, provided rests follow signatures. |
| Itertools.CombinationsCount | game_solver.py:38 | There are C(n, k) combinations. |
| Itertools.CombinationsSound | game_solver.py:38 | Each combination is a strictly increasing k-list drawn from the input. |
| Itertools.CombinationsComplete | game_solver.py:38 | Every strictly increasing k-list drawn from the input is a combination. |
| Itertools.CombinationsLexOrdered | game_solver.py:38 | Combinations come in strictly increasing lexicographic order. |
| Itertools.CombinationsFirst | game_solver.py:38 | When k <= n there is a combination, and the first is the first k elements. |
| GameSolver.Solver.YieldAllCandidateWeighings | game_solver.py:51-59 | The loop over unweighed counts returns the specification's candidate list. |
| GameSolver.Solver.YieldForUnweighed | game_solver.py:55-59 | For one count of unweighed balls, it returns the candidates of every unweighed set, in order. |
| GameSolver.Solver.YieldSplits | game_solver.py:57-59 | For one set of weighed balls, it returns the weighings from the deduplicated splits. |
| Candidates.CandidatesProper | game_solver.py:51-59 | Every candidate has equal plates of size at least 1, each strictly increasing, disjoint, and drawn from the game's balls. |
| Candidates.ProperPlatesBound | game_solver.py:58 | Two such plates together hold at most `n_balls` balls. |
| Candidates.CandidatesDistinct | game_solver.py:51-59 | No two candidates have the same pair of plate signatures (left, right): sets of unweighed balls differ in signature, splits of one set differ in their left plate's signature, and plate sizes differ between numbers of unweighed balls. |
| Candidates.CandidatesNonEmptyIff | game_solver.py:52-54 | There is a candidate iff there are at least 2 balls. |
| Candidates.WeighedCount | game_solver.py:57 | The weighed balls are the other `n - u` balls, in increasing order. |
| GameSolver.Solver.RankWeighing | game_solver.py:62-70 | The frequency loop, sorting and padding give the specification's rank of the weighing. |
| Ranking.RankSpec | game_solver.py:62-70 | The rank's first part is three descending, non-negative sizes that sum to the number of vectors. It is a permutation of the three bucket sizes. The second part is the left plate's size. |
| Ranking.FrequenciesSpec | game_solver.py:63-66 | The dictionary holds each seen result once, with the size of its bucket. The unseen results have empty buckets. |
| Ranking.RankLessIrreflexive | game_solver.py:87 | Python's `<` on (list, int) pairs is irreflexive. |
| Ranking.RankLessTransitive | game_solver.py:87 | It is transitive. |
| Ranking.RankTotal | game_solver.py:87 | Any two ranks are equal or one is less. |
| Ranking.RankBeatsInitial | game_solver.py:78 | Every candidate's rank is below the starting rank, so the first candidate is always taken. |
| GameSolver.Solver.ChooseWeighing | game_solver.py:61-93 | There is no weighing iff there are fewer than 2 balls. Otherwise the result is the candidate at an index i where no candidate ranks strictly lower and every earlier candidate ranks strictly higher. |
| GameSolver.RankStillBest | game_solver.py:87-90 | A candidate strictly better than the best so far is strictly better than all earlier ones, and no earlier one beats it. |
| GameSolver.FirstBestUnique | game_solver.py:83-90 | At most one index meets that description: the tie-break is the first. |
| GameSolver.FirstBestMinimal | game_solver.py:83-90 | The chosen rank's bucket sizes are lexicographically least among all candidates. In particular its largest bucket is the smallest worst case. |
| Ordering.NoDuplicatesIffSetSize | game_oracle.py:32 | A list has no repeated element iff its set is as long as the list. |
| Ordering.RangeSpec | game_solver.py:12 | `range(n)` is strictly increasing and holds exactly 0..n-1. |

## Left out

- `main.py` is not part of this model. It is the driver that sequences turns and averages float convictions.
- Text output is not modelled:
  - `describe_game`, `solution2str` and `ANOMALY_TO_ADJECTIVE`;
  - `RESULT_TO_TEXT` and `print_possible_solutions`;
  - every `show_reasoning` branch and `scoring2str`.
- The oracle's random secret (game_oracle.py:16-18) is left out. Only the explicit-choice construction is modelled.
- GameSolver.Solver.GuessSolution: the pick from `random.choice` is a parameter `pick`, required to index the list when the list is non-empty.
- GameSolver.Solver.GuessSolution: the float conviction `1. / n` is the exact real `1 / n`, so rounding is not modelled.
- GameSolver.Solver.GuessSolution: with no vectors left, Python raises from `random.choice`; the model returns `None`.
- GameSolver.Solver.AssessWeighing: plates with a ball outside 0..n-1 are excluded by `requires`. In Python an index of n or more raises `IndexError`, and an index from -n to -1 silently reads the ball counted from the end (game_rules.py:45-46). The solver weighs only its own candidates, which are in range.
- GameSolver.Solver.RankWeighing: plates with a ball outside 0..n-1 are excluded by `requires`, as for AssessWeighing, so neither the `IndexError` nor the negative-index wrap-around is modelled. The solver ranks only its own candidates, which are in range.
- GameSolver.Solver.ChooseWeighing: the result is stated as the unique first best candidate (FirstBest), not by the weighing number the source also records for printing.
- Generators (`yield_all_candidate_weighings`, `itertools.combinations`, `dict.values()`) are modelled as the lists they produce. Laziness is not modelled.
- The nested generator of `yield_all_candidate_weighings` is split into three methods: YieldAllCandidateWeighings, YieldForUnweighed and YieldSplits.
- The `range(min, n - 2 + 1, 2)` guard is written `u + 2 <= n`.
- Per-ball sets are modelled as strictly increasing lists, and a dictionary as parallel key and value lists in insertion order.
- `GameRules.NewRules` models the source's assertion failures as one error value. The redundant checks at game_rules.py:19-22 are implied by the two lists the constructor builds.
- The test functions (`test_oracle`, `test_solver`) are print harnesses. The oracle scenario of `test_oracle` is stated as GameOracle.TwelveBallScenario. `test_solver` calls a `rank_weighing` method that does not exist outside `choose_weighing`, so nothing is derived from it.

## Notes on the code

- With the rest considered, `get_unique_signature_combinations` skips a combination when its signature is already a key, or when its rest's signature is already a key (game_solver.py:40-46). A combination is skipped as soon as either signature is already a key; it does not need both.
- The oracle accepts an explicit secret whose direction is LIGHTER or HEAVIER even when the rule set allows only HEAVIER (game_oracle.py:23). Beliefs.SecretInUniverseIff states when such a secret is among the solver's vectors.
