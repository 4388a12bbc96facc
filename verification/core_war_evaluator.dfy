/** The fitness function of src/CoreWarEvaluator.cpp: the genome is written
    out as a warrior once, matched against a fixed roster of three opponents,
    each match result is turned into one score, and the scores are reduced to
    mean - VARIANCE_LAMBDA * population variance. The battle simulator is an
    opaque parameter: it receives the warrior text and an opponent path and
    returns a match result. */
module CoreWarEvaluator {
  import opened Config
  import opened Statistics
  import opened WarriorEncoder

  /** One match as reported by the simulator (include/CoreWarEvaluator.h). */
  datatype MatchResult = MatchResult(myScore: int, oppScore: int, wins: int, ties: int, losses: int)

  /** The value a match result holds before anything is read from the report. */
  const UnsetResult: MatchResult := MatchResult(0, 0, 0, 0, 0)

  /** Bonus per won round and penalty per lost round. */
  const WIN_WEIGHT: real := 5.0

  /** The opponents, in the order they are played. */
  const Opponents: seq<string> := ["../warriors/dwarf.red", "../warriors/Imp.red", "../warriors/paper.red"]

  /** The battle simulator: warrior text and opponent path to match result. */
  type Simulator = (string, string) -> MatchResult

  /** Score of one match: score difference plus WIN_WEIGHT per won round
      minus WIN_WEIGHT per lost round. */
  function OpponentScore(r: MatchResult): real {
    (r.myScore - r.oppScore) as real + WIN_WEIGHT * r.wins as real - WIN_WEIGHT * r.losses as real
  }

  /** One score per match result, in roster order. */
  function Scores(results: seq<MatchResult>): (s: seq<real>)
    ensures |s| == |results|
    ensures forall i :: 0 <= i < |results| ==> s[i] == OpponentScore(results[i])
  {
    MapSeq(results, OpponentScore)
  }

  /** The match results of one evaluation: every opponent of the roster,
      in order, against the same warrior text. */
  function MatchResults(g: Genome, sim: Simulator): (rs: seq<MatchResult>)
    requires ValidGenome(g)
    ensures |rs| == |Opponents|
    ensures forall i :: 0 <= i < |Opponents| ==> rs[i] == sim(WarriorText(g), Opponents[i])
  {
    MapSeq(Opponents, opp => sim(WarriorText(g), opp))
  }

  /** The fitness reduction of a list of match results. */
  function ResultsFitness(results: seq<MatchResult>): real
    requires |results| > 0
  {
    PenalisedFitness(Scores(results))
  }

  /** The first loop of evaluateFitness: one match per opponent, in roster
      order, collecting each score and their running sum. */
  method PlayRoster(program: string, sim: Simulator) returns (scores: seq<real>, sum: real)
    ensures |scores| == |Opponents|
    ensures forall i :: 0 <= i < |Opponents| ==> scores[i] == OpponentScore(sim(program, Opponents[i]))
    ensures sum == Sum(scores)
  {
    scores := [];
    sum := 0.0;
    var k := 0;
    while k < |Opponents|
      invariant 0 <= k <= |Opponents| && |scores| == k
      invariant forall i :: 0 <= i < k ==> scores[i] == OpponentScore(sim(program, Opponents[i]))
      invariant sum == Sum(scores)
    {
      var r := sim(program, Opponents[k]);
      var f := (r.myScore - r.oppScore) as real + WIN_WEIGHT * r.wins as real - WIN_WEIGHT * r.losses as real;
      SumSnoc(scores, f);
      scores := scores + [f];
      sum := sum + f;
      k := k + 1;
    }
  }

  /** The second loop of evaluateFitness: squared deviations from the mean,
      summed and divided by the number of scores. */
  method PopulationVariance(scores: seq<real>, mean: real) returns (variance: real)
    requires |scores| > 0 && mean == Mean(scores)
    ensures variance == Variance(scores)
  {
    ghost var deviations := MapSeq(scores, SquaredDeviationFrom(mean));
    variance := 0.0;
    var k := 0;
    while k < |scores|
      invariant 0 <= k <= |scores|
      invariant variance == Sum(deviations[..k])
    {
      var d := (scores[k] - mean) * (scores[k] - mean);
      assert deviations[k] == Square(scores[k] - mean) == d;
      assert deviations[..k + 1] == deviations[..k] + [d];
      SumSnoc(deviations[..k], d);
      variance := variance + d;
      k := k + 1;
    }
    assert deviations[..k] == deviations;
    variance := variance / |scores| as real;
  }

  /** evaluateFitness: write the warrior once, play the roster, then reduce
      the scores to mean - VARIANCE_LAMBDA * variance. */
  method EvaluateFitness(g: Genome, sim: Simulator) returns (fitness: real)
    requires ValidGenome(g)
    ensures fitness == ResultsFitness(MatchResults(g, sim))
    ensures fitness <= Mean(Scores(MatchResults(g, sim)))
  {
    var program := WriteWarrior(g);
    var scores, sum := PlayRoster(program, sim);
    assert scores == Scores(MatchResults(g, sim));
    var mean := sum / |scores| as real;
    var variance := PopulationVariance(scores, mean);
    fitness := mean - VARIANCE_LAMBDA * variance;
  }

  // ---------------------------------------------------------------------
  // Lemmas

  /** A result left at its initial value contributes nothing. */
  lemma UnsetResultScoresZero()
    ensures OpponentScore(UnsetResult) == 0.0
  {
  }

  /** Ties do not count towards the score. */
  lemma TiesIgnored(r: MatchResult, ties: int)
    ensures OpponentScore(r.(ties := ties)) == OpponentScore(r)
  {
  }

  /** Seen from the other side (scores and wins/losses swapped) a match
      scores the negation. */
  lemma ScoreAntisymmetric(r: MatchResult)
    ensures OpponentScore(MatchResult(r.oppScore, r.myScore, r.losses, r.ties, r.wins)) == -OpponentScore(r)
  {
  }

  /** One more won round (all else equal) raises the score by WIN_WEIGHT. */
  lemma OneMoreWin(r: MatchResult)
    ensures OpponentScore(r.(wins := r.wins + 1)) == OpponentScore(r) + WIN_WEIGHT
  {
  }

  /** The roster has three distinct opponents. */
  lemma RosterFixed()
    ensures |Opponents| == 3
    ensures Opponents[0] != Opponents[1] && Opponents[1] != Opponents[2] && Opponents[0] != Opponents[2]
  {
  }

  /** The order in which the matches are reported does not change the fitness. */
  lemma ResultOrderIrrelevant(results: seq<MatchResult>, reordered: seq<MatchResult>)
    requires |results| > 0
    requires multiset(results) == multiset(reordered)
    ensures |reordered| == |results|
    ensures ResultsFitness(reordered) == ResultsFitness(results)
  {
    MapSeqPermutation(results, reordered, OpponentScore);
    PermutationInvariant(Scores(results), Scores(reordered));
  }

  /** When every match scores the same, there is no penalty and the fitness
      is that common score; otherwise the fitness is strictly below the mean. */
  lemma EqualScoresNoPenalty(results: seq<MatchResult>)
    requires |results| > 0
    ensures AllEqual(Scores(results)) ==> ResultsFitness(results) == OpponentScore(results[0])
    ensures !AllEqual(Scores(results)) ==> ResultsFitness(results) < Mean(Scores(results))
  {
    VarianceZeroIffAllEqual(Scores(results));
  }

  /** The fitness never exceeds the best per-opponent score. */
  lemma FitnessAtMostBestScore(results: seq<MatchResult>, best: real)
    requires |results| > 0
    requires forall i :: 0 <= i < |results| ==> OpponentScore(results[i]) <= best
    ensures ResultsFitness(results) <= best
  {
    MeanAtMost(Scores(results), best);
  }
}
