/** The evaluation step of the method extractor: score the stored pool, rank
    it highest first, and publish it as answer records for "how". */
module Evaluation {
  import opened Wrappers
  import opened Annotations
  import opened Scoring
  import opened Ranking
  import opened Format

  /** The top of a descending ranking of a pool scored by `Score` is 1. */
  lemma RankedTopIsOne(pool: seq<Candidate>, m: LemmaMap, n: nat)
    requires Score(pool, m, n).Success? && |pool| > 0
    ensures |SortByScore(Score(pool, m, n).value)| == |pool|
    ensures SortByScore(Score(pool, m, n).value)[0].score == 1.0
  {
    var scored := Score(pool, m, n).value;
    var ranked := SortByScore(scored);
    SortByScoreSorted(scored);
    SortByScorePermutes(scored);
    ScoreReachesOne(pool, m, n);
    ScoreInUnitInterval(pool, m, n);
    var k :| 0 <= k < |pool| && scored[k].score == 1.0;
    assert scored[k] in multiset(ranked);
    var j :| 0 <= j < |ranked| && ranked[j] == scored[k];
    assert ranked[0] in multiset(scored);
    var top :| 0 <= top < |scored| && scored[top] == ranked[0];
    if j > 0 {
      assert ranked[j].score <= ranked[0].score;
    }
  }

  /** The ranking of a scored pool keeps its length, is ordered highest
      first, never exceeds 1, and is positive for a well-formed pool. */
  lemma RankedBounds(pool: seq<Candidate>, m: LemmaMap, n: nat)
    requires Score(pool, m, n).Success?
    ensures var ranked := SortByScore(Score(pool, m, n).value);
            && |ranked| == |pool|
            && SortedDescending(ranked)
            && (forall i :: 0 <= i < |ranked| ==> ranked[i].score <= 1.0)
            && (WellFormed(pool, n) ==> forall i :: 0 <= i < |ranked| ==> 0.0 < ranked[i].score)
  {
    var scored := Score(pool, m, n).value;
    var ranked := SortByScore(scored);
    SortByScoreSorted(scored);
    SortByScorePermutes(scored);
    ScoreInUnitInterval(pool, m, n);
    forall i | 0 <= i < |ranked|
      ensures ranked[i].score <= 1.0
      ensures WellFormed(pool, n) ==> 0.0 < ranked[i].score
    {
      assert ranked[i] in multiset(scored);
      var k :| 0 <= k < |scored| && scored[k] == ranked[i];
    }
  }

  /** Scores, ranks and publishes the pool. */
  method EvaluateCandidates(pool: seq<Candidate>, m: LemmaMap, n: nat) returns (r: Result<seq<Answer>, EvalError>)
    ensures r.Failure? <==> Score(pool, m, n).Failure?
    ensures r.Failure? ==> r.error == Score(pool, m, n).error
    ensures r.Success? ==> |r.value| == |pool|
    ensures r.Success? ==> forall i :: 0 <= i < |pool| ==> r.value[i] == AnswerOf(SortByScore(Score(pool, m, n).value)[i])
    ensures r.Success? ==> forall i, j :: 0 <= i < j < |r.value| ==> r.value[j].score <= r.value[i].score
    ensures r.Success? ==> forall i :: 0 <= i < |r.value| ==> r.value[i].score <= 1.0
    ensures r.Success? && WellFormed(pool, n) ==> forall i :: 0 <= i < |r.value| ==> 0.0 < r.value[i].score
    ensures r.Success? && |pool| > 0 ==> r.value[0].score == 1.0
  {
    var scoring := Score(pool, m, n);
    if scoring.Failure? {
      return Failure(scoring.error);
    }
    var ranked := SortByScore(scoring.value);
    RankedBounds(pool, m, n);
    if |pool| > 0 {
      RankedTopIsOne(pool, m, n);
    }
    var answers := FixFormat(ranked);
    r := Success(answers);
  }
}
