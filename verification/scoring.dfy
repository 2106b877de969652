/** The scorer of the method extractor. Each candidate gets the largest
    document frequency of its lemmas (stop words count 0), normalised by the
    pool's largest such count; a position weight that favours earlier
    sentences; and the equally weighted mean of the two, finally divided by
    the pool's largest mean. The exceptions the scorer can raise (a lemma
    missing from the frequency map, a division by zero) are `Failure`s. */
module Scoring {
  import opened Wrappers
  import opened Annotations

  /** Weight of the position feature (first entry of the weights list). */
  const PositionWeight: real := 1.0
  /** Weight of the frequency feature (second entry of the weights list). */
  const FrequencyWeight: real := 1.0

  /** Lemma to its number of occurrences in the document. */
  type LemmaMap = map<string, nat>

  datatype EvalError =
    | MissingLemma(lemmaForm: string)  // lookup of a non-stop lemma absent from the map
    | ZeroLemmaMax                     // every candidate's lemma count is 0
    | NoSentences                      // the document has no sentences
    | ZeroScoreMax                     // no raw score is positive

  /** The three named metrics of a candidate. */
  datatype Calculations = Calculations(lemmaCount: nat, lemmaCountNorm: real, positionNorm: real)

  /** A candidate with its metrics and final score. */
  datatype Scored = Scored(candidate: Candidate, calculations: Calculations, score: real)

  /** The frequency of a part's lemma can be looked up: it is a stop word or
      the map has it. */
  predicate KnownLemma(p: Part, m: LemmaMap) {
    p.token.lemmaForm in StopWords || p.token.lemmaForm in m
  }

  predicate PartsKnown(parts: seq<Part>, m: LemmaMap) {
    forall j :: 0 <= j < |parts| ==> KnownLemma(parts[j], m)
  }

  predicate PoolKnown(pool: seq<Candidate>, m: LemmaMap) {
    forall i :: 0 <= i < |pool| ==> PartsKnown(pool[i].parts, m)
  }

  /** Every candidate comes from a sentence of the document. */
  predicate WellFormed(pool: seq<Candidate>, n: nat) {
    forall i :: 0 <= i < |pool| ==> 0 <= pool[i].sentenceIndex < n
  }

  /** The frequency a part contributes: 0 for a stop word. */
  function PartWeight(p: Part, m: LemmaMap): nat
    requires KnownLemma(p, m)
  {
    if p.token.lemmaForm in StopWords then 0 else m[p.token.lemmaForm]
  }

  /** The candidate's lemma count: the running maximum over its parts,
      starting from 0. */
  function LemmaCount(parts: seq<Part>, m: LemmaMap): (r: nat)
    requires PartsKnown(parts, m)
    ensures forall j :: 0 <= j < |parts| ==> PartWeight(parts[j], m) <= r
    ensures |parts| == 0 ==> r == 0
    ensures |parts| > 0 ==> exists j :: 0 <= j < |parts| && r == PartWeight(parts[j], m)
  {
    if |parts| == 0 then 0
    else
      var before := LemmaCount(parts[..|parts| - 1], m);
      var w := PartWeight(parts[|parts| - 1], m);
      if w > before then w else before
  }

  /** Position of the first part (in order) whose lemma cannot be looked up. */
  function FirstUnknown(parts: seq<Part>, m: LemmaMap): (r: Option<nat>)
    ensures r.None? <==> PartsKnown(parts, m)
    ensures r.Some? ==> && r.value < |parts|
                        && !KnownLemma(parts[r.value], m)
                        && forall j :: 0 <= j < r.value ==> KnownLemma(parts[j], m)
  {
    if |parts| == 0 then None
    else if !KnownLemma(parts[0], m) then Some(0)
    else match FirstUnknown(parts[1..], m)
      case None => None
      case Some(k) => Some(k + 1)
  }

  /** Candidate and part position of the first lookup that fails, scanning
      candidates in order and each candidate's parts in order. */
  function FirstUnknownInPool(pool: seq<Candidate>, m: LemmaMap): (r: Option<(nat, nat)>)
    ensures r.None? <==> PoolKnown(pool, m)
    ensures r.Some? ==> && r.value.0 < |pool|
                        && r.value.1 < |pool[r.value.0].parts|
                        && !KnownLemma(pool[r.value.0].parts[r.value.1], m)
                        && (forall i :: 0 <= i < r.value.0 ==> PartsKnown(pool[i].parts, m))
                        && (forall j :: 0 <= j < r.value.1 ==> KnownLemma(pool[r.value.0].parts[j], m))
  {
    if |pool| == 0 then None
    else match FirstUnknown(pool[0].parts, m)
      case Some(j) => Some((0, j))
      case None =>
        match FirstUnknownInPool(pool[1..], m)
        case None => None
        case Some(at) => Some((at.0 + 1, at.1))
  }

  /** Largest element, or 0 when there is none or all are 0. */
  function MaxCount(counts: seq<nat>): (r: nat)
    ensures forall i :: 0 <= i < |counts| ==> counts[i] <= r
    ensures r == 0 || exists i :: 0 <= i < |counts| && counts[i] == r
  {
    if |counts| == 0 then 0
    else
      var before := MaxCount(counts[..|counts| - 1]);
      var c := counts[|counts| - 1];
      if c > before then c else before
  }

  /** Running maximum starting from 0: the largest element when one is
      positive, else 0. */
  function MaxScore(scores: seq<real>): (r: real)
    ensures r >= 0.0
    ensures forall i :: 0 <= i < |scores| ==> scores[i] <= r
    ensures r == 0.0 || exists i :: 0 <= i < |scores| && scores[i] == r
  {
    if |scores| == 0 then 0.0
    else
      var before := MaxScore(scores[..|scores| - 1]);
      var s := scores[|scores| - 1];
      if s > before then s else before
  }

  /** Lemma count of every candidate of the pool. */
  function LemmaCounts(pool: seq<Candidate>, m: LemmaMap): seq<nat>
    requires PoolKnown(pool, m)
  {
    seq(|pool|, i requires 0 <= i < |pool| => LemmaCount(pool[i].parts, m))
  }

  /** The largest lemma count of the pool. */
  function GlobalMaxLemma(pool: seq<Candidate>, m: LemmaMap): nat
    requires PoolKnown(pool, m)
  {
    MaxCount(LemmaCounts(pool, m))
  }

  /** Lemma count relative to the pool's largest. */
  function LemmaNorm(count: nat, globalMax: nat): (r: real)
    requires globalMax > 0
    ensures 0.0 <= r
    ensures count <= globalMax ==> r <= 1.0
    ensures r == 1.0 <==> count == globalMax
  {
    count as real / globalMax as real
  }

  /** Position weight of a sentence among `n`: 1 for the first, 1/n for the last. */
  function PositionNorm(n: nat, sentenceIndex: int): (r: real)
    requires n > 0
    ensures 0 <= sentenceIndex < n ==> 0.0 < r <= 1.0
    ensures r == 1.0 <==> sentenceIndex == 0
  {
    (n - sentenceIndex) as real / n as real
  }

  /** Weighted mean of the two normalised features: it lies between them,
      so two features in (0, 1] give a raw score in (0, 1] that is 1 exactly
      when both are 1. */
  function RawScore(c: Calculations): (r: real)
    ensures c.lemmaCountNorm <= c.positionNorm ==> c.lemmaCountNorm <= r <= c.positionNorm
    ensures c.positionNorm <= c.lemmaCountNorm ==> c.positionNorm <= r <= c.lemmaCountNorm
    ensures c.lemmaCountNorm <= 1.0 && c.positionNorm <= 1.0 ==>
              (r == 1.0 <==> c.lemmaCountNorm == 1.0 && c.positionNorm == 1.0)
  {
    (c.lemmaCountNorm * FrequencyWeight + c.positionNorm * PositionWeight) / (PositionWeight + FrequencyWeight)
  }

  /** The metrics of one candidate, given the pool's largest lemma count and
      the number of sentences. */
  function CalculationsOf(c: Candidate, m: LemmaMap, globalMax: nat, n: nat): (r: Calculations)
    requires PartsKnown(c.parts, m) && LemmaCount(c.parts, m) <= globalMax && 0 < globalMax && 0 < n
    ensures forall j :: 0 <= j < |c.parts| ==> PartWeight(c.parts[j], m) <= r.lemmaCount
    ensures |c.parts| > 0 ==> exists j :: 0 <= j < |c.parts| && PartWeight(c.parts[j], m) == r.lemmaCount
    ensures |c.parts| == 0 ==> r.lemmaCount == 0
    ensures 0.0 <= r.lemmaCountNorm <= 1.0
    ensures r.lemmaCountNorm == 1.0 <==> r.lemmaCount == globalMax
    ensures 0 <= c.sentenceIndex < n ==> 0.0 < r.positionNorm <= 1.0 && 0.0 < RawScore(r) <= 1.0
  {
    var count := LemmaCount(c.parts, m);
    Calculations(count, LemmaNorm(count, globalMax), PositionNorm(n, c.sentenceIndex))
  }

  /** Of two candidates with the same lemma count, the one from the earlier
      sentence has the strictly higher raw score. */
  lemma RawScorePositionMonotone(a: Candidate, b: Candidate, m: LemmaMap, globalMax: nat, n: nat)
    requires PartsKnown(a.parts, m) && PartsKnown(b.parts, m)
    requires LemmaCount(a.parts, m) == LemmaCount(b.parts, m) <= globalMax && 0 < globalMax && 0 < n
    requires a.sentenceIndex < b.sentenceIndex
    ensures RawScore(CalculationsOf(b, m, globalMax, n)) < RawScore(CalculationsOf(a, m, globalMax, n))
  {
    PositionNormDecreasing(n, a.sentenceIndex, b.sentenceIndex);
  }

  /** Of two candidates from the same sentence, the one with the higher lemma
      count never has the lower raw score. */
  lemma RawScoreLemmaMonotone(a: Candidate, b: Candidate, m: LemmaMap, globalMax: nat, n: nat)
    requires PartsKnown(a.parts, m) && PartsKnown(b.parts, m)
    requires LemmaCount(b.parts, m) <= LemmaCount(a.parts, m) <= globalMax && 0 < globalMax && 0 < n
    requires a.sentenceIndex == b.sentenceIndex
    ensures RawScore(CalculationsOf(b, m, globalMax, n)) <= RawScore(CalculationsOf(a, m, globalMax, n))
  {
    LemmaNormMonotone(LemmaCount(b.parts, m), LemmaCount(a.parts, m), globalMax);
  }

  /** Every element divided by `d`. */
  function DivideAll(raws: seq<real>, d: real): seq<real>
    requires d != 0.0
  {
    seq(|raws|, i requires 0 <= i < |raws| => raws[i] / d)
  }

  lemma {:induction false} NormalizeFacts(raws: seq<real>)
    requires 0.0 < MaxScore(raws)
    ensures var r := DivideAll(raws, MaxScore(raws));
            && (forall i :: 0 <= i < |raws| ==> r[i] <= 1.0 && (0.0 < raws[i] ==> 0.0 < r[i]))
            && (forall i :: 0 <= i < |raws| ==> (r[i] == 1.0 <==> forall j :: 0 <= j < |raws| ==> raws[j] <= raws[i]))
            && (exists i :: 0 <= i < |raws| && r[i] == 1.0)
            && (forall i, j :: 0 <= i < |raws| && 0 <= j < |raws| && raws[i] < raws[j] ==> r[i] < r[j])
  {
    var d := MaxScore(raws);
    var r := DivideAll(raws, d);
    var top :| 0 <= top < |raws| && raws[top] == d;
    forall i | 0 <= i < |raws|
      ensures r[i] <= 1.0 && (0.0 < raws[i] ==> 0.0 < r[i])
      ensures r[i] == 1.0 <==> forall j :: 0 <= j < |raws| ==> raws[j] <= raws[i]
    {
      DivideByMax(raws[i], d);
      if r[i] != 1.0 {
        assert raws[i] < raws[top];
      }
    }
    DivideByMax(raws[top], d);
    assert r[top] == 1.0;
    forall i, j | 0 <= i < |raws| && 0 <= j < |raws| && raws[i] < raws[j]
      ensures r[i] < r[j]
    {
      DivideKeepsOrder(raws[i], raws[j], d);
    }
  }

  /** The final normalisation: every raw score divided by the largest one.
      An empty sequence divides nothing and succeeds; otherwise it fails
      exactly when no raw score is positive, since the running maximum then
      stays at its initial 0. */
  function Normalize(raws: seq<real>): (r: Option<seq<real>>)
    ensures r.None? <==> |raws| > 0 && forall i :: 0 <= i < |raws| ==> raws[i] <= 0.0
    ensures r.Some? ==> |r.value| == |raws|
    ensures r.Some? ==> forall i :: 0 <= i < |raws| ==> r.value[i] <= 1.0 && (0.0 < raws[i] ==> 0.0 < r.value[i])
    ensures r.Some? ==> forall i :: 0 <= i < |raws| ==>
                          (r.value[i] == 1.0 <==> forall j :: 0 <= j < |raws| ==> raws[j] <= raws[i])
    ensures r.Some? && |raws| > 0 ==> exists i :: 0 <= i < |raws| && r.value[i] == 1.0
    ensures r.Some? ==> forall i, j :: 0 <= i < |raws| && 0 <= j < |raws| && raws[i] < raws[j] ==> r.value[i] < r.value[j]
  {
    var scoreMax := MaxScore(raws);
    if |raws| == 0 then Some([])
    else if scoreMax == 0.0 then None
    else
      NormalizeFacts(raws);
      Some(DivideAll(raws, scoreMax))
  }

  /** The metrics of every candidate of the pool. */
  function Calculate(pool: seq<Candidate>, m: LemmaMap, n: nat): (r: seq<Calculations>)
    requires PoolKnown(pool, m) && GlobalMaxLemma(pool, m) > 0 && n > 0
    ensures |r| == |pool|
  {
    var globalMax := GlobalMaxLemma(pool, m);
    seq(|pool|, i requires 0 <= i < |pool| =>
          assert LemmaCounts(pool, m)[i] == LemmaCount(pool[i].parts, m);
          CalculationsOf(pool[i], m, globalMax, n))
  }

  /** Raw score of every candidate of the pool. */
  function RawScores(pool: seq<Candidate>, m: LemmaMap, n: nat): (r: seq<real>)
    requires PoolKnown(pool, m) && GlobalMaxLemma(pool, m) > 0 && n > 0
    ensures |r| == |pool|
  {
    var calcs := Calculate(pool, m, n);
    seq(|pool|, i requires 0 <= i < |pool| => RawScore(calcs[i]))
  }

  /** Scores the pool, in pool order. The failures appear in the order the
      extractor's passes would raise them. */
  function Score(pool: seq<Candidate>, m: LemmaMap, n: nat): (r: Result<seq<Scored>, EvalError>)
    ensures |pool| == 0 ==> r == Success([])
    ensures (r.Failure? && r.error.MissingLemma?) <==> |pool| > 0 && !PoolKnown(pool, m)
    ensures r.Failure? && r.error.MissingLemma? ==>
              var at := FirstUnknownInPool(pool, m).value;
              r.error.lemmaForm == pool[at.0].parts[at.1].token.lemmaForm
    ensures r == Failure(ZeroLemmaMax) <==> |pool| > 0 && PoolKnown(pool, m) && GlobalMaxLemma(pool, m) == 0
    ensures r == Failure(NoSentences) <==> |pool| > 0 && PoolKnown(pool, m) && GlobalMaxLemma(pool, m) > 0 && n == 0
    ensures r == Failure(ZeroScoreMax) <==> |pool| > 0 && PoolKnown(pool, m) && GlobalMaxLemma(pool, m) > 0 && n > 0
                                            && forall i :: 0 <= i < |pool| ==> RawScores(pool, m, n)[i] <= 0.0
    ensures r.Success? ==> |r.value| == |pool| && forall i :: 0 <= i < |pool| ==> r.value[i].candidate == pool[i]
  {
    if |pool| == 0 then Success([])
    else match FirstUnknownInPool(pool, m)
      case Some(at) => Failure(MissingLemma(pool[at.0].parts[at.1].token.lemmaForm))
      case None =>
        if GlobalMaxLemma(pool, m) == 0 then Failure(ZeroLemmaMax)
        else if n == 0 then Failure(NoSentences)
        else
          match Normalize(RawScores(pool, m, n))
          case None => Failure(ZeroScoreMax)
          case Some(finals) => Success(Attach(pool, Calculate(pool, m, n), finals))
  }

  /** Pairs every candidate with its metrics and final score. */
  function Attach(pool: seq<Candidate>, calcs: seq<Calculations>, finals: seq<real>): (r: seq<Scored>)
    requires |calcs| == |pool| && |finals| == |pool|
    ensures |r| == |pool|
    ensures forall i :: 0 <= i < |pool| ==> r[i] == Scored(pool[i], calcs[i], finals[i])
  {
    seq(|pool|, i requires 0 <= i < |pool| => Scored(pool[i], calcs[i], finals[i]))
  }

  /** Later sentences weigh strictly less. */
  lemma PositionNormDecreasing(n: nat, earlier: int, later: int)
    requires n > 0 && earlier < later
    ensures PositionNorm(n, later) < PositionNorm(n, earlier)
  {
    DivideKeepsOrder((n - later) as real, (n - earlier) as real, n as real);
  }

  /** A higher lemma count never normalises lower. */
  lemma LemmaNormMonotone(a: nat, b: nat, globalMax: nat)
    requires globalMax > 0 && a <= b
    ensures LemmaNorm(a, globalMax) <= LemmaNorm(b, globalMax)
  {
    if a < b {
      DivideKeepsOrder(a as real, b as real, globalMax as real);
    }
  }

  /** Dividing by a positive maximum keeps the order. */
  lemma DivideKeepsOrder(a: real, b: real, d: real)
    requires d > 0.0 && a < b
    ensures a / d < b / d
  {
    assert b / d - a / d == (b - a) / d;
  }

  /** A value divided by a positive maximum at least as large is at most 1,
      is 1 exactly at the maximum, and keeps its sign. */
  lemma DivideByMax(a: real, d: real)
    requires 0.0 < d && a <= d
    ensures a / d <= 1.0
    ensures a / d == 1.0 <==> a == d
    ensures 0.0 < a ==> 0.0 < a / d
  {
    if a < d {
      DivideKeepsOrder(a, d, d);
    }
  }

  /** What a successful `Score` is made of. */
  lemma ScoreUnfold(pool: seq<Candidate>, m: LemmaMap, n: nat)
    requires Score(pool, m, n).Success? && |pool| > 0
    ensures PoolKnown(pool, m) && GlobalMaxLemma(pool, m) > 0 && n > 0
    ensures Normalize(RawScores(pool, m, n)).Some?
    ensures forall i :: 0 <= i < |pool| ==>
              && Score(pool, m, n).value[i].calculations == Calculate(pool, m, n)[i]
              && RawScore(Score(pool, m, n).value[i].calculations) == RawScores(pool, m, n)[i]
              && Score(pool, m, n).value[i].score == Normalize(RawScores(pool, m, n)).value[i]
  {
    assert PoolKnown(pool, m) && GlobalMaxLemma(pool, m) > 0 && n > 0;
    var calcs := Calculate(pool, m, n);
    var raws := RawScores(pool, m, n);
    var finals := Normalize(raws);
    assert finals.Some?;
    var scored := Attach(pool, calcs, finals.value);
    assert Score(pool, m, n) == Success(scored);
    forall i | 0 <= i < |pool|
      ensures scored[i].calculations == calcs[i] && RawScore(scored[i].calculations) == raws[i]
      ensures scored[i].score == finals.value[i]
    {
      assert scored[i] == Scored(pool[i], calcs[i], finals.value[i]);
    }
  }

  /** Every scored candidate records its largest part frequency, a
      normalised count in [0, 1] and, when it comes from a sentence of the
      document, a position weight in (0, 1]. */
  lemma ScoreCalculations(pool: seq<Candidate>, m: LemmaMap, n: nat, i: int)
    requires Score(pool, m, n).Success? && 0 <= i < |pool|
    ensures var c := Score(pool, m, n).value[i].calculations;
            && PartsKnown(pool[i].parts, m)
            && (forall j :: 0 <= j < |pool[i].parts| ==> PartWeight(pool[i].parts[j], m) <= c.lemmaCount)
            && (|pool[i].parts| > 0 ==> exists j :: 0 <= j < |pool[i].parts| && PartWeight(pool[i].parts[j], m) == c.lemmaCount)
            && 0.0 <= c.lemmaCountNorm <= 1.0
            && (0 <= pool[i].sentenceIndex < n ==> 0.0 < c.positionNorm <= 1.0)
  {
    ScoreUnfold(pool, m, n);
    assert LemmaCounts(pool, m)[i] == LemmaCount(pool[i].parts, m);
  }

  /** Some candidate of a non-empty scored pool has normalised lemma count
      exactly 1: the pool's largest count is one of its candidates' counts. */
  lemma LemmaNormReachesOne(pool: seq<Candidate>, m: LemmaMap, n: nat)
    requires Score(pool, m, n).Success? && |pool| > 0
    ensures exists i :: 0 <= i < |pool| && Score(pool, m, n).value[i].calculations.lemmaCountNorm == 1.0
  {
    ScoreUnfold(pool, m, n);
    var counts := LemmaCounts(pool, m);
    var k :| 0 <= k < |counts| && counts[k] == GlobalMaxLemma(pool, m);
    assert Score(pool, m, n).value[k].calculations == CalculationsOf(pool[k], m, GlobalMaxLemma(pool, m), n);
  }

  /** Scoring fails only on a missing lemma or an all-zero lemma count when
      every candidate comes from a sentence of the document: the sentence
      count and the largest raw score are then positive. */
  lemma ScoreSucceeds(pool: seq<Candidate>, m: LemmaMap, n: nat)
    requires |pool| > 0 && WellFormed(pool, n) && PoolKnown(pool, m) && GlobalMaxLemma(pool, m) > 0
    ensures Score(pool, m, n).Success?
  {
    assert 0 <= pool[0].sentenceIndex < n;
    assert RawScores(pool, m, n)[0] > 0.0;
  }

  /** No final score exceeds 1, and in a well-formed pool every final score
      is positive. */
  lemma ScoreInUnitInterval(pool: seq<Candidate>, m: LemmaMap, n: nat)
    requires Score(pool, m, n).Success?
    ensures forall i :: 0 <= i < |pool| ==> Score(pool, m, n).value[i].score <= 1.0
    ensures WellFormed(pool, n) ==> forall i :: 0 <= i < |pool| ==> 0.0 < Score(pool, m, n).value[i].score
  {
    if |pool| > 0 {
      ScoreUnfold(pool, m, n);
    }
  }

  /** A candidate ends with score exactly 1 iff its raw score is the pool's
      largest. */
  lemma ScoreOneIffMaxRaw(pool: seq<Candidate>, m: LemmaMap, n: nat, i: int)
    requires Score(pool, m, n).Success? && 0 <= i < |pool|
    ensures var scored := Score(pool, m, n).value;
            scored[i].score == 1.0 <==>
              forall j :: 0 <= j < |pool| ==> RawScore(scored[j].calculations) <= RawScore(scored[i].calculations)
  {
    ScoreUnfold(pool, m, n);
  }

  /** The top of the pool scores exactly 1. */
  lemma ScoreReachesOne(pool: seq<Candidate>, m: LemmaMap, n: nat)
    requires Score(pool, m, n).Success? && |pool| > 0
    ensures exists i :: 0 <= i < |pool| && Score(pool, m, n).value[i].score == 1.0
  {
    ScoreUnfold(pool, m, n);
    var i :| 0 <= i < |pool| && Normalize(RawScores(pool, m, n)).value[i] == 1.0;
    assert Score(pool, m, n).value[i].score == 1.0;
  }

  /** Of two candidates with the same lemma count, the one from the earlier
      sentence scores strictly higher. */
  lemma ScorePositionMonotone(pool: seq<Candidate>, m: LemmaMap, n: nat, i: int, j: int)
    requires Score(pool, m, n).Success? && 0 <= i < |pool| && 0 <= j < |pool|
    requires Score(pool, m, n).value[i].calculations.lemmaCount == Score(pool, m, n).value[j].calculations.lemmaCount
    requires pool[i].sentenceIndex < pool[j].sentenceIndex
    ensures Score(pool, m, n).value[j].score < Score(pool, m, n).value[i].score
  {
    ScoreUnfold(pool, m, n);
    var globalMax := GlobalMaxLemma(pool, m);
    assert LemmaCounts(pool, m)[i] == LemmaCount(pool[i].parts, m);
    RawScorePositionMonotone(pool[i], pool[j], m, globalMax, n);
  }
}
