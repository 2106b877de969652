# How-extractor core of Giveme5W1H, modelled in Dafny

This project models the "how" extractor (`MethodExtractor`) of Giveme5W1H.
The extractor works on a document that an external pipeline has already
annotated. It finds short phrases that may answer "how" and ranks them. The
model covers these pieces:

- **Run finder** (`RunFinder`): in a sequence of tagged parts, it collects the
  first contiguous run of tags that start with `VB`, `JJ` or `LS`, or that
  equal `CC`. It drops an empty run and a run that is a single stop word.
- **Prepositional site** (`Prepositional`): this is the tree pass at one "IN"
  node, with the tree navigation taken as input. A copulative connective
  followed by text gets a search for a run. The search uses the right sibling,
  or the ancestor three levels up when the sibling begins with a stop entity.
- **Adjectival scan** (`Adjectival`): every adjective or adverb that is not a
  stop entity becomes a one-part candidate with its sentence's index.
- **Scorer** (`Scoring`): this computes each candidate's largest lemma
  frequency, with stop words counted as 0, and the pool's largest such value.
  It then computes the normalised count, the position weight `(n - i) / n`,
  and their equally weighted mean. Last, it divides each mean by the pool's
  largest mean.
- **Ranking** (`Ranking`): a stable sort with the highest score first.
- **Publishing helpers** (`Format`): `_fix_format` reshapes the records and
  `_count_elements` counts the leaves of a nested list.
- **Evaluation** (`Evaluation`): score, then rank, then publish.

The scorer raises exceptions in four places. A lemma missing from the
frequency map raises a `KeyError`. A division by a zero lemma maximum, by a
zero sentence count, or by a zero score maximum raises a `ZeroDivisionError`.
The model returns these as distinct `Failure` values (`EvalError`), in the
order the source's passes would raise them. An empty pool performs no
division, so it succeeds with no answers.

Scores are exact `real`s. Lemma frequencies are `nat`s.

Three facts about the code shape the model:
- A lemma maximum of 0 makes line 165 divide by zero. The model returns
  `Failure(ZeroLemmaMax)`.
- The scorer accepts a candidate with no parts and gives it lemma count 0
  (lines 148-160).
- Nothing checks that sentence indices are below `len(sentences)` (line 170).
  Bounds that need it are stated under the hypothesis `WellFormed`.

## Model

| member | source | states |
|---|---|---|
| RunFinder.FindVbCcVbParts | extractor/extractors/method_extractor.py:207-223 | The recording-flag scan with its early `break` returns exactly what the reference definition returns: the first run, or nothing when that run is discarded |
| RunFinder.VbCcVbParts | extractor/extractors/method_extractor.py:207-223 | The result is a contiguous slice `parts[lo..hi]` that is the first maximal run: nothing before it matches, the part after it does not match, and it is empty only when no part matches. The result is `None` iff that run is empty or a single stop word. Otherwise it is returned and is non-empty |
| RunFinder.FirstRunUnique | extractor/extractors/method_extractor.py:207-216 | A part sequence has only one first run, so the scan's result is determined |
| RunFinder.SingleStopWordDiscarded | extractor/extractors/method_extractor.py:217-223 | A run that is a single stop-word part yields no candidate, whatever non-matching parts surround it |
| Prepositional.SiteCandidateWith | extractor/extractors/method_extractor.py:69-101 | A site yields a candidate only when it has a right sibling, a copulative lemma and a search region. The candidate is tagged prepositional, carries the tree's sentence index and is a non-empty first run of that region. When the site qualifies but yields nothing, the run finder rejected the region |
| Prepositional.SiteCandidate | extractor/extractors/method_extractor.py:14-15 | With the corrected connective list, a site yields what the list as written yields for every lemma except "if", and for "if" it yields what "because" yields |
| Prepositional.StopEntitySearchesAncestor | extractor/extractors/method_extractor.py:80-101 | For either connective list, when the right sibling begins with a stop entity the candidate comes from the ancestor three levels up, and there is none when that ancestor is missing |
| Prepositional.IfClauseDroppedAsWritten | extractor/extractors/method_extractor.py:14-15 | With the connective list as written, a site whose lemma is "if" never yields a candidate |
| Prepositional.IfClauseKept | extractor/extractors/method_extractor.py:14-15 | With the intended list, "if" behaves exactly like the copulative "because" |
| Prepositional.IfClauseWitness | extractor/extractors/method_extractor.py:77-91 | On "if they ran", the list as written yields nothing and the intended list yields the run "ran" |
| Adjectival.ExtractAdCandidates | extractor/extractors/method_extractor.py:105-126 | The nested sentence/token loops produce exactly the reference candidate list, one candidate per qualifying token in document order |
| Adjectival.IsRelevantPos | extractor/extractors/method_extractor.py:237-242 | A tag is relevant iff its first two characters are `JJ` (adjective) or `RB` (adverb) |
| Adjectival.TokenCandidatesCount | extractor/extractors/method_extractor.py:119-125 | A sentence yields exactly as many candidates as it has qualifying tokens |
| Adjectival.AdCandidatesSound | extractor/extractors/method_extractor.py:119-125 | Every candidate is built from an adjective or adverb token that is not a stop entity, and carries that token's sentence index |
| Adjectival.AdCandidatesComplete | extractor/extractors/method_extractor.py:119-125 | Every adjective or adverb token that is not a stop entity yields its candidate |
| Adjectival.StopEntitiesNeverCandidates | extractor/extractors/method_extractor.py:123-125 | Every adjectival candidate has one part, is tagged adjectival, has a `JJ*`/`RB*` tag and is not a stop entity |
| Adjectival.AdCandidatesAppend | extractor/extractors/method_extractor.py:119-125 | Document order: the candidates of two sentence lists, joined, are the first list's candidates followed by the second's |
| Scoring.LemmaCount | extractor/extractors/method_extractor.py:148-160 | A candidate's lemma count is at least every part's frequency (stop words 0). It equals one of them, or is 0 for a candidate without parts |
| Scoring.FirstUnknownInPool | extractor/extractors/method_extractor.py:143-154 | It reports the first lookup that fails, scanning candidates in order and then parts in order. It reports nothing iff every non-stop lemma is in the map |
| Scoring.MaxCount | extractor/extractors/method_extractor.py:142-158 | The global lemma maximum is at least every candidate's count, and equals one of them or the initial 0 |
| Scoring.MaxScore | extractor/extractors/method_extractor.py:174-182 | The score maximum is non-negative and at least every raw score. It equals one of them or the initial 0 |
| Scoring.LemmaNorm | extractor/extractors/method_extractor.py:163-165 | A count no larger than the positive maximum normalises into [0, 1]. It is exactly 1 iff the count is the maximum |
| Scoring.LemmaNormMonotone | extractor/extractors/method_extractor.py:163-165 | A higher lemma count never normalises lower |
| Scoring.PositionNorm | extractor/extractors/method_extractor.py:167-171 | With `0 <= i < n`, the position weight lies in (0, 1]. It is 1 exactly for the first sentence |
| Scoring.PositionNormDecreasing | extractor/extractors/method_extractor.py:167-171 | The position weight is strictly decreasing in the sentence index |
| Scoring.CalculationsOf | extractor/extractors/method_extractor.py:142-171 | A candidate's recorded lemma count is at least every part's frequency and equals one of them, or is 0 without parts. The normalised count lies in [0, 1] and is 1 exactly at the pool maximum. For a sentence of the document, the position weight and the raw score lie in (0, 1] |
| Scoring.RawScorePositionMonotone | extractor/extractors/method_extractor.py:163-179 | At equal lemma count, the candidate from the earlier sentence has the strictly higher raw score |
| Scoring.RawScoreLemmaMonotone | extractor/extractors/method_extractor.py:163-179 | In the same sentence, a higher lemma count never gives a lower raw score |
| Scoring.RawScore | extractor/extractors/method_extractor.py:174-179 | The equally weighted mean lies between the two normalised features. When both are at most 1, it is 1 exactly when both are 1 |
| Scoring.Normalize | extractor/extractors/method_extractor.py:174-187 | An empty sequence divides nothing and succeeds. A non-empty one fails exactly when no raw score is positive. Otherwise every result is at most 1, positive raw scores stay positive, a result is exactly 1 iff its raw score is the largest, some result is 1, and strict raw order is kept |
| Scoring.Score | extractor/extractors/method_extractor.py:128-187 | An empty pool succeeds with no scores. A missing lemma fails iff some non-stop lemma is not in the map, and it reports the first such lemma in candidate-then-part order. A zero lemma maximum fails iff all counts are 0. A zero sentence count fails only after those two checks pass. A zero score maximum fails iff, after those three checks pass, no raw score is positive. On success, every candidate keeps its position |
| Scoring.ScoreSucceeds | extractor/extractors/method_extractor.py:163-187 | When every candidate comes from a sentence of the document, the only failures are a missing lemma and an all-zero lemma count |
| Scoring.ScoreCalculations | extractor/extractors/method_extractor.py:142-171 | The recorded lemma count is the largest part frequency, the normalised count is in [0, 1], and for a candidate from a sentence of the document the position weight is in (0, 1] |
| Scoring.LemmaNormReachesOne | extractor/extractors/method_extractor.py:142-165 | Some candidate's normalised lemma count is exactly 1 |
| Scoring.ScoreInUnitInterval | extractor/extractors/method_extractor.py:174-187 | No final score exceeds 1. In a well-formed pool every final score is positive |
| Scoring.ScoreOneIffMaxRaw | extractor/extractors/method_extractor.py:174-187 | A candidate ends with score exactly 1 iff its raw score is the pool's largest |
| Scoring.ScoreReachesOne | extractor/extractors/method_extractor.py:181-187 | A non-empty scored pool has a candidate with score exactly 1 |
| Scoring.ScorePositionMonotone | extractor/extractors/method_extractor.py:167-187 | Of two candidates with equal lemma counts, the one from the earlier sentence scores strictly higher |
| Ranking.SortByScoreSorted | extractor/extractors/method_extractor.py:189 | The ranking is ordered by score, highest first |
| Ranking.SortByScorePermutes | extractor/extractors/method_extractor.py:189 | The ranking is a permutation of the pool |
| Ranking.SortByScoreStable | extractor/extractors/method_extractor.py:189 | The ranking is stable: for every score value, the candidates with that score keep their pool order |
| Format.FixFormat | extractor/extractors/method_extractor.py:193-205 | One record per candidate, in order. Each record keeps its candidate's sentence index, score and number of parts. Each part becomes the pair of its first two components |
| Format.CountElementsIsLeafCount | extractor/extractors/method_extractor.py:225-235 | The element count of a nested value is the number of its leaves: a leaf counts 1, and a list counts the sum over its elements |
| Format.CountFlatList | extractor/extractors/method_extractor.py:225-235 | A flat list counts its length, so an empty list counts 0 |
| Evaluation.RankedBounds | extractor/extractors/method_extractor.py:174-189 | The ranked pool keeps its length and is ordered highest first. No score in it exceeds 1, and for a well-formed pool every score is positive |
| Evaluation.RankedTopIsOne | extractor/extractors/method_extractor.py:181-189 | The first candidate of a non-empty ranking scores exactly 1 |
| Evaluation.EvaluateCandidates | extractor/extractors/method_extractor.py:128-190 | Evaluation fails exactly when scoring fails, with the same error. Otherwise it publishes the stable descending ranking reshaped into answer records: one per candidate, ordered by score, each at most 1 (positive when well formed), the first exactly 1 |

## Left out

- `extract` and `_extract_candidates` (lines 23-57): the orchestration calls `_filter_duplicates` and stores results in the document. Neither is part of this model. The deduplicator, the `Candidate` class and `AbsExtractor` are not part of this model either.
- The tree navigation of `_extract_tree_for_prepos_conjunctions` (lines 59-103) is not modelled. This covers `subtrees`, the `IN` label test, `right_sibling`, `parent`, `leaves` and `_pos_linked_to_corenlp_tokens`. Each IN node is given to the model as an `InSite`.
- Prepositional.SiteCandidateWith: it assumes that the first linked part of the right sibling is its first leaf. It takes an empty right sibling to mean that there is none. It treats a missing ancestor as "no candidate"; the source raises an exception when the node has fewer than two ancestors, and the model does not show that.
- Document access (`get_trees`, `get_sentences`, `get_candidates`, `get_lemma_map`, `set_candidates`, `set_answer`) is left out. Its results are plain inputs and outputs.
- The `_maxIndex` tracking (lines 118-122) is left out, because nothing reads it.
- The part's first component is left out. In the source it is a dict or a tree leaf that wraps the token. The model uses the token itself.
- Scores are exact reals, so Python `float` rounding is left out.
- Lemma frequencies are naturals. The source does not constrain the map's values.
- `reset_calculations` has no counterpart, because each scoring pass builds fresh `Calculations` values.
- Scoring.ScoreInUnitInterval: positivity of scores is stated only for pools whose sentence indices lie in `[0, n)`. The source does not check this, and without it raw scores can be negative.

## Findings

| source | as written | input that shows it | evidently intended | confidence | as-written member | corrected member |
|---|---|---|---|---|---|---|
| extractor/extractors/method_extractor.py:14 | The copulative list contains `'if '` with a trailing space. It is compared against token lemmas (line 77), which never end in a space, so an "if" clause is never searched | An IN node with lemma "if" whose right sibling is "they ran" (`PRP`, `VBD`) | `'if'`, so that "if" clauses are handled like the other copulative connectives | medium; not executed | Prepositional.IfClauseDroppedAsWritten | Prepositional.IfClauseKept |
