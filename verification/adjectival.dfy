/** The adjectival pass: every adjective or adverb of the document whose
    named-entity label is not a stop entity becomes a one-part candidate. */
module Adjectival {
  import opened Wrappers
  import opened Annotations

  /** Adjective ("JJ*") or adverb ("RB*"). */
  predicate IsRelevantPos(pos: string): (r: bool)
    ensures r <==> 2 <= |pos| && (pos[..2] == "JJ" || pos[..2] == "RB")
  {
    StartsWith(pos, "JJ") || StartsWith(pos, "RB")
  }

  /** A token the adjectival pass turns into a candidate. */
  predicate Qualifies(t: Token) {
    IsRelevantPos(t.pos) && t.ner !in StopNer
  }

  /** The candidate built from one qualifying token: a single part holding
      the token, its tag and the token again. */
  function AdCandidate(t: Token, sentenceIndex: int): Candidate {
    Candidate([Part(t, t.pos, Some(t))], sentenceIndex, Adjectival)
  }

  /** Candidates of one sentence's tokens, in token order. */
  function TokenCandidates(tokens: seq<Token>, sentenceIndex: int): seq<Candidate>
  {
    if |tokens| == 0 then []
    else
      var last := tokens[|tokens| - 1];
      TokenCandidates(tokens[..|tokens| - 1], sentenceIndex)
      + (if Qualifies(last) then [AdCandidate(last, sentenceIndex)] else [])
  }

  /** Candidates of a whole document, sentence by sentence. */
  function AdCandidates(sentences: seq<Sentence>): seq<Candidate>
  {
    if |sentences| == 0 then []
    else
      var last := sentences[|sentences| - 1];
      AdCandidates(sentences[..|sentences| - 1]) + TokenCandidates(last.tokens, last.index)
  }

  /** The scan as the extractor performs it: two nested loops appending one
      candidate per qualifying token. */
  method ExtractAdCandidates(sentences: seq<Sentence>) returns (candidates: seq<Candidate>)
    ensures candidates == AdCandidates(sentences)
  {
    candidates := [];
    var i := 0;
    while i < |sentences|
      invariant 0 <= i <= |sentences|
      invariant candidates == AdCandidates(sentences[..i])
    {
      var sentence := sentences[i];
      var j := 0;
      ghost var before := candidates;
      while j < |sentence.tokens|
        invariant 0 <= j <= |sentence.tokens|
        invariant candidates == before + TokenCandidates(sentence.tokens[..j], sentence.index)
      {
        var token := sentence.tokens[j];
        if IsRelevantPos(token.pos) && token.ner !in StopNer {
          candidates := candidates + [AdCandidate(token, sentence.index)];
        }
        assert sentence.tokens[..j + 1][..j] == sentence.tokens[..j];
        j := j + 1;
      }
      assert sentence.tokens[..j] == sentence.tokens;
      assert sentences[..i + 1][..i] == sentences[..i];
      i := i + 1;
    }
    assert sentences[..i] == sentences;
  }

  /** Every candidate of a sentence comes from one of its qualifying tokens. */
  lemma {:induction false} TokenCandidatesSound(tokens: seq<Token>, sentenceIndex: int, k: int)
    requires 0 <= k < |TokenCandidates(tokens, sentenceIndex)|
    ensures exists j :: 0 <= j < |tokens| && Qualifies(tokens[j])
                        && TokenCandidates(tokens, sentenceIndex)[k] == AdCandidate(tokens[j], sentenceIndex)
  {
    var init := tokens[..|tokens| - 1];
    if k < |TokenCandidates(init, sentenceIndex)| {
      TokenCandidatesSound(init, sentenceIndex, k);
      var j :| 0 <= j < |init| && Qualifies(init[j])
               && TokenCandidates(init, sentenceIndex)[k] == AdCandidate(init[j], sentenceIndex);
      assert tokens[j] == init[j];
    } else {
      assert TokenCandidates(tokens, sentenceIndex)[k] == AdCandidate(tokens[|tokens| - 1], sentenceIndex);
    }
  }

  /** Positions of the qualifying tokens of a sentence. */
  ghost function QualifyingPositions(tokens: seq<Token>): set<int> {
    set j | 0 <= j < |tokens| && Qualifies(tokens[j])
  }

  /** A sentence yields exactly as many candidates as it has qualifying
      tokens. */
  lemma {:induction false} TokenCandidatesCount(tokens: seq<Token>, sentenceIndex: int)
    ensures |TokenCandidates(tokens, sentenceIndex)| == |QualifyingPositions(tokens)|
  {
    if |tokens| > 0 {
      var init := tokens[..|tokens| - 1];
      var last := |tokens| - 1;
      TokenCandidatesCount(init, sentenceIndex);
      var added: set<int> := if Qualifies(tokens[last]) then {last} else {};
      forall j ensures j in QualifyingPositions(tokens) <==> j in QualifyingPositions(init) + added {
        if 0 <= j < last {
          assert tokens[j] == init[j];
        }
      }
      assert QualifyingPositions(tokens) == QualifyingPositions(init) + added;
      assert QualifyingPositions(init) !! added;
    }
  }

  /** Every adjectival candidate is a single qualifying token (an adjective or
      adverb that is not a stop entity) of some sentence, tagged with that
      sentence's index. */
  lemma {:induction false} AdCandidatesSound(sentences: seq<Sentence>, k: int)
    requires 0 <= k < |AdCandidates(sentences)|
    ensures exists i, j :: 0 <= i < |sentences| && 0 <= j < |sentences[i].tokens|
                           && Qualifies(sentences[i].tokens[j])
                           && AdCandidates(sentences)[k] == AdCandidate(sentences[i].tokens[j], sentences[i].index)
  {
    var init := sentences[..|sentences| - 1];
    var last := sentences[|sentences| - 1];
    if k < |AdCandidates(init)| {
      AdCandidatesSound(init, k);
      var i, j :| 0 <= i < |init| && 0 <= j < |init[i].tokens| && Qualifies(init[i].tokens[j])
                  && AdCandidates(init)[k] == AdCandidate(init[i].tokens[j], init[i].index);
      assert sentences[i] == init[i];
    } else {
      TokenCandidatesSound(last.tokens, last.index, k - |AdCandidates(init)|);
      var j :| 0 <= j < |last.tokens| && Qualifies(last.tokens[j])
               && TokenCandidates(last.tokens, last.index)[k - |AdCandidates(init)|] == AdCandidate(last.tokens[j], last.index);
      assert sentences[|sentences| - 1] == last;
    }
  }

  /** No candidate is built from a stop entity or from a token that is neither
      adjective nor adverb, and every candidate has exactly one part. */
  lemma StopEntitiesNeverCandidates(sentences: seq<Sentence>)
    ensures forall c :: c in AdCandidates(sentences) ==>
              && |c.parts| == 1
              && c.strategy == Adjectival
              && c.parts[0].token.ner !in StopNer
              && IsRelevantPos(c.parts[0].pos)
  {
    forall c | c in AdCandidates(sentences)
      ensures |c.parts| == 1 && c.strategy == Adjectival
      ensures c.parts[0].token.ner !in StopNer && IsRelevantPos(c.parts[0].pos)
    {
      var k :| 0 <= k < |AdCandidates(sentences)| && AdCandidates(sentences)[k] == c;
      AdCandidatesSound(sentences, k);
    }
  }

  /** Every qualifying token of a sentence yields its candidate. */
  lemma {:induction false} TokenCandidatesComplete(tokens: seq<Token>, sentenceIndex: int, j: int)
    requires 0 <= j < |tokens| && Qualifies(tokens[j])
    ensures AdCandidate(tokens[j], sentenceIndex) in TokenCandidates(tokens, sentenceIndex)
  {
    var init := tokens[..|tokens| - 1];
    if j < |init| {
      assert tokens[j] == init[j];
      TokenCandidatesComplete(init, sentenceIndex, j);
    }
  }

  /** Every qualifying token of the document yields a candidate carrying its
      sentence's index. */
  lemma {:induction false} AdCandidatesComplete(sentences: seq<Sentence>, i: int, j: int)
    requires 0 <= i < |sentences| && 0 <= j < |sentences[i].tokens|
    requires Qualifies(sentences[i].tokens[j])
    ensures AdCandidate(sentences[i].tokens[j], sentences[i].index) in AdCandidates(sentences)
  {
    var init := sentences[..|sentences| - 1];
    if i < |init| {
      assert sentences[i] == init[i];
      AdCandidatesComplete(init, i, j);
    } else {
      TokenCandidatesComplete(sentences[i].tokens, sentences[i].index, j);
    }
  }

  /** Document order: the candidates of a concatenation of sentence lists are
      the candidates of the first list followed by those of the second. */
  lemma {:induction false} AdCandidatesAppend(first: seq<Sentence>, second: seq<Sentence>)
    ensures AdCandidates(first + second) == AdCandidates(first) + AdCandidates(second)
    decreases |second|
  {
    if |second| == 0 {
      assert first + second == first;
    } else {
      var init := second[..|second| - 1];
      var last := second[|second| - 1];
      assert (first + second)[..|first + second| - 1] == first + init;
      assert (first + second)[|first + second| - 1] == last;
      AdCandidatesAppend(first, init);
    }
  }
}
