/** The annotated-document vocabulary the "how" extractor works on: tokens as
    the annotation pipeline delivers them, candidate parts, candidates, and the
    fixed stop lists of the method extractor. */
module Annotations {
  import opened Wrappers

  /** One annotated token: its position in its sentence, its lemma (`lemmaForm`), its
      part-of-speech tag and its named-entity label. */
  datatype Token = Token(index: int, lemmaForm: string, pos: string, ner: string)

  /** One part of a candidate phrase: the token it is linked to, the
      part-of-speech tag it was matched on and, for parts built by the
      adjectival scan, a third component carrying the token once more. */
  datatype Part = Part(token: Token, pos: string, linked: Option<Token>)

  /** A sentence of the document: its index and its tokens in surface order. */
  datatype Sentence = Sentence(index: int, tokens: seq<Token>)

  /** Which pass produced a candidate; provenance only, never scored. */
  datatype Strategy = Prepositional | Adjectival

  /** A raw candidate, before scoring. */
  datatype Candidate = Candidate(parts: seq<Part>, sentenceIndex: int, strategy: Strategy)

  /** Lemmas whose frequency is ignored, because they are very frequent. */
  const StopWords: set<string> :=
    {"and", "but", "lead", "is", "has", "have", "went", "was", "been", "were", "get", "are", "do", "so",
     "due", "well", "very", "on", "too", "be", "i", "the", "a", ",", ".", "", "not", "n't",
     "am", "as", "even", "however", "other", "just", "over", "more", "say", "also"}

  /** Named-entity labels that are never an answer to "how". */
  const StopNer: set<string> := {"TIME", "DATE", "ORGANIZATION", "DURATION", "ORDINAL"}

  /** Python's `str.startswith`. */
  predicate StartsWith(s: string, prefix: string) {
    prefix <= s
  }
}
