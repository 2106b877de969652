/** The part of the tree-pattern pass that does not depend on tree
    navigation. For every "IN" node (preposition or subordinating conjunction)
    of a sentence's parse tree, the tree API yields an `InSite`: the lemma of
    the node's token, the linked parts of its right sibling (empty when there
    is no right sibling), the linked parts of the ancestor three levels up (if
    that ancestor exists), and the index of the tree's sentence. */
module Prepositional {
  import opened Wrappers
  import opened Annotations
  import opened RunFinder

  datatype InSite = InSite(conjunction: string, rightSibling: seq<Part>, ancestor: Option<seq<Part>>, sentenceIndex: int)

  /** The copulative connectives exactly as the extractor lists them; "if"
      carries a trailing space there, so no lemma ever matches it. */
  const CopulativeAsWritten: set<string> :=
    {"and", "as", "both", "because", "even", "for", "if ", "that", "then", "since", "seeing", "so", "after"}

  /** The copulative connectives as evidently intended: "if" without the space. */
  const Copulative: set<string> :=
    {"and", "as", "both", "because", "even", "for", "if", "that", "then", "since", "seeing", "so", "after"}

  /** The token sequence the run finder searches for a site: the right sibling
      unless its first token is a stop entity, else the ancestor three up. */
  function SearchRegion(site: InSite): Option<seq<Part>>
    requires |site.rightSibling| > 0
  {
    if site.rightSibling[0].token.ner !in StopNer then Some(site.rightSibling) else site.ancestor
  }

  /** The candidate an IN site yields, for a given set of copulative lemmas. */
  function SiteCandidateWith(copulative: set<string>, site: InSite): (r: Option<Candidate>)
    ensures r.Some? ==> && |site.rightSibling| > 0
                        && site.conjunction in copulative
                        && SearchRegion(site).Some?
    ensures r.Some? ==> && r.value.strategy == Prepositional
                        && r.value.sentenceIndex == site.sentenceIndex
                        && |r.value.parts| >= 1
                        && exists lo, hi :: IsFirstRun(SearchRegion(site).value, lo, hi)
                                            && r.value.parts == SearchRegion(site).value[lo..hi]
    ensures r.None? && |site.rightSibling| > 0 && site.conjunction in copulative && SearchRegion(site).Some?
            ==> VbCcVbParts(SearchRegion(site).value).None?
  {
    if |site.rightSibling| == 0 || site.conjunction !in copulative then None
    else match SearchRegion(site)
      case None => None
      case Some(region) =>
        match VbCcVbParts(region)
        case None => None
        case Some(run) => Some(Candidate(run, site.sentenceIndex, Prepositional))
  }

  /** The candidate an IN site yields in this model (corrected connectives).
      It agrees with the list as written on every lemma except "if", which
      it treats like "because". */
  function SiteCandidate(site: InSite): (r: Option<Candidate>)
    ensures site.conjunction !in {"if", "if "} ==> r == SiteCandidateWith(CopulativeAsWritten, site)
    ensures site.conjunction == "if" ==>
              r == SiteCandidateWith(CopulativeAsWritten, site.(conjunction := "because"))
  {
    SiteCandidateWith(Copulative, site)
  }

  /** As written, an "if" clause never yields a candidate, whatever follows it. */
  lemma IfClauseDroppedAsWritten(site: InSite)
    requires site.conjunction == "if"
    ensures SiteCandidateWith(CopulativeAsWritten, site).None?
  {
  }

  /** With the intended connectives an "if" clause followed by a verb run
      yields that run, exactly like "because" does. */
  lemma IfClauseKept(site: InSite)
    requires site.conjunction == "if"
    ensures SiteCandidate(site) == SiteCandidate(site.(conjunction := "because"))
  {
  }

  /** A concrete input on which the two connective sets disagree: "if they
      ran" yields the run "ran" only with the intended set. */
  lemma IfClauseWitness()
    ensures var ran := Part(Token(2, "run", "VBD", "O"), "VBD", None);
            var they := Part(Token(1, "they", "PRP", "O"), "PRP", None);
            var site := InSite("if", [they, ran], None, 0);
            && SiteCandidateWith(CopulativeAsWritten, site).None?
            && SiteCandidate(site) == Some(Candidate([ran], 0, Prepositional))
  {
    var ran := Part(Token(2, "run", "VBD", "O"), "VBD", None);
    var they := Part(Token(1, "they", "PRP", "O"), "PRP", None);
    var site := InSite("if", [they, ran], None, 0);
    assert "VB" <= "VBD";
    assert "PRP"[0] == 'P' && "PRP"[0] != "VB"[0] && "PRP"[0] != "JJ"[0] && "PRP"[0] != "LS"[0];
    assert !IsRunTag(they.pos);
    assert RunStart(site.rightSibling, 1) == 1;
    assert RunEnd(site.rightSibling, 2) == 2;
    assert RunBounds(site.rightSibling) == (1, 2);
    assert site.rightSibling[1..2] == [ran];
    assert "run" !in StopWords;
    assert !Discarded([ran]);
    assert VbCcVbParts(site.rightSibling) == Some([ran]);
    assert "if" !in CopulativeAsWritten;
  }

  /** For either connective list, a stop entity right after a copulative
      connective sends the search to the ancestor three levels up, never to
      the right sibling. */
  lemma StopEntitySearchesAncestor(copulative: set<string>, site: InSite)
    requires site.conjunction in copulative
    requires |site.rightSibling| > 0 && site.rightSibling[0].token.ner in StopNer
    ensures site.ancestor.None? ==> SiteCandidateWith(copulative, site).None?
    ensures site.ancestor.Some? ==>
              SiteCandidateWith(copulative, site) == (match VbCcVbParts(site.ancestor.value)
                                      case None => None
                                      case Some(run) => Some(Candidate(run, site.sentenceIndex, Prepositional)))
  {
  }
}
