/** Reshaping of ranked candidates into the public answer records, and the
    leaf counter for nested lists. */
module Format {
  import opened Annotations
  import opened Scoring

  /** A published part: the first two components of a candidate part. */
  datatype AnswerPart = AnswerPart(token: Token, pos: string)

  /** A published answer: parts, sentence index and score; the metrics and
      the provenance tag are not exposed. */
  datatype Answer = Answer(parts: seq<AnswerPart>, sentenceIndex: int, score: real)

  /** The answer record of one scored candidate. */
  function AnswerOf(c: Scored): Answer {
    Answer(seq(|c.candidate.parts|, j requires 0 <= j < |c.candidate.parts| =>
                 AnswerPart(c.candidate.parts[j].token, c.candidate.parts[j].pos)),
           c.candidate.sentenceIndex, c.score)
  }

  /** Builds one answer record per scored candidate, in order. */
  method FixFormat(candidates: seq<Scored>) returns (result: seq<Answer>)
    ensures |result| == |candidates|
    ensures forall i :: 0 <= i < |candidates| ==>
              && result[i].sentenceIndex == candidates[i].candidate.sentenceIndex
              && result[i].score == candidates[i].score
              && |result[i].parts| == |candidates[i].candidate.parts|
    ensures forall i, j :: 0 <= i < |candidates| && 0 <= j < |candidates[i].candidate.parts| ==>
              result[i].parts[j] == AnswerPart(candidates[i].candidate.parts[j].token, candidates[i].candidate.parts[j].pos)
    ensures forall i :: 0 <= i < |candidates| ==> result[i] == AnswerOf(candidates[i])
  {
    result := [];
    var i := 0;
    while i < |candidates|
      invariant 0 <= i <= |candidates|
      invariant |result| == i
      invariant forall k :: 0 <= k < i ==>
                  && result[k].sentenceIndex == candidates[k].candidate.sentenceIndex
                  && result[k].score == candidates[k].score
                  && |result[k].parts| == |candidates[k].candidate.parts|
      invariant forall k, j :: 0 <= k < i && 0 <= j < |candidates[k].candidate.parts| ==>
                  result[k].parts[j] == AnswerPart(candidates[k].candidate.parts[j].token, candidates[k].candidate.parts[j].pos)
    {
      var parts := candidates[i].candidate.parts;
      var partsNew: seq<AnswerPart> := [];
      var j := 0;
      while j < |parts|
        invariant 0 <= j <= |parts|
        invariant |partsNew| == j
        invariant forall k :: 0 <= k < j ==> partsNew[k] == AnswerPart(parts[k].token, parts[k].pos)
      {
        partsNew := partsNew + [AnswerPart(parts[j].token, parts[j].pos)];
        j := j + 1;
      }
      result := result + [Answer(partsNew, candidates[i].candidate.sentenceIndex, candidates[i].score)];
      i := i + 1;
    }
  }

  /** A value that is either a leaf or a (possibly nested) list. */
  datatype Nested<T> = Leaf(value: T) | Items(elements: seq<Nested<T>>)

  /** Number of leaves: 1 for a leaf, the sum over the elements for a list. */
  function CountElements<T>(root: Nested<T>): nat
    decreases root, if root.Items? then |root.elements| + 1 else 0
  {
    match root
    case Leaf(_) => 1
    case Items(elements) => CountPrefix(root, |elements|)
  }

  /** Sum of the counts of the first `k` elements of a list. */
  function CountPrefix<T>(root: Nested<T>, k: nat): nat
    requires root.Items? && k <= |root.elements|
    decreases root, k
  {
    if k == 0 then 0 else CountPrefix(root, k - 1) + CountElements(root.elements[k - 1])
  }

  /** The leaves of a nested value, left to right. */
  function Leaves<T>(root: Nested<T>): seq<T>
    decreases root, if root.Items? then |root.elements| + 1 else 0
  {
    match root
    case Leaf(v) => [v]
    case Items(elements) => LeavesPrefix(root, |elements|)
  }

  function LeavesPrefix<T>(root: Nested<T>, k: nat): seq<T>
    requires root.Items? && k <= |root.elements|
    decreases root, k
  {
    if k == 0 then [] else LeavesPrefix(root, k - 1) + Leaves(root.elements[k - 1])
  }

  /** The count is the number of leaves. */
  lemma {:induction false} CountElementsIsLeafCount<T>(root: Nested<T>)
    ensures CountElements(root) == |Leaves(root)|
    decreases root, if root.Items? then |root.elements| + 1 else 0
  {
    match root
    case Leaf(_) =>
    case Items(elements) => CountPrefixIsLeafCount(root, |elements|);
  }

  lemma {:induction false} CountPrefixIsLeafCount<T>(root: Nested<T>, k: nat)
    requires root.Items? && k <= |root.elements|
    ensures CountPrefix(root, k) == |LeavesPrefix(root, k)|
    decreases root, k
  {
    if k > 0 {
      CountPrefixIsLeafCount(root, k - 1);
      CountElementsIsLeafCount(root.elements[k - 1]);
    }
  }

  /** A list of leaves counts its length; in particular the empty list counts 0. */
  lemma {:induction false} CountFlatList<T>(elements: seq<Nested<T>>)
    requires forall i :: 0 <= i < |elements| ==> elements[i].Leaf?
    ensures CountElements(Items(elements)) == |elements|
  {
    var root := Items(elements);
    var k := 0;
    while k < |elements|
      invariant 0 <= k <= |elements|
      invariant CountPrefix(root, k) == k
    {
      k := k + 1;
    }
  }
}
