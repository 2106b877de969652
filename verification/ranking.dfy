/** Ranking of scored candidates: a stable sort, highest score first, so
    candidates with equal scores keep their discovery order. */
module Ranking {
  import opened Scoring

  /** Scores never increase along the sequence. */
  ghost predicate SortedDescending(s: seq<Scored>) {
    forall i, j :: 0 <= i < j < |s| ==> s[j].score <= s[i].score
  }

  /** The candidates of `s` whose score is `v`, in their order in `s`. */
  function WithScore(s: seq<Scored>, v: real): seq<Scored> {
    if |s| == 0 then []
    else (if s[0].score == v then [s[0]] else []) + WithScore(s[1..], v)
  }

  /** Inserts `x` before the first element that does not outscore it. */
  function Insert(x: Scored, s: seq<Scored>): (r: seq<Scored>)
    ensures |r| == |s| + 1
  {
    if |s| == 0 || x.score >= s[0].score then [x] + s
    else [s[0]] + Insert(x, s[1..])
  }

  /** Insertion sort from the back: each element lands before every later
      element that does not outscore it. */
  function SortByScore(s: seq<Scored>): (r: seq<Scored>)
    ensures |r| == |s|
  {
    if |s| == 0 then [] else Insert(s[0], SortByScore(s[1..]))
  }

  lemma {:induction false} InsertSorted(x: Scored, s: seq<Scored>)
    requires SortedDescending(s)
    ensures SortedDescending(Insert(x, s))
    ensures Insert(x, s)[0] == x || (|s| > 0 && Insert(x, s)[0] == s[0])
    decreases |s|
  {
    if |s| == 0 || x.score >= s[0].score {
    } else {
      InsertSorted(x, s[1..]);
      var t := Insert(x, s[1..]);
      assert Insert(x, s) == [s[0]] + t;
      assert t[0] == x || t[0] == s[1];
    }
  }

  lemma {:induction false} InsertPermutes(x: Scored, s: seq<Scored>)
    ensures multiset(Insert(x, s)) == multiset(s) + multiset{x}
    decreases |s|
  {
    if |s| == 0 || x.score >= s[0].score {
    } else {
      InsertPermutes(x, s[1..]);
      assert s == [s[0]] + s[1..];
    }
  }

  lemma {:induction false} InsertStable(x: Scored, s: seq<Scored>, v: real)
    requires SortedDescending(s)
    ensures WithScore(Insert(x, s), v) == WithScore([x] + s, v)
    decreases |s|
  {
    if |s| == 0 || x.score >= s[0].score {
    } else {
      var t := s[1..];
      InsertStable(x, t, v);
      assert ([s[0]] + Insert(x, t))[1..] == Insert(x, t);
      assert ([x] + s)[1..] == s;
      assert ([x] + t)[1..] == t;
      assert s[1..] == t;
    }
  }

  /** The ranking is ordered by score, highest first. */
  lemma {:induction false} SortByScoreSorted(s: seq<Scored>)
    ensures SortedDescending(SortByScore(s))
  {
    if |s| > 0 {
      SortByScoreSorted(s[1..]);
      InsertSorted(s[0], SortByScore(s[1..]));
    }
  }

  /** The ranking is a permutation of the pool. */
  lemma {:induction false} SortByScorePermutes(s: seq<Scored>)
    ensures multiset(SortByScore(s)) == multiset(s)
  {
    if |s| > 0 {
      SortByScorePermutes(s[1..]);
      InsertPermutes(s[0], SortByScore(s[1..]));
      assert s == [s[0]] + s[1..];
    }
  }

  /** The ranking is stable: for every score, the candidates with that score
      appear in the same relative order as in the pool. */
  lemma {:induction false} SortByScoreStable(s: seq<Scored>, v: real)
    ensures WithScore(SortByScore(s), v) == WithScore(s, v)
  {
    if |s| > 0 {
      SortByScoreStable(s[1..], v);
      SortByScoreSorted(s[1..]);
      InsertStable(s[0], SortByScore(s[1..]), v);
      assert ([s[0]] + SortByScore(s[1..]))[1..] == SortByScore(s[1..]);
    }
  }
}
