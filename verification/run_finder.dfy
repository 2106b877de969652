/** The run finder of the method extractor: in a sequence of tagged parts it
    collects the first contiguous run of verb, adjective, list-marker or
    coordinating-conjunction parts, and discards runs that carry no content. */
module RunFinder {
  import opened Wrappers
  import opened Annotations

  /** A tag that may belong to a run: "VB*", "JJ*", "LS*" or exactly "CC". */
  predicate IsRunTag(pos: string) {
    StartsWith(pos, "VB") || StartsWith(pos, "JJ") || StartsWith(pos, "LS") || pos == "CC"
  }

  /** `parts[lo..hi]` is the first maximal run of run-tagged parts: nothing
      before `lo` is run-tagged, everything in `[lo, hi)` is, the part at `hi`
      (if any) is not, and the run is empty only when no part is run-tagged. */
  ghost predicate IsFirstRun(parts: seq<Part>, lo: int, hi: int) {
    && 0 <= lo <= hi <= |parts|
    && (forall k :: 0 <= k < lo ==> !IsRunTag(parts[k].pos))
    && (forall k :: lo <= k < hi ==> IsRunTag(parts[k].pos))
    && (hi < |parts| ==> !IsRunTag(parts[hi].pos))
    && (lo == hi ==> lo == |parts|)
  }

  /** A collected run is dropped when it is empty or is a single stop word. */
  predicate Discarded(run: seq<Part>) {
    |run| == 0 || (|run| == 1 && run[0].token.lemmaForm in StopWords)
  }

  /** The first index at or after `i` whose part is run-tagged, or `|parts|`. */
  function RunStart(parts: seq<Part>, i: nat): (s: nat)
    requires i <= |parts|
    ensures i <= s <= |parts|
    ensures forall k :: i <= k < s ==> !IsRunTag(parts[k].pos)
    ensures s < |parts| ==> IsRunTag(parts[s].pos)
    decreases |parts| - i
  {
    if i == |parts| || IsRunTag(parts[i].pos) then i else RunStart(parts, i + 1)
  }

  /** The first index at or after `i` whose part is not run-tagged, or `|parts|`. */
  function RunEnd(parts: seq<Part>, i: nat): (e: nat)
    requires i <= |parts|
    ensures i <= e <= |parts|
    ensures forall k :: i <= k < e ==> IsRunTag(parts[k].pos)
    ensures e < |parts| ==> !IsRunTag(parts[e].pos)
    decreases |parts| - i
  {
    if i == |parts| || !IsRunTag(parts[i].pos) then i else RunEnd(parts, i + 1)
  }

  /** Bounds of the first run; a reference definition independent of the scan. */
  function RunBounds(parts: seq<Part>): (b: (nat, nat))
    ensures IsFirstRun(parts, b.0, b.1)
  {
    var lo := RunStart(parts, 0);
    (lo, RunEnd(parts, lo))
  }

  /** There is only one first run. */
  lemma FirstRunUnique(parts: seq<Part>, lo: int, hi: int, lo': int, hi': int)
    requires IsFirstRun(parts, lo, hi) && IsFirstRun(parts, lo', hi')
    ensures lo == lo' && hi == hi'
  {
    if lo < |parts| {
      assert IsRunTag(parts[lo].pos);
    }
    if lo' < |parts| {
      assert IsRunTag(parts[lo'].pos);
    }
    assert lo == lo';
    if hi < |parts| {
      assert !IsRunTag(parts[hi].pos);
    }
    if hi' < |parts| {
      assert !IsRunTag(parts[hi'].pos);
    }
  }

  /** The run finder as a reference function: the first run, or `None` when
      that run is discarded. */
  function VbCcVbParts(parts: seq<Part>): (r: Option<seq<Part>>)
    ensures r.Some? ==> |r.value| >= 1
    ensures exists lo, hi ::
              && IsFirstRun(parts, lo, hi)
              && (r.None? <==> Discarded(parts[lo..hi]))
              && (r.Some? ==> r.value == parts[lo..hi])
  {
    var b := RunBounds(parts);
    var run := parts[b.0..b.1];
    assert IsFirstRun(parts, b.0, b.1);
    if Discarded(run) then None else Some(run)
  }

  /** The scan as the extractor performs it: record from the first run-tagged
      part, stop at the first part that is not run-tagged once recording, then
      apply the discard rule. */
  method FindVbCcVbParts(parts: seq<Part>) returns (r: Option<seq<Part>>)
    ensures r == VbCcVbParts(parts)
  {
    var recording := false;
    var run: seq<Part> := [];
    var i := 0;
    ghost var lo := 0;
    while i < |parts|
      invariant 0 <= i <= |parts|
      invariant !recording ==> run == [] && forall k :: 0 <= k < i ==> !IsRunTag(parts[k].pos)
      invariant recording ==> 0 <= lo < i && run == parts[lo..i]
      invariant recording ==> forall k :: 0 <= k < lo ==> !IsRunTag(parts[k].pos)
      invariant recording ==> forall k :: lo <= k < i ==> IsRunTag(parts[k].pos)
    {
      if IsRunTag(parts[i].pos) {
        if !recording {
          lo := i;
        }
        run := run + [parts[i]];
        recording := true;
      } else if recording {
        break;
      }
      i := i + 1;
    }
    if !recording {
      lo := i;
    }
    assert IsFirstRun(parts, lo, i);
    assert run == parts[lo..i];
    var b := RunBounds(parts);
    FirstRunUnique(parts, lo, i, b.0, b.1);
    if (|run| == 1 && run[0].token.lemmaForm !in StopWords) || |run| > 1 {
      r := Some(run);
    } else {
      r := None;
    }
  }

  /** A run made of a single stop word yields no candidate, wherever it
      stands among parts that are not run-tagged. */
  lemma SingleStopWordDiscarded(before: seq<Part>, p: Part, after: seq<Part>)
    requires forall k :: 0 <= k < |before| ==> !IsRunTag(before[k].pos)
    requires IsRunTag(p.pos) && p.token.lemmaForm in StopWords
    requires |after| == 0 || !IsRunTag(after[0].pos)
    ensures VbCcVbParts(before + [p] + after).None?
  {
    var parts := before + [p] + after;
    assert IsFirstRun(parts, |before|, |before| + 1);
    assert parts[|before|..|before| + 1] == [p];
    forall lo, hi | IsFirstRun(parts, lo, hi)
      ensures Discarded(parts[lo..hi])
    {
      FirstRunUnique(parts, lo, hi, |before|, |before| + 1);
    }
  }
}
