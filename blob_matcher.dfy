/** Blob proximity matching and the trajectory tracker's time step
    (src/blobtrack/blob_matcher.cpp).

    A blob is represented by its upright bounding rectangle, the only part of
    it the matcher reads. The tracker's trajectory test has no body in the
    source, so it enters the model as an uninterpreted predicate
    `consistent: (Blob, int) -> bool`: query blob and candidate target index. */
module BlobMatcher {

  /** Upright bounding rectangle of a blob: top-left corner and size. */
  datatype Blob = Blob(x: int, y: int, width: int, height: int)

  /** The sentinel stored for a query blob that matched no target. */
  const NoMatch: int := -1

  function Abs(v: int): nat {
    if v < 0 then -v else v
  }

  /** isClose exactly as written: true when the query's top-left corner lies
      MORE than twice the target's width (or height) away from the target's.
      The doc comment above it promises the opposite polarity (see IsNear):
      as written, a query sitting on top of its target is "not close".
      Equivalently: the query's corner lies outside the box of half-widths
      2*width and 2*height around the target's corner. */
  predicate IsClose(query: Blob, target: Blob)
    ensures IsClose(query, target) <==>
              !(target.x - 2 * target.width <= query.x <= target.x + 2 * target.width &&
                target.y - 2 * target.height <= query.y <= target.y + 2 * target.height)
  {
    Abs(query.x - target.x) > 2 * target.width || Abs(query.y - target.y) > 2 * target.height
  }

  /** The proximity the documentation describes: the query's top-left corner
      is within twice the target's size of the target's, on both axes, that
      is, inside the box of half-widths 2*width and 2*height around it. */
  predicate IsNear(query: Blob, target: Blob)
    ensures IsNear(query, target) <==>
              (target.x - 2 * target.width <= query.x <= target.x + 2 * target.width &&
               target.y - 2 * target.height <= query.y <= target.y + 2 * target.height)
  {
    Abs(query.x - target.x) <= 2 * target.width && Abs(query.y - target.y) <= 2 * target.height
  }

  /** The written test is exactly the negation of the documented one. */
  lemma IsCloseIsNotNear(query: Blob, target: Blob)
    ensures IsClose(query, target) <==> !IsNear(query, target)
  {
  }

  /** Two blobs sharing a top-left corner (target of non-negative size) are
      near as documented, yet never "close" as written. */
  lemma SameCornerIsNeverClose(query: Blob, target: Blob)
    requires query.x == target.x && query.y == target.y
    requires target.width >= 0 && target.height >= 0
    ensures IsNear(query, target)
    ensures !IsClose(query, target)
  {
  }

  /** Target (0,0,10,10) and query (5,5,10,10) lie within the tolerance of
      20 on each axis; a query at (100,100) does not. The written test
      answers the other way round in both cases. */
  lemma ProximityExamples()
    ensures IsNear(Blob(5, 5, 10, 10), Blob(0, 0, 10, 10))
    ensures !IsClose(Blob(5, 5, 10, 10), Blob(0, 0, 10, 10))
    ensures !IsNear(Blob(100, 100, 10, 10), Blob(0, 0, 10, 10))
    ensures IsClose(Blob(100, 100, 10, 10), Blob(0, 0, 10, 10))
  {
  }

  /** The largest target index below n that the trajectory test accepts for
      blob b, or NoMatch if it accepts none: what a scan of 0..n-1 that
      overwrites on every accepted index leaves behind. */
  function LastConsistent(b: Blob, n: nat, consistent: (Blob, int) -> bool): (r: int)
    ensures r == NoMatch || 0 <= r < n
    ensures r != NoMatch ==> consistent(b, r)
    ensures forall k :: r < k < n ==> !consistent(b, k)
  {
    if n == 0 then NoMatch
    else if consistent(b, n - 1) then n - 1
    else LastConsistent(b, n - 1, consistent)
  }

  /** The entry `match` leaves for query blob i, as written. The proximity
      test reads targets[i], not targets[j], so it is the same for every
      candidate j: either no candidate passes it or all of them do. */
  function MatchedTarget(query: seq<Blob>, targets: seq<Blob>, i: nat,
                         consistent: (Blob, int) -> bool): (r: int)
    requires i < |query|
    requires |targets| == 0 || i < |targets|
    ensures r == NoMatch || 0 <= r < |targets|
    ensures |targets| == 0 ==> r == NoMatch
    ensures |targets| > 0 && !IsClose(query[i], targets[i]) ==> r == NoMatch
    ensures r != NoMatch ==>
              IsClose(query[i], targets[i]) && consistent(query[i], r) &&
              forall k :: r < k < |targets| ==> !consistent(query[i], k)
    ensures r == NoMatch && |targets| > 0 && IsClose(query[i], targets[i]) ==>
              forall k :: 0 <= k < |targets| ==> !consistent(query[i], k)
  {
    if |targets| == 0 then NoMatch
    else if !IsClose(query[i], targets[i]) then NoMatch
    else LastConsistent(query[i], |targets|, consistent)
  }

  /** As written, the entry for query blob i depends on targets[j] for no
      j other than i: moving any other target leaves it unchanged. */
  lemma MatchedTargetIgnoresOtherTargets(query: seq<Blob>, targets: seq<Blob>, targets': seq<Blob>,
                                         i: nat, consistent: (Blob, int) -> bool)
    requires i < |query| && i < |targets|
    requires |targets'| == |targets| && targets'[i] == targets[i]
    ensures MatchedTarget(query, targets, i, consistent) == MatchedTarget(query, targets', i, consistent)
  {
  }

  /** BlobWithTrajectoryMatcher::match as written. One entry per query blob;
      for each, every target index j is scanned in order and the entry is
      overwritten whenever the proximity test (on targets[i], the source's
      slip for targets[j]) and the trajectory test both pass, so the last
      passing index wins. Line 37 indexes targets by i, which reads past the
      end of targets when i >= |targets| > 0; the precondition excludes that. */
  method Match(query: seq<Blob>, targets: seq<Blob>, consistent: (Blob, int) -> bool)
    returns (matches: array<int>)
    requires |targets| == 0 || |query| <= |targets|
    ensures matches.Length == |query|
    ensures forall i :: 0 <= i < |query| ==> matches[i] == MatchedTarget(query, targets, i, consistent)
  {
    matches := new int[|query|];
    var i := 0;
    while i < |query|
      invariant 0 <= i <= |query|
      invariant forall k :: 0 <= k < i ==> matches[k] == MatchedTarget(query, targets, k, consistent)
    {
      matches[i] := NoMatch;
      var j := 0;
      while j < |targets|
        invariant 0 <= j <= |targets|
        invariant forall k :: 0 <= k < i ==> matches[k] == MatchedTarget(query, targets, k, consistent)
        invariant |targets| == 0 ==> matches[i] == NoMatch
        invariant |targets| > 0 ==>
                    matches[i] == if IsClose(query[i], targets[i]) then LastConsistent(query[i], j, consistent)
                                  else NoMatch
      {
        if IsClose(query[i], targets[i]) && consistent(query[i], j) {
          matches[i] := j;
        }
        j := j + 1;
      }
      i := i + 1;
    }
  }

  /** The largest target index below n that is near b as documented and
      that the trajectory test accepts, or NoMatch. */
  function LastNearConsistent(b: Blob, targets: seq<Blob>, n: nat,
                              consistent: (Blob, int) -> bool): (r: int)
    requires n <= |targets|
    ensures r == NoMatch || 0 <= r < n
    ensures r != NoMatch ==> IsNear(b, targets[r]) && consistent(b, r)
    ensures forall k :: r < k < n ==> !(IsNear(b, targets[k]) && consistent(b, k))
  {
    if n == 0 then NoMatch
    else if IsNear(b, targets[n - 1]) && consistent(b, n - 1) then n - 1
    else LastNearConsistent(b, targets, n - 1, consistent)
  }

  /** match as its documentation intends it: candidate j is tested for
      proximity against targets[j], with the documented polarity. The scan
      order and the last-wins overwrite are kept. Any query and target
      lengths are accepted. */
  method MatchCorrected(query: seq<Blob>, targets: seq<Blob>, consistent: (Blob, int) -> bool)
    returns (matches: array<int>)
    ensures matches.Length == |query|
    ensures forall i :: 0 <= i < |query| ==>
              matches[i] == LastNearConsistent(query[i], targets, |targets|, consistent)
  {
    matches := new int[|query|];
    var i := 0;
    while i < |query|
      invariant 0 <= i <= |query|
      invariant forall k :: 0 <= k < i ==>
                  matches[k] == LastNearConsistent(query[k], targets, |targets|, consistent)
    {
      matches[i] := NoMatch;
      var j := 0;
      while j < |targets|
        invariant 0 <= j <= |targets|
        invariant forall k :: 0 <= k < i ==>
                    matches[k] == LastNearConsistent(query[k], targets, |targets|, consistent)
        invariant matches[i] == LastNearConsistent(query[i], targets, j, consistent)
      {
        if IsNear(query[i], targets[j]) && consistent(query[i], j) {
          matches[i] := j;
        }
        j := j + 1;
      }
      i := i + 1;
    }
  }

  /** Two identical query blobs, every trajectory accepted: as written they
      receive different entries, because each is tested against the target
      at its own position; the corrected matcher gives both the same one. */
  lemma IdenticalQueriesMatchDifferently()
    ensures var a := Blob(0, 0, 1, 1);
            var query := [a, a];
            var targets := [Blob(50, 50, 1, 1), a];
            var anyTrack := (b: Blob, j: int) => true;
            MatchedTarget(query, targets, 0, anyTrack) == 1 &&
            MatchedTarget(query, targets, 1, anyTrack) == NoMatch &&
            LastNearConsistent(query[0], targets, 2, anyTrack) == 1 &&
            LastNearConsistent(query[1], targets, 2, anyTrack) == 1
  {
  }

  /** A query blob on top of the only target, every trajectory accepted: as
      written it stays unmatched; the corrected matcher matches it. */
  lemma OverlappingQueryStaysUnmatched()
    ensures var query := [Blob(5, 5, 10, 10)];
            var targets := [Blob(0, 0, 10, 10)];
            var anyTrack := (b: Blob, j: int) => true;
            MatchedTarget(query, targets, 0, anyTrack) == NoMatch &&
            LastNearConsistent(query[0], targets, 1, anyTrack) == 0
  {
  }

  /** The history after one time step: the last frame's blobs carried forward
      as the starting point of the new frame. */
  function CarryForward(history: seq<seq<Blob>>): (h: seq<seq<Blob>>)
    requires history != []
    ensures |h| == |history| + 1
    ensures h[..|history|] == history
    ensures h[|history|] == history[|history| - 1]
  {
    history + [history[|history| - 1]]
  }

  /** Two time steps with no update in between leave the last two frames
      equal to each other and to the frame before the steps. */
  lemma CarryForwardTwice(history: seq<seq<Blob>>)
    requires history != []
    ensures var h := CarryForward(CarryForward(history));
            |h| == |history| + 2 && h[..|history|] == history &&
            h[|h| - 1] == h[|h| - 2] == history[|history| - 1]
  {
  }

  /** BlobTrajectoryTracker: a time counter and the per-time-instance blob
      history. */
  class BlobTrajectoryTracker {
    var currentTime: int
    var blobsOverTime: seq<seq<Blob>>

    /** A fresh tracker starts at time 0 with an empty history. */
    constructor ()
      ensures currentTime == 0
      ensures blobsOverTime == []
    {
      currentTime := 0;
      blobsOverTime := [];
    }

    /** addBlobs has an empty body in the source: it changes nothing. */
    method AddBlobs(newBlobs: seq<Blob>)
      ensures unchanged(this)
    {
    }

    /** updateBlobs has an empty body in the source: it changes nothing. */
    method UpdateBlobs(newBlobs: seq<Blob>, idsToUpdate: seq<int>)
      ensures unchanged(this)
    {
    }

    /** nextTimeInstance: advance the counter by one, then append a copy of
      the last history entry. On an empty history `at(size()-1)` throws after
      the counter has already moved; that outcome is ok == false with the
      history left as it was. */
    method NextTimeInstance() returns (ok: bool)
      modifies this
      ensures currentTime == old(currentTime) + 1
      ensures ok <==> old(blobsOverTime) != []
      ensures ok ==> blobsOverTime == CarryForward(old(blobsOverTime))
      ensures !ok ==> blobsOverTime == old(blobsOverTime)
    {
      currentTime := currentTime + 1;
      if blobsOverTime == [] {
        return false;
      }
      blobsOverTime := blobsOverTime + [blobsOverTime[|blobsOverTime| - 1]];
      ok := true;
    }
  }
}
