# Blob tracking and EMD matching cores, modelled in Dafny

This project models two correspondence cores of an OpenCV-based feature
tracker.

- **Blob matching** (`blob_matcher.dfy`, module `BlobMatcher`).
  `BlobWithTrajectoryMatcher::match` maps each query blob to a target blob
  index, or to `-1`. A target must pass a proximity test on the top-left
  corners of the bounding rectangles (`isClose`) and a trajectory test
  against the tracker (`isTrajectoryConsistent`). `BlobTrajectoryTracker`
  keeps a time counter and a per-time-instance blob history.
  `nextTimeInstance` advances the counter and carries the last history entry
  forward.
- **EMD matching** (`emd_matcher.dfy`, module `EmdMatcher`).
  `EMDDescriptorMatcher` stores database keypoints and descriptors (`index`)
  and two weight vectors (`SetWeights`). `match` lays both descriptor sets
  out as signatures: each row is a weight followed by a descriptor. It takes
  the flow matrix of the transportation solver and, for each flow row, reads
  off the column with the strongest flow and that flow value.

Modelling decisions:

- A blob is its upright bounding rectangle `Blob(x, y, width, height)` with
  integer fields. That is all the matcher reads of it.
- `isTrajectoryConsistent` has no body in the source. It is an uninterpreted
  predicate `consistent: (Blob, int) -> bool`, passed to `Match` as a
  parameter.
- `match` (blob) is modelled as written. Its entry for query `i` is
  specified by `MatchedTarget`. `MatchCorrected` is the version that the
  documentation describes (see Findings).
- Line 37 reads `target_blobs[i]`, which is out of bounds when
  `i >= |targets| > 0`. `Match` therefore requires `|targets| == 0 ||
  |query| <= |targets|`.
- `nextTimeInstance` on an empty history: `at(size()-1)` throws after the
  counter was already incremented. This is modelled as the outcome
  `ok == false`: the time has advanced and the history is unchanged. No
  precondition is used for it.
- The solver (`cvCalcEMD2`) is not modelled. Its flow matrix is an input of
  shape `dbRows x queryRows`. Flow values are `real`, since only comparisons
  are made on them.
- The per-row read-out follows `minMaxLoc`, scanning in column order. Ties
  go to the lowest column, because only a strictly larger value replaces the
  candidate. An empty row (no query rows) gives location `-1` and value `0`.
  Both are modelling choices that mirror OpenCV's `minMaxLoc`.
- The read-out runs over the flow matrix's rows, which are database rows
  (src/emd_matcher.cpp:73-89). It records a query column for each database
  row.
- `distances[i]` holds the largest flow in row `i`, so a larger value means a
  stronger match (`Match` ensures `flow[i][k] <= distances[i]`). The
  comment at src/emd_matcher.cpp:21 calls it a "matching distance (lower is
  better)". The model follows the code.
- Signatures are built with the intended layout: descriptor `[r][c]` goes to
  signature `[r][c+1]`. The code's `Range(1, cols)` is one column short (see
  Findings). `BuildSignatureAsWritten` models the construction as written.
- Each weight vector must have one entry per descriptor row (`Match`
  requires it). Each weight `Mat` is also assumed to be an N x 1 column of
  type `CV_32F`, as the comment at src/emd_matcher.cpp:95-96 describes. The
  model does not check this shape and type. `copyTo` writes into the column 0
  view only when both the shape and the type match.
- `index` and `SetWeights` store values. `Mat` header sharing (aliasing)
  after `SetWeights` is not modelled.

## Model

| member | source | states |
|---|---|---|
| `BlobMatcher.IsClose` | src/blobtrack/blob_matcher.cpp:57-65 | as written: true exactly when the query's corner lies outside the box of half-widths 2*width and 2*height around the target's corner |
| `BlobMatcher.IsNear` | src/blobtrack/blob_matcher.cpp:51-56 | as documented: true exactly when the query's corner lies inside that box |
| `BlobMatcher.IsCloseIsNotNear` | src/blobtrack/blob_matcher.cpp:51-64 | the written proximity test holds exactly when the documented one (within twice the target's width and height on both axes) fails |
| `BlobMatcher.SameCornerIsNeverClose` | src/blobtrack/blob_matcher.cpp:61-64 | a query sharing the target's top-left corner (target of non-negative size) is near as documented but never "close" as written |
| `BlobMatcher.ProximityExamples` | src/blobtrack/blob_matcher.cpp:53-64 | target (0,0,10,10): query (5,5) is within tolerance, query (100,100) is not; the written test answers the reverse |
| `BlobMatcher.LastConsistent` | src/blobtrack/blob_matcher.cpp:36-47 | the last-wins scan over 0..n-1 yields -1 or an index below n that the trajectory test accepts, with no accepted index after it; -1 means none is accepted |
| `BlobMatcher.MatchedTarget` | src/blobtrack/blob_matcher.cpp:32-47 | each entry is -1 or a valid target index; -1 when there are no targets or when `isClose(query[i], targets[i])` fails; otherwise the largest trajectory-consistent index, or -1 when there is none |
| `BlobMatcher.MatchedTargetIgnoresOtherTargets` | src/blobtrack/blob_matcher.cpp:37-38 | as written, entry i does not depend on any target other than targets[i] |
| `BlobMatcher.Match` | src/blobtrack/blob_matcher.cpp:27-49 | one entry per query blob, and each entry equals MatchedTarget (the nested-loop overwrite proved against it) |
| `BlobMatcher.LastNearConsistent` | src/blobtrack/blob_matcher.cpp:36-47 | corrected scan: -1 or the largest index j whose target is near as documented and whose trajectory test passes, with none after it |
| `BlobMatcher.MatchCorrected` | src/blobtrack/blob_matcher.cpp:27-49 | corrected match, defined for all input lengths: one entry per query blob, each the last target near it with a consistent trajectory, or -1 |
| `BlobMatcher.IdenticalQueriesMatchDifferently` | src/blobtrack/blob_matcher.cpp:37-41 | two identical query blobs get different entries as written (1 and -1), and the same entry once corrected |
| `BlobMatcher.OverlappingQueryStaysUnmatched` | src/blobtrack/blob_matcher.cpp:57-64 | a query overlapping the only target stays unmatched as written, and is matched to it once corrected |
| `BlobMatcher.CarryForward` | src/blobtrack/blob_matcher.cpp:101-103 | one time step makes the history one longer, leaves earlier entries unchanged, and the new last entry equals the old last entry |
| `BlobMatcher.CarryForwardTwice` | src/blobtrack/blob_matcher.cpp:98-104 | two steps with no update in between leave the last two entries equal to the entry before the steps |
| `BlobMatcher.BlobTrajectoryTracker.constructor` | src/blobtrack/blob_matcher.cpp:68-70 | a fresh tracker is at time 0 with an empty history |
| `BlobMatcher.BlobTrajectoryTracker.AddBlobs` | src/blobtrack/blob_matcher.cpp:74-76 | the tracker is unchanged (the body is empty) |
| `BlobMatcher.BlobTrajectoryTracker.UpdateBlobs` | src/blobtrack/blob_matcher.cpp:80-82 | the tracker is unchanged (the body is empty) |
| `BlobMatcher.BlobTrajectoryTracker.NextTimeInstance` | src/blobtrack/blob_matcher.cpp:98-104 | time grows by exactly 1; succeeds iff the history was non-empty, and then the history is its carry-forward; otherwise the history is unchanged |
| `EmdMatcher.FirstArgMax` | src/emd_matcher.cpp:84-88 | the chosen column is in range, its flow is at least every flow in the row, and every earlier column's flow is strictly smaller (ties go to the lowest column) |
| `EmdMatcher.FirstMaxIsUnique` | src/emd_matcher.cpp:84-88 | any column that is a maximum with only strictly smaller entries before it is FirstArgMax |
| `EmdMatcher.MaxFlowLocation` | src/emd_matcher.cpp:82-88 | the in-order scan of one flow row returns FirstArgMax and the flow there; an empty row gives location -1 and value 0 |
| `EmdMatcher.DescriptorColumnRange` | src/emd_matcher.cpp:50-51 | the descriptor view `Range(1, cols)` as written spans cols-1 columns and leaves out the signature's last column |
| `EmdMatcher.BuildSignatureAsWritten` | src/emd_matcher.cpp:38-53 | as written, with the buffer passed in: the weights land in column 0; the construction fails exactly when cols == 0; columns 1..cols keep their previous values |
| `EmdMatcher.IsSignature` | src/emd_matcher.cpp:33-53 | the intended signature layout: rows as descriptors, one more column, weights in column 0, descriptor [r][c] at [r][c+1] |
| `EmdMatcher.BuildSignature` | src/emd_matcher.cpp:37-53 | the signature has as many rows as the descriptors and one more column; column 0 holds the weights; descriptor [r][c] sits at [r][c+1] |
| `EmdMatcher.EMDDescriptorMatcher.Index` | src/emd_matcher.cpp:6-12 | the stored keypoints and descriptors equal the inputs; the weights are unchanged |
| `EmdMatcher.EMDDescriptorMatcher.SetWeights` | src/emd_matcher.cpp:98-102 | the stored weights equal the inputs; keypoints and descriptors are unchanged |
| `EmdMatcher.EMDDescriptorMatcher.Match` | src/emd_matcher.cpp:27-91 | both signatures have the signature layout; matches and distances have one entry per flow row (= database row); with query rows, each match is the first strongest column, in range, its distance is that flow and is at least every flow in the row |

## Findings

| source | as written | input that shows it | evidently intended | confidence | as-written member | corrected member |
|---|---|---|---|---|---|---|
| src/blobtrack/blob_matcher.cpp:64 | `dx > 2*width` or `dy > 2*height`: true for far rectangles | query (5,5,10,10), target (0,0,10,10): overlapping, yet `isClose` is false | `dx <= 2*width && dy <= 2*height`, as the comment at lines 53-55 says | high, not executed | `IsClose`, `IsCloseIsNotNear`, `SameCornerIsNeverClose`, `OverlappingQueryStaysUnmatched` | `IsNear`, `LastNearConsistent`, `MatchCorrected` |
| src/blobtrack/blob_matcher.cpp:37 | `isClose(query_blobs[i], target_blobs[i])` inside the loop over j | query [a, a] with a = (0,0,1,1), targets [(50,50,1,1), a], all trajectories consistent: entries 1 and -1 | `target_blobs[j]` | high, not executed | `Match`, `MatchedTarget`, `MatchedTargetIgnoresOtherTargets`, `IdenticalQueriesMatchDifferently` | `MatchCorrected`, `LastNearConsistent` |
| src/emd_matcher.cpp:50-51 | `colRange(Range(1, cols))`: columns 1..cols-1 | any descriptor matrix with cols >= 1: the view is cols-1 wide, one short of the cols-wide descriptors | `Range(1, cols + 1)`, so descriptor [r][c] lands in signature [r][c+1] | high, not executed | `DescriptorColumnRange`, `BuildSignatureAsWritten` | `BuildSignature` |

`BuildSignatureAsWritten` rests on one assumption about OpenCV. `copyTo`
into a destination of another size re-allocates the destination instead of
writing through it. Under that assumption, no descriptor value reaches the
signature. `Range(1, 0)`, for descriptors with no columns, is not a valid
range; this is the `ok == false` outcome.

## Left out

- `cvCalcEMD2`, the transportation solver: a foreign floating-point optimisation. Its flow matrix is a parameter of `Match`, constrained only in shape. The check that the two signatures have equal width also belongs to the solver.
- `blob_distance` and the `DistanceType` template parameter: declared outside this model; they are only handed to the solver.
- `diagonal_image_length` and the commented-out `cvSave`: solver tuning and debug output.
- The `query_image` and `target_image` parameters of blob `match`: never read.
- The `BlobWithTrajectoryMatcher` constructor only stores the tracker pointer. The tracker is used in `match` only through `isTrajectoryConsistent`, which `Match` receives as the parameter `consistent`.
- `BlobDetector` (include/opencv2/video/blobtrack2.hpp): a declaration only.
- The `mutable` buffers `signature1_` and `signature2_` are reused across calls. The model returns fresh signature arrays from `Match` instead. Only `BuildSignatureAsWritten` takes its buffer as a parameter.
- Weight `Mat`s that are not N x 1 columns of type `CV_32F`: `copyTo` would then re-allocate the column 0 view and leave column 0 unset. This is not modelled; the weights are sequences of the right length.
- The minimum value that `minMaxLoc` also computes: `match` discards it.
- Floating point: NaN flows, and the float rounding in `fabs` and in the comparisons of `isClose`. Coordinates and sizes are exact integers here.
- The element type of the tracker's history is declared in a header that is not part of this model. It is taken to be one blob list per time instance.
- Match: does not model 32-bit overflow of the coordinate differences or of `2*width` inside `isClose`.
- `NextTimeInstance`: does not model overflow of the `int` time counter.
