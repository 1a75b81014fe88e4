/** Earth Mover's Distance correspondence read-out (src/emd_matcher.cpp).

    The matcher lays the stored ("database") descriptors and the query
    descriptors out as weighted signatures, hands both to an external
    transportation solver, and reads back, for every row of the solver's flow
    matrix, the column carrying the most flow. The solver is not part of this
    model: its flow matrix is an input of shape dbRows x queryRows. Flow
    values are reals; only comparisons are made on them. */
module EmdMatcher {

  /** A keypoint as OpenCV stores it; the matcher copies keypoints but never
      reads them. */
  datatype KeyPoint = KeyPoint(x: real, y: real, size: real, angle: real,
                               response: real, octave: int, classId: int)

  /** A dense matrix as a sequence of rows; the column count is kept
      explicitly so that a matrix with no rows still has a width. */
  datatype Matrix = Matrix(rows: nat, cols: nat, cells: seq<seq<real>>) {
    predicate Valid() {
      |cells| == rows && forall r :: 0 <= r < rows ==> |cells[r]| == cols
    }
  }

  /** The column minMaxLoc reports for an empty row. */
  const NoMatch: int := -1

  /** Index of the first largest entry of row[..n]: a left-to-right scan that
      replaces its candidate only on a strictly larger entry, as minMaxLoc
      does, so ties go to the lowest index. */
  function FirstArgMax(row: seq<real>, n: nat): (j: nat)
    requires 0 < n <= |row|
    ensures j < n
    ensures forall k :: 0 <= k < n ==> row[k] <= row[j]
    ensures forall k :: 0 <= k < j ==> row[k] < row[j]
  {
    if n == 1 then 0
    else
      var m := FirstArgMax(row, n - 1);
      if row[n - 1] > row[m] then n - 1 else m
  }

  /** Being a maximum and preceded only by smaller entries pins a column down:
      FirstArgMax is the only column with both properties. */
  lemma FirstMaxIsUnique(row: seq<real>, j: nat)
    requires j < |row|
    requires forall k :: 0 <= k < |row| ==> row[k] <= row[j]
    requires forall k :: 0 <= k < j ==> row[k] < row[j]
    ensures j == FirstArgMax(row, |row|)
  {
  }

  /** The maximum part of minMaxLoc on one flow row: the largest value and
      the column of its first occurrence. For an empty row minMaxLoc reports
      value 0 at location -1. */
  method MaxFlowLocation(row: seq<real>) returns (maxValue: real, maxLocation: int)
    ensures |row| == 0 ==> maxLocation == NoMatch && maxValue == 0.0
    ensures |row| > 0 ==> maxLocation == FirstArgMax(row, |row|) && maxValue == row[maxLocation]
  {
    if |row| == 0 {
      return 0.0, NoMatch;
    }
    maxValue, maxLocation := row[0], 0;
    var c := 1;
    while c < |row|
      invariant 1 <= c <= |row|
      invariant 0 <= maxLocation < c
      invariant maxLocation == FirstArgMax(row, c)
      invariant maxValue == row[maxLocation]
    {
      if row[c] > maxValue {
        maxValue, maxLocation := row[c], c;
      }
      c := c + 1;
    }
  }

  /** sig is the signature of (weights, d): one row per descriptor row, the
      weight in column 0 and descriptor entry [r][c] in column c + 1. */
  ghost predicate IsSignature(sig: array2<real>, weights: seq<real>, d: Matrix)
    reads sig
    requires d.Valid() && |weights| == d.rows
  {
    && sig.Length0 == d.rows
    && sig.Length1 == d.cols + 1
    && (forall r :: 0 <= r < d.rows ==> sig[r, 0] == weights[r])
    && (forall r, c :: 0 <= r < d.rows && 0 <= c < d.cols ==> sig[r, c + 1] == d.cells[r][c])
  }

  /** The descriptor column range of a signature as written:
      `colRange(Range(1, cols))`, the half-open range [1, cols). It is one
      column narrower than the descriptors copied into it and leaves out the
      signature's last column, cols. */
  function DescriptorColumnRange(descriptorCols: nat): (range: (int, int))
    ensures range.1 - range.0 == descriptorCols - 1
    ensures !(range.0 <= descriptorCols < range.1)
  {
    (1, descriptorCols)
  }

  /** Signature construction as written, into the buffer `sig` allocated as
      `Mat(rows, cols + 1)`. The weight column view has the weights' shape, so
      the weights land in column 0. `Range(1, cols)` is not a valid range
      when cols == 0 (ok is false then; the weights were already copied).
      Otherwise the descriptor view is one column narrower than the
      descriptors, and `copyTo` into a destination of another size
      re-allocates the destination instead of writing through it: columns
      1..cols keep whatever the buffer held. */
  method BuildSignatureAsWritten(sig: array2<real>, weights: seq<real>, d: Matrix) returns (ok: bool)
    requires d.Valid()
    requires |weights| == d.rows
    requires sig.Length0 == d.rows && sig.Length1 == d.cols + 1
    modifies sig
    ensures ok <==> d.cols >= 1
    ensures forall r :: 0 <= r < d.rows ==> sig[r, 0] == weights[r]
    ensures forall r, c :: 0 <= r < d.rows && 1 <= c <= d.cols ==> sig[r, c] == old(sig[r, c])
  {
    var r := 0;
    while r < d.rows
      invariant 0 <= r <= d.rows
      invariant forall k :: 0 <= k < r ==> sig[k, 0] == weights[k]
      invariant forall k, c :: 0 <= k < d.rows && 1 <= c <= d.cols ==> sig[k, c] == old(sig[k, c])
    {
      sig[r, 0] := weights[r];
      r := r + 1;
    }
    var range := DescriptorColumnRange(d.cols);
    ok := range.0 <= range.1;
    // When ok, the view is range.1 - range.0 == d.cols - 1 columns wide, not
    // d.cols, so the copy re-allocates the view and sig is not written.
  }

  /** Allocate a signature and copy the weight column and then the
      descriptor columns into it, with the intended layout: descriptors fill
      columns 1..cols. */
  method BuildSignature(weights: seq<real>, d: Matrix) returns (sig: array2<real>)
    requires d.Valid()
    requires |weights| == d.rows
    ensures IsSignature(sig, weights, d)
  {
    sig := new real[d.rows, d.cols + 1];
    var r := 0;
    while r < d.rows
      invariant 0 <= r <= d.rows
      invariant forall k :: 0 <= k < r ==> sig[k, 0] == weights[k]
    {
      sig[r, 0] := weights[r];
      r := r + 1;
    }
    r := 0;
    while r < d.rows
      invariant 0 <= r <= d.rows
      invariant forall k :: 0 <= k < d.rows ==> sig[k, 0] == weights[k]
      invariant forall k, c :: 0 <= k < r && 0 <= c < d.cols ==> sig[k, c + 1] == d.cells[k][c]
    {
      var c := 0;
      while c < d.cols
        invariant 0 <= c <= d.cols
        invariant forall k :: 0 <= k < d.rows ==> sig[k, 0] == weights[k]
        invariant forall k, c' :: 0 <= k < r && 0 <= c' < d.cols ==> sig[k, c' + 1] == d.cells[k][c']
        invariant forall c' :: 0 <= c' < c ==> sig[r, c' + 1] == d.cells[r][c']
      {
        sig[r, c + 1] := d.cells[r][c];
        c := c + 1;
      }
      r := r + 1;
    }
  }

  /** EMDDescriptorMatcher: the stored keypoints and descriptors and the two
      weight vectors set by SetWeights. */
  class EMDDescriptorMatcher {
    var dbKeypoints: seq<KeyPoint>
    var dbDescriptors: Matrix
    var weight1: seq<real>
    var weight2: seq<real>

    /** index: store copies of the keypoints and descriptors. */
    method Index(keypoints: seq<KeyPoint>, descriptors: Matrix)
      modifies this
      ensures dbKeypoints == keypoints && dbDescriptors == descriptors
      ensures weight1 == old(weight1) && weight2 == old(weight2)
    {
      dbKeypoints := keypoints;
      dbDescriptors := descriptors;
    }

    /** SetWeights: store the database and query weight vectors. */
    method SetWeights(w1: seq<real>, w2: seq<real>)
      modifies this
      ensures weight1 == w1 && weight2 == w2
      ensures dbKeypoints == old(dbKeypoints) && dbDescriptors == old(dbDescriptors)
    {
      weight1 := w1;
      weight2 := w2;
    }

    /** match: build both signatures, take the solver's flow matrix (one row
        per database row, one column per query row), and record for every
        flow row the column of its strongest flow and that flow value. The
        weights must have been set for the current descriptors: each weight
        vector has one entry per descriptor row. */
    method Match(queryKeypoints: seq<KeyPoint>, queryDescriptors: Matrix, flow: seq<seq<real>>)
      returns (signature1: array2<real>, signature2: array2<real>,
               matches: array<int>, distances: array<real>)
      requires dbDescriptors.Valid() && queryDescriptors.Valid()
      requires |weight1| == dbDescriptors.rows && |weight2| == queryDescriptors.rows
      requires |flow| == dbDescriptors.rows
      requires forall i :: 0 <= i < |flow| ==> |flow[i]| == queryDescriptors.rows
      ensures IsSignature(signature1, weight1, dbDescriptors)
      ensures IsSignature(signature2, weight2, queryDescriptors)
      ensures matches.Length == |flow| && distances.Length == |flow|
      ensures queryDescriptors.rows == 0 ==>
                forall i :: 0 <= i < |flow| ==> matches[i] == NoMatch && distances[i] == 0.0
      ensures queryDescriptors.rows > 0 ==>
                forall i :: 0 <= i < |flow| ==>
                  && matches[i] == FirstArgMax(flow[i], |flow[i]|)
                  && 0 <= matches[i] < queryDescriptors.rows
                  && distances[i] == flow[i][matches[i]]
      ensures forall i, k :: 0 <= i < |flow| && 0 <= k < |flow[i]| ==> flow[i][k] <= distances[i]
    {
      signature1 := BuildSignature(weight1, dbDescriptors);
      signature2 := BuildSignature(weight2, queryDescriptors);
      matches := new int[|flow|];
      distances := new real[|flow|];
      var i := 0;
      while i < |flow|
        invariant 0 <= i <= |flow|
        invariant IsSignature(signature1, weight1, dbDescriptors)
        invariant IsSignature(signature2, weight2, queryDescriptors)
        invariant forall k :: 0 <= k < i && |flow[k]| == 0 ==> matches[k] == NoMatch && distances[k] == 0.0
        invariant forall k :: 0 <= k < i && |flow[k]| > 0 ==>
                    matches[k] == FirstArgMax(flow[k], |flow[k]|) && distances[k] == flow[k][matches[k]]
      {
        var maxValue, maxLocation := MaxFlowLocation(flow[i]);
        matches[i] := maxLocation;
        distances[i] := maxValue;
        i := i + 1;
      }
    }
  }
}
