/** The speckle filter applied to a segmentation mask: connected components
    (given as a label grid, label 0 being the background) whose area — the
    sum of the mask over the component — is below a threshold are set to 0,
    while the component of largest area is tracked. The lake-breeze
    inference visits labels 1..n; the instrument-steering copy visits labels
    0..n-1 of a mask transposed after labelling. */
module AreaFilter {
  import opened Wrappers

  type Grid = seq<seq<int>>

  /** Every row has the same length (a 2-D array). */
  predicate Rectangular(g: Grid) {
    forall r :: 0 <= r < |g| ==> |g[r]| == |g[0]|
  }

  function Width(g: Grid): nat {
    if |g| == 0 then 0 else |g[0]|
  }

  predicate SameShape(a: Grid, b: Grid) {
    |a| == |b| && forall r :: 0 <= r < |a| ==> |a[r]| == |b[r]|
  }

  /** Two grids of the same shape with the same cells are equal: a helper
      (grid extensionality) for the filter proofs below. */
  lemma SameCells(a: Grid, b: Grid)
    requires SameShape(a, b)
    requires forall r, c :: 0 <= r < |a| && 0 <= c < |a[r]| ==> a[r][c] == b[r][c]
    ensures a == b
  {
    forall r | 0 <= r < |a|
      ensures a[r] == b[r]
    {
    }
  }

  // ---------------------------------------------------------------------
  // Areas

  /** The sum of `row` over the cells whose label is `k`. */
  function RowArea(row: seq<int>, labelRow: seq<int>, k: int): int
    requires |row| == |labelRow|
  {
    if |row| == 0 then 0
    else (if labelRow[0] == k then row[0] else 0) + RowArea(row[1..], labelRow[1..], k)
  }

  /** `mask[labels == k].sum()`. */
  function Area(mask: Grid, labels: Grid, k: int): int
    requires SameShape(mask, labels)
  {
    if |mask| == 0 then 0
    else RowArea(mask[0], labels[0], k) + Area(mask[1..], labels[1..], k)
  }

  lemma {:induction false} RowAreaAgree(a: seq<int>, b: seq<int>, labelRow: seq<int>, k: int)
    requires |a| == |labelRow| && |b| == |labelRow|
    requires forall c :: 0 <= c < |a| && labelRow[c] == k ==> a[c] == b[c]
    ensures RowArea(a, labelRow, k) == RowArea(b, labelRow, k)
  {
    if |a| > 0 {
      RowAreaAgree(a[1..], b[1..], labelRow[1..], k);
    }
  }

  /** The area of component k depends only on the cells labelled k. */
  lemma {:induction false} AreaAgree(a: Grid, b: Grid, labels: Grid, k: int)
    requires SameShape(a, labels) && SameShape(b, labels)
    requires forall r, c :: 0 <= r < |a| && 0 <= c < |a[r]| && labels[r][c] == k ==> a[r][c] == b[r][c]
    ensures Area(a, labels, k) == Area(b, labels, k)
  {
    if |a| > 0 {
      RowAreaAgree(a[0], b[0], labels[0], k);
      AreaAgree(a[1..], b[1..], labels[1..], k);
    }
  }

  lemma {:induction false} RowAreaOfZeros(a: seq<int>, labelRow: seq<int>, k: int)
    requires |a| == |labelRow|
    requires forall c :: 0 <= c < |a| && labelRow[c] == k ==> a[c] == 0
    ensures RowArea(a, labelRow, k) == 0
  {
    if |a| > 0 {
      RowAreaOfZeros(a[1..], labelRow[1..], k);
    }
  }

  /** A component whose cells are all 0 has area 0. */
  lemma {:induction false} AreaOfZeros(a: Grid, labels: Grid, k: int)
    requires SameShape(a, labels)
    requires forall r, c :: 0 <= r < |a| && 0 <= c < |a[r]| && labels[r][c] == k ==> a[r][c] == 0
    ensures Area(a, labels, k) == 0
  {
    if |a| > 0 {
      RowAreaOfZeros(a[0], labels[0], k);
      AreaOfZeros(a[1..], labels[1..], k);
    }
  }

  // ---------------------------------------------------------------------
  // The loop

  /** `mask[labels == k] = 0`. */
  function ZeroLabel(mask: Grid, labels: Grid, k: int): (r: Grid)
    requires SameShape(mask, labels)
    ensures SameShape(r, labels)
    ensures forall i, j :: 0 <= i < |r| && 0 <= j < |r[i]| ==>
      r[i][j] == if labels[i][j] == k then 0 else mask[i][j]
  {
    seq(|mask|, i requires 0 <= i < |mask| =>
      seq(|mask[i]|, j requires 0 <= j < |mask[i]| => if labels[i][j] == k then 0 else mask[i][j]))
  }

  /** The loop's variables: the mask being filtered, `largest_area` and `largest_index`. */
  datatype SweepState = SweepState(mask: Grid, largestArea: int, largestIndex: int)

  /** The initial value of `largest_area`. */
  const NoArea: int := -99999

  /** The loop run over labels lo..hi-1 in increasing order: each label's
      area is taken from the mask as filtered so far; a strictly larger area
      becomes the largest, and an area below `threshold` zeroes the label. */
  function Sweep(orig: Grid, labels: Grid, lo: int, hi: int, threshold: int): (s: SweepState)
    requires SameShape(orig, labels)
    ensures SameShape(s.mask, labels)
    decreases hi - lo
  {
    if hi <= lo then SweepState(orig, NoArea, 0)
    else
      var prev := Sweep(orig, labels, lo, hi - 1, threshold);
      var k := hi - 1;
      var area := Area(prev.mask, labels, k);
      var larger := area > prev.largestArea;
      SweepState(
        if area < threshold then ZeroLabel(prev.mask, labels, k) else prev.mask,
        if larger then area else prev.largestArea,
        if larger then k else prev.largestIndex)
  }

  /** Whether the cell at (i, j) is removed: its label was visited and the
      component's area in the original mask is below the threshold. */
  predicate Removed(orig: Grid, labels: Grid, lo: int, hi: int, threshold: int, i: int, j: int)
    requires SameShape(orig, labels)
    requires 0 <= i < |labels| && 0 <= j < |labels[i]|
  {
    lo <= labels[i][j] < hi && Area(orig, labels, labels[i][j]) < threshold
  }

  /** The filtered mask, cell by cell: 0 where removed, the original elsewhere. */
  function Filtered(orig: Grid, labels: Grid, lo: int, hi: int, threshold: int): (r: Grid)
    requires SameShape(orig, labels)
    ensures SameShape(r, labels)
    ensures forall i, j :: 0 <= i < |r| && 0 <= j < |r[i]| ==>
      r[i][j] == if Removed(orig, labels, lo, hi, threshold, i, j) then 0 else orig[i][j]
  {
    seq(|orig|, i requires 0 <= i < |orig| =>
      seq(|orig[i]|, j requires 0 <= j < |orig[i]| =>
        if Removed(orig, labels, lo, hi, threshold, i, j) then 0 else orig[i][j]))
  }

  /** Visiting one more label extends the filtered mask by that label. */
  lemma FilteredStep(orig: Grid, labels: Grid, lo: int, k: int, threshold: int)
    requires SameShape(orig, labels) && lo <= k
    ensures Area(Filtered(orig, labels, lo, k, threshold), labels, k) == Area(orig, labels, k)
    ensures Filtered(orig, labels, lo, k + 1, threshold) ==
      if Area(orig, labels, k) < threshold
      then ZeroLabel(Filtered(orig, labels, lo, k, threshold), labels, k)
      else Filtered(orig, labels, lo, k, threshold)
  {
    var before := Filtered(orig, labels, lo, k, threshold);
    AreaAgree(before, orig, labels, k);
    var after := Filtered(orig, labels, lo, k + 1, threshold);
    if Area(orig, labels, k) < threshold {
      SameCells(after, ZeroLabel(before, labels, k));
    } else {
      SameCells(after, before);
    }
  }

  /** The loop's mask is the cell-by-cell filtered mask; its largest area is
      the maximum of the initial value and every visited area; and its
      largest index is the first visited label reaching that maximum (0 when
      no area exceeds the initial value). Areas are those of the ORIGINAL
      mask: components are disjoint, so zeroing one never changes another's
      area, and the order of visiting does not matter. */
  lemma {:induction false} SweepSpec(orig: Grid, labels: Grid, lo: int, hi: int, threshold: int)
    requires SameShape(orig, labels)
    ensures var s := Sweep(orig, labels, lo, hi, threshold);
      && s.mask == Filtered(orig, labels, lo, hi, threshold)
      && s.largestArea >= NoArea
      && (forall k :: lo <= k < hi ==> Area(orig, labels, k) <= s.largestArea)
      && (s.largestArea == NoArea ==> s.largestIndex == 0)
      && (s.largestArea > NoArea ==>
            && lo <= s.largestIndex < hi
            && Area(orig, labels, s.largestIndex) == s.largestArea
            && forall k :: lo <= k < s.largestIndex ==> Area(orig, labels, k) < s.largestArea)
    decreases hi - lo
  {
    if hi <= lo {
      SameCells(orig, Filtered(orig, labels, lo, hi, threshold));
    } else {
      SweepSpec(orig, labels, lo, hi - 1, threshold);
      FilteredStep(orig, labels, lo, hi - 1, threshold);
    }
  }

  // ---------------------------------------------------------------------
  // infer_lake_breeze

  /** Lines 64-75 of `infer_lake_breeze`: labels 1..n visited with the
      caller's threshold; the mask was transposed before labelling, so mask
      and labels have the same shape. */
  function LakeBreezeFilter(mask: Grid, labels: Grid, numFeatures: nat, threshold: int): SweepState
    requires SameShape(mask, labels)
  {
    Sweep(mask, labels, 1, numFeatures + 1, threshold)
  }

  /** A pixel with label k in 1..n is zeroed exactly when component k's area
      is below the threshold; every other pixel (background, unvisited
      labels, components at or above the threshold) keeps its value. */
  lemma LakeBreezeFilterCells(mask: Grid, labels: Grid, numFeatures: nat, threshold: int, i: nat, j: nat)
    requires SameShape(mask, labels)
    requires i < |mask| && j < |mask[i]|
    ensures var m := LakeBreezeFilter(mask, labels, numFeatures, threshold).mask;
      && SameShape(m, mask)
      && (1 <= labels[i][j] <= numFeatures && Area(mask, labels, labels[i][j]) < threshold ==> m[i][j] == 0)
      && (!(1 <= labels[i][j] <= numFeatures && Area(mask, labels, labels[i][j]) < threshold) ==> m[i][j] == mask[i][j])
  {
    SweepSpec(mask, labels, 1, numFeatures + 1, threshold);
  }

  /** `largest_index` is the smallest label of maximal area among 1..n,
      chosen before zeroing (so it may name a component that is removed),
      or 0 with `largest_area` still -99999 when no area exceeds -99999. */
  lemma LakeBreezeLargest(mask: Grid, labels: Grid, numFeatures: nat, threshold: int)
    requires SameShape(mask, labels)
    ensures var s := LakeBreezeFilter(mask, labels, numFeatures, threshold);
      && (forall k :: 1 <= k <= numFeatures ==> Area(mask, labels, k) <= s.largestArea)
      && (s.largestIndex == 0 <==> s.largestArea == NoArea)
      && (s.largestIndex != 0 ==>
            && 1 <= s.largestIndex <= numFeatures
            && Area(mask, labels, s.largestIndex) == s.largestArea
            && forall k :: 1 <= k < s.largestIndex ==> Area(mask, labels, k) < s.largestArea)
  {
    SweepSpec(mask, labels, 1, numFeatures + 1, threshold);
  }

  /** With no features the loop does not run. */
  lemma LakeBreezeNoFeatures(mask: Grid, labels: Grid, threshold: int)
    requires SameShape(mask, labels)
    ensures LakeBreezeFilter(mask, labels, 0, threshold) == SweepState(mask, NoArea, 0)
  {
  }

  /** Filtering the filtered mask again with the same labels and threshold
      changes nothing. */
  lemma {:induction false} FilterIdempotent(orig: Grid, labels: Grid, lo: int, hi: int, threshold: int)
    requires SameShape(orig, labels)
    ensures var once := Sweep(orig, labels, lo, hi, threshold).mask;
      Sweep(once, labels, lo, hi, threshold).mask == once
  {
    var once := Filtered(orig, labels, lo, hi, threshold);
    SweepSpec(orig, labels, lo, hi, threshold);
    SweepSpec(once, labels, lo, hi, threshold);
    var twice := Filtered(once, labels, lo, hi, threshold);
    forall i, j | 0 <= i < |once| && 0 <= j < |once[i]|
      ensures twice[i][j] == once[i][j]
    {
      var k := labels[i][j];
      if Removed(orig, labels, lo, hi, threshold, i, j) {
        assert once[i][j] == 0;
      } else {
        AreaAgree(once, orig, labels, k);
      }
    }
    SameCells(twice, once);
  }

  // ---------------------------------------------------------------------
  // The copy in azimuth_point

  /** `mask.T` of a rectangular grid. */
  function Transpose(g: Grid): (t: Grid)
    requires Rectangular(g)
    ensures |t| == Width(g) && Rectangular(t)
    ensures forall c, r :: 0 <= c < |t| && 0 <= r < |g| ==> |t[c]| == |g| && t[c][r] == g[r][c]
  {
    seq(Width(g), c requires 0 <= c < Width(g) => seq(|g|, r requires 0 <= r < |g| => g[r][c]))
  }

  /** Boolean indexing with a mask of another shape raises IndexError. */
  datatype FilterError = ShapeMismatch

  /** The steering filter: labels are computed from the frame, then the
      frame is transposed, and labels 0..n-1 are visited with the threshold
      fixed at 20. With a non-square frame and at least one feature the
      first boolean index fails. */
  function SteeringFilter(frame: Grid, labels: Grid, numFeatures: nat): (r: Result<Grid, FilterError>)
    requires Rectangular(frame) && SameShape(labels, frame)
  {
    var t := Transpose(frame);
    if numFeatures == 0 then Success(t)
    else if !SameShape(t, labels) then Failure(ShapeMismatch)
    else Success(Sweep(t, labels, 0, numFeatures, SteeringThreshold).mask)
  }

  const SteeringThreshold: int := 20

  /** The steering filter fails exactly when there is a feature and the
      transposed frame's shape differs from the labels'; otherwise its
      pixels are those of the transposed frame, zeroed where the label lies
      in 0..n-1 and that component's area in the transposed frame is below
      20. Label n is never visited, so its pixels always survive. */
  lemma SteeringFilterCells(frame: Grid, labels: Grid, numFeatures: nat)
    requires Rectangular(frame) && SameShape(labels, frame)
    ensures var t := Transpose(frame);
      && (SteeringFilter(frame, labels, numFeatures).Failure? <==> numFeatures > 0 && !SameShape(t, labels))
      && (SteeringFilter(frame, labels, numFeatures).Success? && numFeatures > 0 ==>
            var m := SteeringFilter(frame, labels, numFeatures).value;
            && SameShape(t, labels) && SameShape(m, labels)
            && forall i, j :: 0 <= i < |m| && 0 <= j < |m[i]| ==>
                 m[i][j] == (if 0 <= labels[i][j] < numFeatures && Area(t, labels, labels[i][j]) < SteeringThreshold
                             then 0 else t[i][j]))
  {
    var t := Transpose(frame);
    if numFeatures > 0 && SameShape(t, labels) {
      SweepSpec(t, labels, 0, numFeatures, SteeringThreshold);
    }
  }

  /** Zeroing the background (label 0) leaves a mask unchanged when the mask
      is already 0 wherever the label is 0, as it is for the untransposed
      mask that the labels were computed from. */
  lemma BackgroundZeroingHarmless(mask: Grid, labels: Grid)
    requires SameShape(mask, labels)
    requires forall i, j :: 0 <= i < |mask| && 0 <= j < |mask[i]| && labels[i][j] == 0 ==> mask[i][j] == 0
    ensures ZeroLabel(mask, labels, 0) == mask
  {
    SameCells(ZeroLabel(mask, labels, 0), mask);
  }

  /** Because the mask is transposed after labelling, a single feature can be
      lost: in the 2×2 frame [[0,1],[0,0]] the one component (label 1) is
      never visited, but the background label 0 covers the transposed
      feature pixel, has area 1 < 20, and is zeroed, leaving nothing. */
  lemma TransposeLosesFeature()
    ensures SteeringFilter([[0, 1], [0, 0]], [[0, 1], [0, 0]], 1) == Success([[0, 0], [0, 0]])
  {
    var frame: Grid := [[0, 1], [0, 0]];
    var t := Transpose(frame);
    assert t[0][0] == 0 && t[0][1] == 0 && t[1][0] == 1 && t[1][1] == 0;
    SameCells(t, [[0, 0], [1, 0]]);
    assert RowArea([1, 0], [0, 0], 0) == 1 + RowArea([0], [0], 0);
    assert Area([[1, 0]], [[0, 0]], 0) == 1;
    assert RowArea([0, 0], [0, 1], 0) == 0 + RowArea([0], [1], 0);
    assert Area(t, frame, 0) == 1;
    SameCells(ZeroLabel(t, frame, 0), [[0, 0], [0, 0]]);
  }
}
