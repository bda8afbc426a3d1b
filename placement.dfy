/**
 * One placement pass of the workspace: every measured size, in index order,
 * takes the first corner (ascending by top, then left) at which it fits;
 * the corner is consumed and the right and below scans add new ones.
 *
 * `Step`, `Run` and `Pass` are the pass as functions; `PlacePanels` is the
 * pass as the component runs it, with the corner list and the position list
 * as accumulators, and is proved to compute `Pass`.
 */
module Placement {
  import opened Geometry
  import opened Ordering
  import opened Frontier

  /** What a pass threads from panel to panel: the corner list and the rectangles placed so far, in placement order. */
  datatype Layout = Layout(corners: seq<Corner>, positions: seq<Position>)

  /** The start of every pass: a single corner at the origin, nothing placed. */
  const Seed: Layout := Layout([Corner(0, 0)], [])

  /**
   * The findIndex predicate: at corner `c` a panel of size `s` fits when it
   * stays within the container and comes within GAP of no placed rectangle;
   * a panel that would cross the container's right edge fits only at left 0,
   * and there no overlap test is made.
   */
  predicate Fits(c: Corner, s: Size, placed: seq<Position>, containerWidth: int)
  {
    var r := Place(c, s);
    if containerWidth < r.right then c.left == 0
    else !exists i :: 0 <= i < |placed| && TooClose(placed[i], r)
  }

  /** The first index at or after `from` whose corner fits, if any. */
  function FindFittingCornerFrom(corners: seq<Corner>, from: nat, s: Size, placed: seq<Position>, containerWidth: int): (r: Option<nat>)
    requires from <= |corners|
    ensures r.Some? ==> from <= r.value < |corners|
    decreases |corners| - from
  {
    if from == |corners| then None
    else if Fits(corners[from], s, placed, containerWidth) then Some(from)
    else FindFittingCornerFrom(corners, from + 1, s, placed, containerWidth)
  }

  /** findIndex over the corner list: the first fitting corner's index, or None where the source has -1. */
  function FindFittingCorner(corners: seq<Corner>, s: Size, placed: seq<Position>, containerWidth: int): (r: Option<nat>)
    ensures r.Some? ==> r.value < |corners|
  {
    FindFittingCornerFrom(corners, 0, s, placed, containerWidth)
  }

  lemma {:induction false} FindFittingCornerFromIsFirst(corners: seq<Corner>, from: nat, s: Size, placed: seq<Position>, containerWidth: int)
    requires from <= |corners|
    ensures FindFittingCornerFrom(corners, from, s, placed, containerWidth).Some? ==>
      var k := FindFittingCornerFrom(corners, from, s, placed, containerWidth).value;
      Fits(corners[k], s, placed, containerWidth) &&
      forall j :: from <= j < k ==> !Fits(corners[j], s, placed, containerWidth)
    ensures FindFittingCornerFrom(corners, from, s, placed, containerWidth).None? ==>
      forall j :: from <= j < |corners| ==> !Fits(corners[j], s, placed, containerWidth)
    decreases |corners| - from
  {
    if from < |corners| && !Fits(corners[from], s, placed, containerWidth) {
      FindFittingCornerFromIsFirst(corners, from + 1, s, placed, containerWidth);
    }
  }

  /**
   * findIndex's contract: the index found holds a fitting corner and no
   * earlier corner fits; none is found exactly when no corner fits.
   */
  lemma FindFittingCornerIsFirst(corners: seq<Corner>, s: Size, placed: seq<Position>, containerWidth: int)
    ensures FindFittingCorner(corners, s, placed, containerWidth).Some? ==>
      var k := FindFittingCorner(corners, s, placed, containerWidth).value;
      Fits(corners[k], s, placed, containerWidth) &&
      forall j :: 0 <= j < k ==> !Fits(corners[j], s, placed, containerWidth)
    ensures FindFittingCorner(corners, s, placed, containerWidth).None? <==>
      forall j :: 0 <= j < |corners| ==> !Fits(corners[j], s, placed, containerWidth)
  {
    FindFittingCornerFromIsFirst(corners, 0, s, placed, containerWidth);
  }

  /** Where the panel of size `s` is placed from layout `l`, or None when it is skipped. */
  function Outcome(l: Layout, s: Size, containerWidth: int): Option<Position>
  {
    var sorted := SortCorners(l.corners);
    match FindFittingCorner(sorted, s, l.positions, containerWidth)
    case None => None
    case Some(k) => Some(Place(sorted[k], s))
  }

  /**
   * One iteration of the pass over the size `s`: the corners are sorted;
   * when the panel is placed, the corner it took is spliced out, both scans
   * add their corners and its rectangle is recorded.
   */
  function Step(l: Layout, s: Size, containerWidth: int): Layout
  {
    var sorted := SortCorners(l.corners);
    match Outcome(l, s, containerWidth)
    case None => Layout(sorted, l.positions)
    case Some(r) =>
      var k := FindFittingCorner(sorted, s, l.positions, containerWidth).value;
      Layout(sorted[..k] + sorted[k + 1..]
               + RightCorners(l.positions, r.bottom, r.right)
               + BelowCorners(l.positions, r.bottom, r.right),
             l.positions + [r])
  }

  /** The pass's iterations over all of `sizes`, from the seed. */
  function Run(sizes: seq<Size>, containerWidth: int): Layout
    decreases |sizes|
  {
    if sizes == [] then Seed
    else Step(Run(sizes[..|sizes| - 1], containerWidth), sizes[|sizes| - 1], containerWidth)
  }

  /** Some size has been measured with a non-zero width. */
  predicate Ready(sizes: seq<Size>)
  {
    exists i :: 0 <= i < |sizes| && sizes[i].width != 0
  }

  /** A whole pass: iterate over every size once some width is non-zero, else place nothing. */
  function Pass(sizes: seq<Size>, containerWidth: int): Layout
  {
    if Ready(sizes) then Run(sizes, containerWidth) else Seed
  }

  /**
   * The pass as the component runs it: one iteration per size, in index
   * order, threading `panelPositions` and `topLeftCorners`.
   */
  method PlacePanels(panelSizes: seq<Size>, containerWidth: int)
    returns (panelPositions: seq<Position>, topLeftCorners: seq<Corner>)
    ensures Layout(topLeftCorners, panelPositions) == Pass(panelSizes, containerWidth)
  {
    panelPositions := [];
    topLeftCorners := [Corner(0, 0)];
    if !Ready(panelSizes) {
      return;
    }
    for i := 0 to |panelSizes|
      invariant Layout(topLeftCorners, panelPositions) == Run(panelSizes[..i], containerWidth)
    {
      RunExtend(panelSizes, i, containerWidth);
      panelPositions, topLeftCorners := PlaceNext(panelPositions, topLeftCorners, panelSizes[i], containerWidth);
    }
    assert panelSizes[..|panelSizes|] == panelSizes;
  }

  /**
   * One iteration: `topLeftCorners` is sorted and searched for the first
   * fitting corner; when none fits, the panel is skipped and only the sort
   * remains.
   */
  method PlaceNext(panelPositions: seq<Position>, topLeftCorners: seq<Corner>, size: Size, containerWidth: int)
    returns (positions': seq<Position>, corners': seq<Corner>)
    ensures corners' == Step(Layout(topLeftCorners, panelPositions), size, containerWidth).corners
    ensures positions' == Step(Layout(topLeftCorners, panelPositions), size, containerWidth).positions
  {
    var sorted := SortCorners(topLeftCorners);
    var fittingCornerIndex := FindFittingCorner(sorted, size, panelPositions, containerWidth);
    if fittingCornerIndex.None? {
      StepSkipped(Layout(topLeftCorners, panelPositions), size, containerWidth);
      positions', corners' := panelPositions, sorted;
    } else {
      StepPlaced(Layout(topLeftCorners, panelPositions), size, containerWidth, fittingCornerIndex.value);
      positions', corners' := PlaceAtCorner(panelPositions, sorted, fittingCornerIndex.value, size);
    }
  }

  /**
   * The rest of an iteration once corner `k` of the sorted list fits: the
   * corner is spliced out, the right scan's and then the below scan's
   * corners are pushed, and the new rectangle is pushed onto the positions.
   */
  method PlaceAtCorner(panelPositions: seq<Position>, sorted: seq<Corner>, k: nat, size: Size)
    returns (positions': seq<Position>, corners': seq<Corner>)
    requires k < |sorted|
    ensures positions' == panelPositions + [Place(sorted[k], size)]
    ensures corners' == sorted[..k] + sorted[k + 1..]
      + RightCorners(panelPositions, Place(sorted[k], size).bottom, Place(sorted[k], size).right)
      + BelowCorners(panelPositions, Place(sorted[k], size).bottom, Place(sorted[k], size).right)
  {
    var fittingCorner := sorted[k];
    corners' := sorted[..k] + sorted[k + 1..];
    var top, left := fittingCorner.top, fittingCorner.left;
    var bottom, right := top + size.height, left + size.width;
    var rightCorners := EmitRightCorners(panelPositions, bottom, right);
    corners' := corners' + rightCorners;
    var belowCorners := EmitBelowCorners(panelPositions, bottom, right);
    corners' := corners' + belowCorners;
    positions' := panelPositions + [Position(top, left, bottom, right)];
  }

  /** The step that finds no fitting corner, spelled out. */
  lemma StepSkipped(l: Layout, s: Size, containerWidth: int)
    requires FindFittingCorner(SortCorners(l.corners), s, l.positions, containerWidth) == None
    ensures Step(l, s, containerWidth).positions == l.positions
    ensures Step(l, s, containerWidth).corners == SortCorners(l.corners)
  {
  }

  /** The step that places the panel at the `k`-th sorted corner, spelled out. */
  lemma StepPlaced(l: Layout, s: Size, containerWidth: int, k: nat)
    requires FindFittingCorner(SortCorners(l.corners), s, l.positions, containerWidth) == Some(k)
    ensures k < |SortCorners(l.corners)|
    ensures Step(l, s, containerWidth).positions == l.positions + [Place(SortCorners(l.corners)[k], s)]
    ensures Step(l, s, containerWidth).corners ==
      SortCorners(l.corners)[..k] + SortCorners(l.corners)[k + 1..]
      + RightCorners(l.positions, Place(SortCorners(l.corners)[k], s).bottom, Place(SortCorners(l.corners)[k], s).right)
      + BelowCorners(l.positions, Place(SortCorners(l.corners)[k], s).bottom, Place(SortCorners(l.corners)[k], s).right)
  {
  }

  /** The run over one more size is one more step. */
  lemma RunExtend(sizes: seq<Size>, i: nat, containerWidth: int)
    requires i < |sizes|
    ensures Run(sizes[..i + 1], containerWidth) == Step(Run(sizes[..i], containerWidth), sizes[i], containerWidth)
  {
    assert sizes[..i + 1][..i] == sizes[..i];
  }
}
