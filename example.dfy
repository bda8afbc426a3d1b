/**
 * A worked pass: three panels of one size in a container wide enough for
 * two of them side by side but not for three. The first two fill the top
 * row, GAP apart; the third wraps to left 0, GAP below the first. With
 * 200x100 panels in a 500-pixel container the panels land at (0, 0),
 * (0, 216) and (116, 0).
 *
 * Each iteration is proved from the layout the previous one left, split
 * into its sort, its search (which sorted corner fits) and its scans (which
 * corners are added). Each layout below is written the way the iteration
 * builds it: the corners left after the splice, then the right scan's,
 * then the below scan's; the old rectangles, then the new one.
 */
module Example {
  import opened Geometry
  import opened Ordering
  import opened Frontier
  import opened Placement

  /** The layout after the first panel of size `s`. */
  function AfterFirst(s: Size): Layout
  {
    Layout([] + [Corner(0, s.width + GAP)] + [Corner(s.height + GAP, 0)],
           [] + [Place(Corner(0, 0), s)])
  }

  /** The layout after the second panel of size `s`, placed right of the first. */
  function AfterSecond(s: Size): Layout
  {
    Layout([Corner(s.height + GAP, 0)] + [Corner(0, 2 * s.width + 2 * GAP)] + [Corner(s.height + GAP, 0)],
           AfterFirst(s).positions + [Place(Corner(0, s.width + GAP), s)])
  }

  /** The layout after the third panel of size `s`, wrapped below the first. */
  function AfterThird(s: Size): Layout
  {
    Layout([Corner(0, 2 * s.width + 2 * GAP), Corner(s.height + GAP, 0)]
             + [Corner(s.height + GAP, s.width + GAP), Corner(0, s.width + GAP)]
             + [Corner(2 * s.height + 2 * GAP, 0)],
           AfterSecond(s).positions + [Place(Corner(s.height + GAP, 0), s)])
  }

  /**
   * From layout `l`, the panel of size `s` takes sorted corner `k`, which
   * is `c`; `rest` is what the splice leaves, and `rc` and `bc` are what
   * the right and below scans add for the new rectangle.
   */
  predicate Takes(l: Layout, s: Size, w: int, k: nat, c: Corner, rest: seq<Corner>, rc: seq<Corner>, bc: seq<Corner>)
  {
    FindFittingCorner(SortCorners(l.corners), s, l.positions, w) == Some(k) &&
    k < |SortCorners(l.corners)| && SortCorners(l.corners)[k] == c &&
    SortCorners(l.corners)[..k] + SortCorners(l.corners)[k + 1..] == rest &&
    RightCorners(l.positions, Place(c, s).bottom, Place(c, s).right) == rc &&
    BelowCorners(l.positions, Place(c, s).bottom, Place(c, s).right) == bc
  }

  /** An iteration assembled from its parts: the corners left after the splice, then both scans' corners. */
  lemma StepAt(l: Layout, s: Size, w: int, k: nat, c: Corner, rest: seq<Corner>, rc: seq<Corner>, bc: seq<Corner>)
    requires Takes(l, s, w, k, c, rest, rc, bc)
    ensures Step(l, s, w) == Layout(rest + rc + bc, l.positions + [Place(c, s)])
  {
    StepPlaced(l, s, w, k);
  }

  /** The first iteration from the seed: the panel takes (0, 0); each scan adds only its fallback corner. */
  lemma SeedStep(s: Size, w: int)
    ensures Step(Seed, s, w) == AfterFirst(s)
  {
    SortSortedIsIdentity([Corner(0, 0)]);
    assert Fits(Corner(0, 0), s, [], w);
    assert FindFittingCorner([Corner(0, 0)], s, [], w) == Some(0);
    RightCornersNoneKept([], s.height, s.width);
    BelowCornersNoneKept([], s.height, s.width);
    StepAt(Seed, s, w, 0, Corner(0, 0), [], [Corner(0, s.width + GAP)], [Corner(s.height + GAP, 0)]);
  }

  /** The second panel's search: the corners are already sorted and the first, right of panel 0, fits. */
  lemma SecondSearch(l: Layout, s: Size, w: int)
    requires 0 < s.width && 0 < s.height && 2 * s.width + GAP <= w
    requires l == AfterFirst(s)
    ensures FindFittingCorner(SortCorners(l.corners), s, l.positions, w) == Some(0)
    ensures 0 < |SortCorners(l.corners)| && SortCorners(l.corners)[0] == Corner(0, s.width + GAP)
    ensures SortCorners(l.corners)[..0] + SortCorners(l.corners)[1..] == [Corner(s.height + GAP, 0)]
  {
    SortSortedIsIdentity(l.corners);
    var r := Place(Corner(0, s.width + GAP), s);
    assert !TooClose(l.positions[0], r);
    assert Fits(l.corners[0], s, l.positions, w);
  }

  /** The second panel's scans: neither keeps panel 0, so each adds only its fallback corner. */
  lemma SecondScans(placed: seq<Position>, s: Size)
    requires 0 < s.width && 0 < s.height
    requires placed == AfterFirst(s).positions
    ensures var r := Place(Corner(0, s.width + GAP), s);
      RightCorners(placed, r.bottom, r.right) == [Corner(0, 2 * s.width + 2 * GAP)] &&
      BelowCorners(placed, r.bottom, r.right) == [Corner(s.height + GAP, 0)]
  {
    var r := Place(Corner(0, s.width + GAP), s);
    RightCornersNoneKept(placed, r.bottom, r.right);
    BelowCornersNoneKept(placed, r.bottom, r.right);
  }

  /** The corners left after the second panel, sorted: the top-row corner first, then (height + GAP, 0) twice. */
  lemma ThirdSort(corners: seq<Corner>, s: Size)
    requires 0 < s.height
    requires corners == AfterSecond(s).corners
    ensures SortCorners(corners) == [Corner(0, 2 * s.width + 2 * GAP), Corner(s.height + GAP, 0), Corner(s.height + GAP, 0)]
  {
    var below, row := Corner(s.height + GAP, 0), Corner(0, 2 * s.width + 2 * GAP);
    var tail := corners[1..];
    assert tail == [row, below] && tail[1..] == [below];
    assert SortCorners([below]) == [below];
    assert SortCorners(tail) == [row, below];
    assert InsertCorner(below, [below]) == [below, below];
    assert InsertCorner(below, [row, below]) == [row, below, below];
  }

  /**
   * The third panel's search: the top-row corner sorts first but does not
   * fit (the panel would cross the container's edge away from left 0), so
   * the first (height + GAP, 0) corner is taken.
   */
  lemma ThirdSearch(sorted: seq<Corner>, placed: seq<Position>, s: Size, w: int)
    requires 0 < s.width && 0 < s.height && 2 * s.width + GAP <= w < 3 * s.width + 2 * GAP
    requires sorted == [Corner(0, 2 * s.width + 2 * GAP), Corner(s.height + GAP, 0), Corner(s.height + GAP, 0)]
    requires placed == AfterSecond(s).positions
    ensures FindFittingCorner(sorted, s, placed, w) == Some(1)
  {
    var r := Place(Corner(s.height + GAP, 0), s);
    assert !TooClose(placed[0], r);
    assert !TooClose(placed[1], r);
    assert !Fits(sorted[0], s, placed, w);
    assert Fits(sorted[1], s, placed, w);
    assert FindFittingCornerFrom(sorted, 1, s, placed, w) == Some(1);
  }

  /**
   * The third panel's scans: the right scan keeps only panel 1, which emits
   * a corner, and its sentinel adds (0, width + GAP); the below scan keeps
   * nothing and adds its fallback corner.
   */
  lemma ThirdScans(placed: seq<Position>, s: Size)
    requires 0 < s.width && 0 < s.height
    requires placed == AfterSecond(s).positions
    ensures var r := Place(Corner(s.height + GAP, 0), s);
      RightCorners(placed, r.bottom, r.right) == [Corner(s.height + GAP, s.width + GAP), Corner(0, s.width + GAP)] &&
      BelowCorners(placed, r.bottom, r.right) == [Corner(2 * s.height + 2 * GAP, 0)]
  {
    var r := Place(Corner(s.height + GAP, 0), s);
    var keep := p => RightOf(p, r.bottom, r.right);
    assert Filter(placed[1..], keep) == [placed[1]];
    assert Filter(placed, keep) == [placed[1]];
    assert SortDescending([placed[1]], Bottom) == [placed[1]];
    assert RightScanUpTo([placed[1]], 1, r.right) == [Corner(s.height + GAP, s.width + GAP)];
    BelowCornersNoneKept(placed, r.bottom, r.right);
  }

  /** The third panel, after the second: it takes sorted corner 1, and the scans add three corners. */
  lemma ThirdTakes(l: Layout, s: Size, w: int)
    requires 0 < s.width && 0 < s.height && 2 * s.width + GAP <= w < 3 * s.width + 2 * GAP
    requires l == AfterSecond(s)
    ensures Takes(l, s, w, 1, Corner(s.height + GAP, 0), [Corner(0, 2 * s.width + 2 * GAP), Corner(s.height + GAP, 0)],
                  [Corner(s.height + GAP, s.width + GAP), Corner(0, s.width + GAP)], [Corner(2 * s.height + 2 * GAP, 0)])
  {
    var sorted := [Corner(0, 2 * s.width + 2 * GAP), Corner(s.height + GAP, 0), Corner(s.height + GAP, 0)];
    assert SortCorners(l.corners) == sorted by { ThirdSort(l.corners, s); }
    assert FindFittingCorner(sorted, s, l.positions, w) == Some(1) by { ThirdSearch(sorted, l.positions, s, w); }
    assert sorted[..1] + sorted[2..] == [Corner(0, 2 * s.width + 2 * GAP), Corner(s.height + GAP, 0)];
    ThirdScans(l.positions, s);
  }

  /** The run over one panel of size `s` leaves AfterFirst(s). */
  lemma RunFirst(s: Size, w: int)
    ensures Run([s], w) == AfterFirst(s)
  {
    assert [s][..0] == [];
    SeedStep(s, w);
  }

  /** The run over two panels of size `s`, where two fit side by side: the second goes GAP right of the first. */
  lemma RunSecond(s: Size, w: int)
    requires 0 < s.width && 0 < s.height && 2 * s.width + GAP <= w
    ensures Run([s, s], w) == AfterSecond(s)
  {
    var l := Run([s], w);
    assert Takes(l, s, w, 0, Corner(0, s.width + GAP),
                 [Corner(s.height + GAP, 0)], [Corner(0, 2 * s.width + 2 * GAP)], [Corner(s.height + GAP, 0)])
        && l.positions == AfterFirst(s).positions by {
      RunFirst(s, w);
      SecondSearch(l, s, w);
      SecondScans(l.positions, s);
    }
    StepAt(l, s, w, 0, Corner(0, s.width + GAP),
           [Corner(s.height + GAP, 0)], [Corner(0, 2 * s.width + 2 * GAP)], [Corner(s.height + GAP, 0)]);
    assert [s, s][..1] == [s];
  }

  /** The run over three panels of size `s`, where two but not three fit across: the third wraps to left 0, GAP below the first. */
  lemma RunThird(s: Size, w: int)
    requires 0 < s.width && 0 < s.height && 2 * s.width + GAP <= w < 3 * s.width + 2 * GAP
    ensures Run([s, s, s], w) == AfterThird(s)
  {
    var l := Run([s, s], w);
    assert Takes(l, s, w, 1, Corner(s.height + GAP, 0), [Corner(0, 2 * s.width + 2 * GAP), Corner(s.height + GAP, 0)],
                 [Corner(s.height + GAP, s.width + GAP), Corner(0, s.width + GAP)], [Corner(2 * s.height + 2 * GAP, 0)])
        && l.positions == AfterSecond(s).positions by {
      RunSecond(s, w);
      ThirdTakes(l, s, w);
    }
    StepAt(l, s, w, 1, Corner(s.height + GAP, 0), [Corner(0, 2 * s.width + 2 * GAP), Corner(s.height + GAP, 0)],
           [Corner(s.height + GAP, s.width + GAP), Corner(0, s.width + GAP)], [Corner(2 * s.height + 2 * GAP, 0)]);
    assert [s, s, s][..2] == [s, s];
  }

  /** Three equal panels where two fit side by side but three do not: two in the top row, the third wrapped below the first. */
  lemma ThreePanels(s: Size, w: int)
    requires 0 < s.width && 0 < s.height && 2 * s.width + GAP <= w < 3 * s.width + 2 * GAP
    ensures Pass([s, s, s], w) == AfterThird(s)
    ensures Pass([s, s, s], w).positions ==
      [Place(Corner(0, 0), s), Place(Corner(0, s.width + GAP), s), Place(Corner(s.height + GAP, 0), s)]
  {
    assert Ready([s, s, s]) by { assert [s, s, s][0].width != 0; }
    RunThird(s, w);
  }

  /** 200x100 panels in a 500-pixel container: (0, 0), (0, 216), (116, 0). */
  lemma SampleLayout()
    ensures Pass([Size(200, 100), Size(200, 100), Size(200, 100)], 500).positions ==
      [Position(0, 0, 100, 200), Position(0, 216, 100, 416), Position(116, 0, 216, 200)]
  {
    ThreePanels(Size(200, 100), 500);
  }
}
