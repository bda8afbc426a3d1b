/**
 * What one placement pass guarantees: the shape of every recorded
 * rectangle, first-fit corner selection, the corner bookkeeping of each
 * iteration, the containment-or-left-anchored rule, the gap between a panel
 * that fits the container and everything placed before it, the first panel
 * at the origin, and non-negative coordinates.
 */
module PassProperties {
  import opened Geometry
  import opened Ordering
  import opened Frontier
  import opened Placement

  // ---------------------------------------------------------------------
  // One iteration

  /** The rectangles of an iteration: the old ones, then the new one if the panel was placed. */
  lemma StepPositions(l: Layout, s: Size, w: int)
    ensures Step(l, s, w).positions ==
      l.positions + (if Outcome(l, s, w).Some? then [Outcome(l, s, w).value] else [])
  {
    var sorted := SortCorners(l.corners);
    SortCornersSorts(l.corners);
    match FindFittingCorner(sorted, s, l.positions, w)
    case None => StepSkipped(l, s, w);
    case Some(k) => StepPlaced(l, s, w, k);
  }

  /** A panel is skipped exactly when no corner of the list fits it. */
  lemma StepSkipsOnlyWhenNothingFits(l: Layout, s: Size, w: int)
    ensures Outcome(l, s, w).None? <==> forall c :: c in l.corners ==> !Fits(c, s, l.positions, w)
  {
    var sorted := SortCorners(l.corners);
    SortedMembers(l.corners);
    FindFittingCornerIsFirst(sorted, s, l.positions, w);
    if FindFittingCorner(sorted, s, l.positions, w).None? {
      forall c | c in l.corners
        ensures !Fits(c, s, l.positions, w)
      {
        var j :| 0 <= j < |sorted| && sorted[j] == c;
      }
    } else {
      var k := FindFittingCorner(sorted, s, l.positions, w).value;
      assert sorted[k] in l.corners;
    }
  }

  /**
   * First fit: a placed panel sits, with its own size, at a fitting corner
   * of the list, and no corner that comes strictly earlier in (top, left)
   * order fits.
   */
  lemma StepTakesFirstFit(l: Layout, s: Size, w: int)
    requires Outcome(l, s, w).Some?
    ensures Outcome(l, s, w).value == Place(TopLeft(Outcome(l, s, w).value), s)
    ensures TopLeft(Outcome(l, s, w).value) in l.corners
    ensures Fits(TopLeft(Outcome(l, s, w).value), s, l.positions, w)
    ensures forall c :: c in l.corners && CornerLeq(c, TopLeft(Outcome(l, s, w).value)) ==>
      c == TopLeft(Outcome(l, s, w).value) || !Fits(c, s, l.positions, w)
  {
    var sorted := SortCorners(l.corners);
    SortedMembers(l.corners);
    SortCornersSorts(l.corners);
    FindFittingCornerIsFirst(sorted, s, l.positions, w);
    var k := FindFittingCorner(sorted, s, l.positions, w).value;
    var chosen := sorted[k];
    assert Outcome(l, s, w).value == Place(chosen, s);
    forall c | c in l.corners && CornerLeq(c, chosen) && c != chosen
      ensures !Fits(c, s, l.positions, w)
    {
      var j :| 0 <= j < |sorted| && sorted[j] == c;
    }
  }

  /**
   * A placed panel stays within the container or sits at left 0, and
   * within the container it comes within GAP of no rectangle placed before.
   */
  lemma OutcomeFits(l: Layout, s: Size, w: int)
    ensures Outcome(l, s, w).Some? ==>
      Outcome(l, s, w).value.right <= w || Outcome(l, s, w).value.left == 0
    ensures Outcome(l, s, w).Some? && Outcome(l, s, w).value.right <= w ==>
      forall p :: p in l.positions ==> !TooClose(p, Outcome(l, s, w).value)
  {
    if Outcome(l, s, w).Some? {
      StepTakesFirstFit(l, s, w);
    }
  }

  /** From the seed the first panel always takes the origin: alone at left 0 it fits whatever its width. */
  lemma SeedOutcome(s: Size, w: int)
    ensures Outcome(Seed, s, w) == Some(Place(Corner(0, 0), s))
  {
    assert SortCorners([Corner(0, 0)]) == [Corner(0, 0)];
    assert Fits(Corner(0, 0), s, [], w);
  }

  /**
   * Corner bookkeeping: a skipped panel leaves the rectangles alone and the
   * corners the same up to order; a placed panel removes exactly one copy
   * of the corner it took and adds the corners of both scans.
   */
  lemma StepCorners(l: Layout, s: Size, w: int)
    ensures Outcome(l, s, w).None? ==>
      Step(l, s, w).positions == l.positions &&
      multiset(Step(l, s, w).corners) == multiset(l.corners)
    ensures Outcome(l, s, w).Some? ==>
      var r := Outcome(l, s, w).value;
      TopLeft(r) in multiset(l.corners) &&
      Step(l, s, w).positions == l.positions + [r] &&
      multiset(Step(l, s, w).corners) ==
        multiset(l.corners) - multiset{TopLeft(r)}
        + multiset(RightCorners(l.positions, r.bottom, r.right))
        + multiset(BelowCorners(l.positions, r.bottom, r.right))
  {
    var sorted := SortCorners(l.corners);
    SortCornersSorts(l.corners);
    match FindFittingCorner(sorted, s, l.positions, w)
    case None => StepSkipped(l, s, w);
    case Some(k) =>
      StepPlaced(l, s, w, k);
      SpliceMultiset(sorted, k);
      var r := Place(sorted[k], s);
      assert TopLeft(r) == sorted[k];
      var rc := RightCorners(l.positions, r.bottom, r.right);
      var bc := BelowCorners(l.positions, r.bottom, r.right);
      assert multiset(Step(l, s, w).corners) ==
        multiset(sorted[..k] + sorted[k + 1..]) + multiset(rc) + multiset(bc);
  }

  /** Splicing out index `k` removes exactly one copy of the element there. */
  lemma SpliceMultiset(s: seq<Corner>, k: nat)
    requires k < |s|
    ensures s[k] in multiset(s)
    ensures multiset(s[..k] + s[k + 1..]) == multiset(s) - multiset{s[k]}
  {
    assert s == s[..k] + [s[k]] + s[k + 1..];
  }

  // ---------------------------------------------------------------------
  // Containment-or-left-anchored, and the gap

  /**
   * Every rectangle stays within the container or sits at left 0, and each
   * rectangle within the container is not too close to any placed before it.
   */
  ghost predicate Sound(positions: seq<Position>, w: int)
  {
    (forall k :: 0 <= k < |positions| ==> positions[k].right <= w || positions[k].left == 0) &&
    (forall j, k :: 0 <= j < k < |positions| && positions[k].right <= w ==> !TooClose(positions[j], positions[k]))
  }

  lemma StepSound(l: Layout, s: Size, w: int)
    requires Sound(l.positions, w)
    ensures Sound(Step(l, s, w).positions, w)
  {
    var sorted := SortCorners(l.corners);
    SortCornersSorts(l.corners);
    match FindFittingCorner(sorted, s, l.positions, w)
    case None => StepSkipped(l, s, w);
    case Some(k) =>
      StepPlaced(l, s, w, k);
      var r := Place(sorted[k], s);
      var ps := l.positions + [r];
      FindFittingCornerIsFirst(sorted, s, l.positions, w);
      forall j, m | 0 <= j < m < |ps| && ps[m].right <= w
        ensures !TooClose(ps[j], ps[m])
      {
        if m == |l.positions| {
          assert ps[j] == l.positions[j];
        } else {
          assert ps[j] == l.positions[j] && ps[m] == l.positions[m];
        }
      }
  }

  lemma {:induction false} RunSound(sizes: seq<Size>, w: int)
    ensures Sound(Run(sizes, w).positions, w)
  {
    if sizes != [] {
      var n := |sizes| - 1;
      RunSound(sizes[..n], w);
      StepSound(Run(sizes[..n], w), sizes[n], w);
    }
  }

  /**
   * After a pass every rectangle satisfies `right <= containerWidth` or
   * `left == 0`, and one with `right <= containerWidth` is not within GAP of
   * any rectangle recorded before it. Rectangles overflowing at left 0 get
   * no such guarantee.
   */
  lemma PassSound(sizes: seq<Size>, w: int)
    ensures forall k :: 0 <= k < |Pass(sizes, w).positions| ==>
      Pass(sizes, w).positions[k].right <= w || Pass(sizes, w).positions[k].left == 0
    ensures forall j, k :: 0 <= j < k < |Pass(sizes, w).positions| && Pass(sizes, w).positions[k].right <= w ==>
      !TooClose(Pass(sizes, w).positions[j], Pass(sizes, w).positions[k])
  {
    RunSound(sizes, w);
  }

  // ---------------------------------------------------------------------
  // The floor corner: no panel is ever skipped

  /**
   * Some corner at left 0 lies at least GAP below the bottom of every
   * placed rectangle. Every panel fits there: too wide for the container it
   * is accepted at left 0, otherwise it clears everything placed.
   */
  ghost predicate HasFloorCorner(l: Layout)
  {
    exists t :: Corner(t, 0) in l.corners && forall p :: p in l.positions ==> p.bottom + GAP <= t
  }

  lemma FloorCornerFits(l: Layout, s: Size, w: int, t: int)
    requires Corner(t, 0) in l.corners
    requires forall p :: p in l.positions ==> p.bottom + GAP <= t
    ensures Outcome(l, s, w).Some?
  {
    var r := Place(Corner(t, 0), s);
    forall i | 0 <= i < |l.positions|
      ensures !TooClose(l.positions[i], r)
    {
      assert l.positions[i] in l.positions;
    }
    assert Fits(Corner(t, 0), s, l.positions, w);
    StepSkipsOnlyWhenNothingFits(l, s, w);
  }

  /** When no placed rectangle reaches more than GAP below `bottom`, the below scan offers its fallback corner at left 0. */
  lemma BelowFallbackWhenNothingBelow(placed: seq<Position>, bottom: int, right: int)
    requires forall p :: p in placed ==> p.bottom <= bottom + GAP
    ensures Corner(bottom + GAP, 0) in BelowCorners(placed, bottom, right)
  {
    var s := BelowPanels(placed, bottom, right);
    BelowPanelsMembers(placed, bottom, right);
    assert BelowScan([], bottom) == [Corner(bottom + GAP, 0)];
  }

  /**
   * With a non-negative height, a layout with a floor corner places the
   * panel and keeps a floor corner: either the old one survives, or the
   * panel became the lowest and the below scan's fallback corner sits GAP
   * under it.
   */
  lemma StepKeepsFloorCorner(l: Layout, s: Size, w: int)
    requires HasFloorCorner(l)
    requires 0 <= s.height
    ensures Outcome(l, s, w).Some?
    ensures HasFloorCorner(Step(l, s, w))
  {
    var t0 :| Corner(t0, 0) in l.corners && forall p :: p in l.positions ==> p.bottom + GAP <= t0;
    FloorCornerFits(l, s, w, t0);
    var sorted := SortCorners(l.corners);
    SortedMembers(l.corners);
    var k := FindFittingCorner(sorted, s, l.positions, w).value;
    StepPlaced(l, s, w, k);
    FloorAfterPlacement(l.positions, sorted, k, s, t0);
  }

  /** The floor corner after a panel of non-negative height takes corner `k`. */
  lemma FloorAfterPlacement(placed: seq<Position>, sorted: seq<Corner>, k: nat, s: Size, t0: int)
    requires k < |sorted| && 0 <= s.height
    requires Corner(t0, 0) in sorted
    requires forall p :: p in placed ==> p.bottom + GAP <= t0
    ensures HasFloorCorner(Layout(
      sorted[..k] + sorted[k + 1..]
      + RightCorners(placed, Place(sorted[k], s).bottom, Place(sorted[k], s).right)
      + BelowCorners(placed, Place(sorted[k], s).bottom, Place(sorted[k], s).right),
      placed + [Place(sorted[k], s)]))
  {
    var r := Place(sorted[k], s);
    var rest := sorted[..k] + sorted[k + 1..];
    var added := RightCorners(placed, r.bottom, r.right) + BelowCorners(placed, r.bottom, r.right);
    if r.bottom + GAP <= t0 && sorted[k] != Corner(t0, 0) {
      SpliceKeeps(sorted, k, Corner(t0, 0));
      FloorWitness(placed, r, rest + added, t0);
    } else {
      BelowFallbackWhenNothingBelow(placed, r.bottom, r.right);
      FloorWitness(placed, r, rest + added, r.bottom + GAP);
    }
  }

  /** Splicing out index `k` keeps every other corner. */
  lemma SpliceKeeps(s: seq<Corner>, k: nat, c: Corner)
    requires k < |s| && c in s && s[k] != c
    ensures c in s[..k] + s[k + 1..]
  {
    var j :| 0 <= j < |s| && s[j] == c;
    if j < k {
      assert (s[..k] + s[k + 1..])[j] == c;
    } else {
      assert (s[..k] + s[k + 1..])[j - 1] == c;
    }
  }

  lemma FloorWitness(placed: seq<Position>, r: Position, corners: seq<Corner>, t: int)
    requires Corner(t, 0) in corners
    requires forall p :: p in placed ==> p.bottom + GAP <= t
    requires r.bottom + GAP <= t
    ensures HasFloorCorner(Layout(corners, placed + [r]))
  {
    assert forall p :: p in placed + [r] ==> p.bottom + GAP <= t;
  }

  lemma {:induction false} RunKeepsFloorCorner(sizes: seq<Size>, w: int)
    requires forall i :: 0 <= i < |sizes| ==> 0 <= sizes[i].height
    ensures HasFloorCorner(Run(sizes, w))
  {
    if sizes == [] {
      assert Corner(0, 0) in Seed.corners;
    } else {
      var n := |sizes| - 1;
      RunKeepsFloorCorner(sizes[..n], w);
      StepKeepsFloorCorner(Run(sizes[..n], w), sizes[n], w);
    }
  }

  /**
   * With non-negative heights no panel is ever skipped: after any prefix
   * of the sizes, the next panel finds a fitting corner.
   */
  lemma NeverSkips(sizes: seq<Size>, w: int, i: nat)
    requires i < |sizes|
    requires forall j :: 0 <= j < |sizes| ==> 0 <= sizes[j].height
    ensures Outcome(Run(sizes[..i], w), sizes[i], w).Some?
  {
    RunKeepsFloorCorner(sizes[..i], w);
    StepKeepsFloorCorner(Run(sizes[..i], w), sizes[i], w);
  }

  // ---------------------------------------------------------------------
  // Non-negative coordinates

  predicate NonNegativeSizes(sizes: seq<Size>)
  {
    forall i :: 0 <= i < |sizes| ==> 0 <= sizes[i].width && 0 <= sizes[i].height
  }

  /** All corners are at non-negative coordinates and all rectangles lie in the non-negative quadrant, with non-negative extent. */
  ghost predicate NonNegative(l: Layout)
  {
    (forall c :: c in l.corners ==> 0 <= c.top && 0 <= c.left) &&
    (forall p :: p in l.positions ==> 0 <= p.top <= p.bottom && 0 <= p.left <= p.right)
  }

  lemma StepNonNegative(l: Layout, s: Size, w: int)
    requires NonNegative(l)
    requires 0 <= s.width && 0 <= s.height
    ensures NonNegative(Step(l, s, w))
  {
    var sorted := SortCorners(l.corners);
    SortedMembers(l.corners);
    match FindFittingCorner(sorted, s, l.positions, w)
    case None => StepSkipped(l, s, w);
    case Some(k) =>
      StepPlaced(l, s, w, k);
      var r := Place(sorted[k], s);
      NewCornersNonNegative(l.positions, r.bottom, r.right);
      var rest := sorted[..k] + sorted[k + 1..];
      assert forall c :: c in rest ==> c in sorted;
  }

  /** Both scans offer only non-negative corners when the placed panels and the new one lie in the non-negative quadrant. */
  lemma NewCornersNonNegative(placed: seq<Position>, bottom: int, right: int)
    requires forall p :: p in placed ==> 0 <= p.top <= p.bottom && 0 <= p.left <= p.right
    requires 0 <= bottom && 0 <= right
    ensures forall c :: c in RightCorners(placed, bottom, right) + BelowCorners(placed, bottom, right) ==>
      0 <= c.top && 0 <= c.left
  {
    RightCornersFrom(placed, bottom, right);
    BelowCornersFrom(placed, bottom, right);
  }

  lemma {:induction false} RunNonNegative(sizes: seq<Size>, w: int)
    requires NonNegativeSizes(sizes)
    ensures NonNegative(Run(sizes, w))
  {
    if sizes != [] {
      var n := |sizes| - 1;
      RunNonNegative(sizes[..n], w);
      StepNonNegative(Run(sizes[..n], w), sizes[n], w);
    }
  }

  /**
   * With non-negative sizes, every corner of a pass and every recorded
   * rectangle has non-negative top and left.
   */
  lemma PassNonNegative(sizes: seq<Size>, w: int)
    requires NonNegativeSizes(sizes)
    ensures forall c :: c in Pass(sizes, w).corners ==> 0 <= c.top && 0 <= c.left
    ensures forall p :: p in Pass(sizes, w).positions ==> 0 <= p.top && 0 <= p.left
  {
    if Ready(sizes) {
      RunNonNegative(sizes, w);
    }
  }

  /** Until some width is non-zero the pass places nothing and leaves the origin as the only corner. */
  lemma UnreadyPass(sizes: seq<Size>, w: int)
    requires forall i :: 0 <= i < |sizes| ==> sizes[i].width == 0
    ensures Pass(sizes, w).positions == []
    ensures Pass(sizes, w).corners == [Corner(0, 0)]
  {
  }
}
