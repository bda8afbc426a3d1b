/**
 * The pass seen per panel: `Outcomes` records, at index i, where the i-th
 * measured size was placed or that it was skipped. The position list the
 * component keeps is the compaction of this sequence: skipped panels leave
 * no entry, so after the first skip the list's indices no longer match the
 * panels' indices.
 */
module Outcomes {
  import opened Geometry
  import opened Placement
  import opened PassProperties

  /** The rectangles of `os`, in order, skipping the panels that were not placed. */
  function Placed(os: seq<Option<Position>>): (r: seq<Position>)
    ensures |r| <= |os|
    decreases |os|
  {
    if os == [] then []
    else Placed(os[..|os| - 1]) + (if os[|os| - 1].Some? then [os[|os| - 1].value] else [])
  }

  /**
   * The outcome of every panel of the pass over `sizes`, index-aligned with
   * `sizes`: panel i meets the layout the sizes before it have left.
   */
  function Outcomes(sizes: seq<Size>, w: int): (os: seq<Option<Position>>)
    ensures |os| == |sizes|
  {
    seq(|sizes|, i requires 0 <= i < |sizes| => Outcome(Run(sizes[..i], w), sizes[i], w))
  }

  /** Per-panel outcomes of a whole pass: none placed until some width is non-zero. */
  function PassOutcomes(sizes: seq<Size>, w: int): (os: seq<Option<Position>>)
    ensures |os| == |sizes|
  {
    if Ready(sizes) then Outcomes(sizes, w) else seq(|sizes|, i => None)
  }

  // ---------------------------------------------------------------------
  // Compaction

  /** Every panel is placed exactly when the compaction loses no entry. */
  lemma {:induction false} PlacedAll(os: seq<Option<Position>>)
    ensures |Placed(os)| == |os| <==> forall i :: 0 <= i < |os| ==> os[i].Some?
    decreases |os|
  {
    if os != [] {
      var n := |os| - 1;
      PlacedAll(os[..n]);
      assert forall i :: 0 <= i < n ==> os[..n][i] == os[i];
    }
  }

  /** The first entry of the compaction is the first panel's rectangle when that panel was placed. */
  lemma {:induction false} PlacedHead(os: seq<Option<Position>>)
    requires |os| > 0 && os[0].Some?
    ensures |Placed(os)| > 0 && Placed(os)[0] == os[0].value
    decreases |os|
  {
    if |os| > 1 {
      PlacedHead(os[..|os| - 1]);
    }
  }

  /** When every panel was placed, the compaction is the outcomes' rectangles, index for index. */
  lemma {:induction false} PlacedAllSome(os: seq<Option<Position>>)
    requires forall i :: 0 <= i < |os| ==> os[i].Some?
    ensures |Placed(os)| == |os|
    ensures forall i :: 0 <= i < |os| ==> Placed(os)[i] == os[i].value
    decreases |os|
  {
    if os != [] {
      var n := |os| - 1;
      assert forall i :: 0 <= i < n ==> os[..n][i] == os[i];
      PlacedAllSome(os[..n]);
    }
  }

  /** A non-empty sequence is its front followed by its last element. */
  lemma SplitLast<T>(s: seq<T>)
    requires |s| > 0
    ensures s == s[..|s| - 1] + [s[|s| - 1]]
  {
  }

  lemma {:induction false} PlacedNone(n: nat)
    ensures Placed(seq(n, i => None)) == []
  {
    if n > 0 {
      var none: seq<Option<Position>> := seq(n, i => None);
      assert none[..n - 1] == seq(n - 1, i => None);
      PlacedNone(n - 1);
    }
  }

  /** Every placed panel's rectangle is in the compaction. */
  lemma {:induction false} PlacedMembers(os: seq<Option<Position>>)
    ensures forall i :: 0 <= i < |os| && os[i].Some? ==> os[i].value in Placed(os)
    decreases |os|
  {
    if os != [] {
      var n := |os| - 1;
      PlacedMembers(os[..n]);
      forall i | 0 <= i < n && os[i].Some?
        ensures os[i].value in Placed(os)
      {
        assert os[..n][i] == os[i];
      }
    }
  }

  // ---------------------------------------------------------------------
  // The run and its outcomes

  /** The position list of a run is the compaction of its per-panel outcomes. */
  lemma {:induction false} RunIsCompaction(sizes: seq<Size>, w: int)
    ensures Run(sizes, w).positions == Placed(Outcomes(sizes, w))
    decreases |sizes|
  {
    if sizes != [] {
      var n := |sizes| - 1;
      var l := Run(sizes[..n], w);
      RunIsCompaction(sizes[..n], w);
      StepPositions(l, sizes[n], w);
      OutcomesPrefix(sizes, w, n);
      assert Outcomes(sizes, w)[n] == Outcome(l, sizes[n], w);
      assert Run(sizes, w) == Step(l, sizes[n], w);
      CompactionStep(Outcomes(sizes, w), l.positions, Run(sizes, w).positions);
    }
  }

  /** Compaction of one more outcome: the rectangle is appended when the panel was placed. */
  lemma CompactionStep(os: seq<Option<Position>>, before: seq<Position>, after: seq<Position>)
    requires |os| > 0
    requires before == Placed(os[..|os| - 1])
    requires after == before + (if os[|os| - 1].Some? then [os[|os| - 1].value] else [])
    ensures after == Placed(os)
  {
  }

  /** Later panels never move earlier ones: the outcomes of a prefix are a prefix of the outcomes. */
  lemma OutcomesPrefix(sizes: seq<Size>, w: int, n: nat)
    requires n <= |sizes|
    ensures Outcomes(sizes[..n], w) == Outcomes(sizes, w)[..n]
  {
    forall i | 0 <= i < n
      ensures Outcomes(sizes[..n], w)[i] == Outcomes(sizes, w)[i]
    {
      assert sizes[..n][..i] == sizes[..i];
    }
  }

  /** Whether placed or not, each outcome rectangle has its own panel's size. */
  lemma OutcomesShaped(sizes: seq<Size>, w: int)
    ensures forall i :: 0 <= i < |sizes| && Outcomes(sizes, w)[i].Some? ==>
      Shaped(Outcomes(sizes, w)[i].value, sizes[i])
  {
    forall i | 0 <= i < |sizes| && Outcomes(sizes, w)[i].Some?
      ensures Shaped(Outcomes(sizes, w)[i].value, sizes[i])
    {
    }
  }

  /** Index-aligned gap and anchoring: for any two placed panels, the later one, if within the container, is not within GAP of the earlier one. */
  ghost predicate AlignedSound(os: seq<Option<Position>>, w: int)
  {
    (forall k :: 0 <= k < |os| && os[k].Some? ==> os[k].value.right <= w || os[k].value.left == 0) &&
    (forall j, k :: 0 <= j < k < |os| && os[j].Some? && os[k].Some? && os[k].value.right <= w ==>
      !TooClose(os[j].value, os[k].value))
  }

  /** Appending the outcome of a panel that fits keeps the index-aligned gap and anchoring. */
  lemma AlignedSoundExtend(prev: seq<Option<Position>>, o: Option<Position>, positions: seq<Position>, w: int)
    requires AlignedSound(prev, w)
    requires forall i :: 0 <= i < |prev| && prev[i].Some? ==> prev[i].value in positions
    requires o.Some? ==> o.value.right <= w || o.value.left == 0
    requires o.Some? && o.value.right <= w ==> forall p :: p in positions ==> !TooClose(p, o.value)
    ensures AlignedSound(prev + [o], w)
  {
    var os := prev + [o];
    forall j, k | 0 <= j < k < |os| && os[j].Some? && os[k].Some? && os[k].value.right <= w
      ensures !TooClose(os[j].value, os[k].value)
    {
      assert os[j] == prev[j];
      if k < |prev| {
        assert os[k] == prev[k];
      }
    }
    forall k | 0 <= k < |os| && os[k].Some?
      ensures os[k].value.right <= w || os[k].value.left == 0
    {
      if k < |prev| {
        assert os[k] == prev[k];
      }
    }
  }

  lemma {:induction false} OutcomesSound(sizes: seq<Size>, w: int)
    ensures AlignedSound(Outcomes(sizes, w), w)
    decreases |sizes|
  {
    if sizes != [] {
      var n := |sizes| - 1;
      var l := Run(sizes[..n], w);
      OutcomesSound(sizes[..n], w);
      RunIsCompaction(sizes[..n], w);
      PlacedMembers(Outcomes(sizes[..n], w));
      OutcomesPrefix(sizes, w, n);
      SplitLast(Outcomes(sizes, w));
      OutcomeFits(l, sizes[n], w);
      AlignedSoundExtend(Outcomes(sizes[..n], w), Outcome(l, sizes[n], w), l.positions, w);
    }
  }

  // ---------------------------------------------------------------------
  // The whole pass

  /**
   * The pass's position list is the compaction of its per-panel outcomes,
   * with exactly as many entries as panels when and only when no panel
   * was skipped.
   */
  lemma PassIsCompaction(sizes: seq<Size>, w: int)
    ensures Pass(sizes, w).positions == Placed(PassOutcomes(sizes, w))
    ensures |Pass(sizes, w).positions| <= |sizes|
    ensures |Pass(sizes, w).positions| == |sizes| <==>
      forall i :: 0 <= i < |sizes| ==> PassOutcomes(sizes, w)[i].Some?
  {
    if Ready(sizes) {
      RunIsCompaction(sizes, w);
    } else {
      PlacedNone(|sizes|);
    }
    PlacedAll(PassOutcomes(sizes, w));
  }

  /** Once the pass runs, the first panel always lands at the origin, and its rectangle heads the position list. */
  lemma FirstPanelAtOrigin(sizes: seq<Size>, w: int)
    requires Ready(sizes)
    ensures |sizes| > 0 && PassOutcomes(sizes, w)[0] == Some(Place(Corner(0, 0), sizes[0]))
    ensures |Pass(sizes, w).positions| > 0 && Pass(sizes, w).positions[0] == Place(Corner(0, 0), sizes[0])
  {
    assert sizes[..0] == [];
    SeedOutcome(sizes[0], w);
    PassIsCompaction(sizes, w);
    PlacedHead(PassOutcomes(sizes, w));
  }

  /**
   * Every placed panel's rectangle has that panel's size, stays within the
   * container or sits at left 0, and, if within the container, keeps GAP
   * clear of every panel placed before it.
   */
  lemma PassOutcomesSound(sizes: seq<Size>, w: int)
    ensures forall i :: 0 <= i < |sizes| && PassOutcomes(sizes, w)[i].Some? ==>
      Shaped(PassOutcomes(sizes, w)[i].value, sizes[i])
    ensures AlignedSound(PassOutcomes(sizes, w), w)
  {
    if Ready(sizes) {
      OutcomesShaped(sizes, w);
      OutcomesSound(sizes, w);
    }
  }

  /** With non-negative heights, a pass places every panel: the skip branch is never taken. */
  lemma EveryPanelPlaced(sizes: seq<Size>, w: int)
    requires Ready(sizes)
    requires forall i :: 0 <= i < |sizes| ==> 0 <= sizes[i].height
    ensures forall i :: 0 <= i < |sizes| ==> PassOutcomes(sizes, w)[i].Some?
  {
    forall i | 0 <= i < |sizes|
      ensures PassOutcomes(sizes, w)[i].Some?
    {
      NeverSkips(sizes, w, i);
    }
  }

  /**
   * Hence the position list has one entry per panel, and entry i is panel
   * i's own rectangle, of panel i's size: reading the list by panel index
   * reads each panel's own placement.
   */
  lemma PositionsFollowPanels(sizes: seq<Size>, w: int)
    requires Ready(sizes)
    requires forall i :: 0 <= i < |sizes| ==> 0 <= sizes[i].height
    ensures |Pass(sizes, w).positions| == |sizes|
    ensures forall i :: 0 <= i < |sizes| ==>
      PassOutcomes(sizes, w)[i] == Some(Pass(sizes, w).positions[i]) &&
      Shaped(Pass(sizes, w).positions[i], sizes[i])
  {
    EveryPanelPlaced(sizes, w);
    PassIsCompaction(sizes, w);
    OutcomesShaped(sizes, w);
    AllPlacedCompaction(PassOutcomes(sizes, w), Pass(sizes, w).positions, sizes);
  }

  lemma AllPlacedCompaction(os: seq<Option<Position>>, positions: seq<Position>, sizes: seq<Size>)
    requires |os| == |sizes| && positions == Placed(os)
    requires forall i :: 0 <= i < |os| ==> os[i].Some? && Shaped(os[i].value, sizes[i])
    ensures |positions| == |sizes|
    ensures forall i :: 0 <= i < |sizes| ==> os[i] == Some(positions[i]) && Shaped(positions[i], sizes[i])
  {
    PlacedAllSome(os);
  }
}
