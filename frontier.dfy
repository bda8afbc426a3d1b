/**
 * Corner generation after a panel has been placed at a rectangle with edges
 * `bottom` and `right`: the right scan offers corners on the vertical line
 * `right + GAP`, the below scan on the horizontal line `bottom + GAP`.
 *
 * Each scan keeps some of the panels placed before, sorts them by one edge
 * descending, and walks them with a running minimum (initially +Infinity):
 * a panel whose key is strictly below the minimum lowers it and emits a
 * corner. A sentinel panel closes each walk; here it is the explicit
 * fallback step at the end.
 */
module Frontier {
  import opened Geometry
  import opened Ordering

  /** The panels of `s` that satisfy `keep`, in their order in `s`. */
  function Filter(s: seq<Position>, keep: Position -> bool): seq<Position>
  {
    if s == [] then []
    else (if keep(s[0]) then [s[0]] else []) + Filter(s[1..], keep)
  }

  /** Filtering keeps exactly the panels that satisfy `keep`, and never lengthens the list. */
  lemma {:induction false} FilterKeeps(s: seq<Position>, keep: Position -> bool)
    ensures forall p :: p in Filter(s, keep) <==> p in s && keep(p)
    ensures |Filter(s, keep)| <= |s|
  {
    if s != [] {
      FilterKeeps(s[1..], keep);
      assert s == [s[0]] + s[1..];
    }
  }

  /** A filter that keeps nothing returns the empty list. */
  lemma {:induction false} FilterNone(s: seq<Position>, keep: Position -> bool)
    requires forall p :: p in s ==> !keep(p)
    ensures Filter(s, keep) == []
  {
    if s != [] {
      FilterNone(s[1..], keep);
    }
  }

  /** Kept by the right scan: reaches more than GAP past `right`, and ends above `bottom + GAP`. */
  predicate RightOf(p: Position, bottom: int, right: int)
  {
    right + GAP < p.right && p.bottom < bottom + GAP
  }

  /** Kept by the below scan: reaches more than GAP below `bottom`, and ends left of `right + GAP`. */
  predicate BelowOf(p: Position, bottom: int, right: int)
  {
    bottom + GAP < p.bottom && p.right < right + GAP
  }

  /** The right scan's panels: kept by RightOf, by descending bottom edge. */
  function RightPanels(placed: seq<Position>, bottom: int, right: int): seq<Position>
  {
    SortDescending(Filter(placed, p => RightOf(p, bottom, right)), Bottom)
  }

  /** The below scan's panels: kept by BelowOf, by descending right edge. */
  function BelowPanels(placed: seq<Position>, bottom: int, right: int): seq<Position>
  {
    SortDescending(Filter(placed, p => BelowOf(p, bottom, right)), Right)
  }

  lemma RightPanelsMembers(placed: seq<Position>, bottom: int, right: int)
    ensures forall p :: p in RightPanels(placed, bottom, right) <==> p in placed && RightOf(p, bottom, right)
    ensures Descending(RightPanels(placed, bottom, right), Bottom)
    ensures |RightPanels(placed, bottom, right)| <= |placed|
  {
    var kept := Filter(placed, p => RightOf(p, bottom, right));
    FilterKeeps(placed, p => RightOf(p, bottom, right));
    SortDescendingSorts(kept, Bottom);
    assert |RightPanels(placed, bottom, right)| == |multiset(RightPanels(placed, bottom, right))| == |multiset(kept)|;
    forall p
      ensures p in RightPanels(placed, bottom, right) <==> p in kept
    {
      assert p in RightPanels(placed, bottom, right) <==> p in multiset(kept);
    }
  }

  lemma BelowPanelsMembers(placed: seq<Position>, bottom: int, right: int)
    ensures forall p :: p in BelowPanels(placed, bottom, right) <==> p in placed && BelowOf(p, bottom, right)
    ensures Descending(BelowPanels(placed, bottom, right), Right)
    ensures |BelowPanels(placed, bottom, right)| <= |placed|
  {
    var kept := Filter(placed, p => BelowOf(p, bottom, right));
    FilterKeeps(placed, p => BelowOf(p, bottom, right));
    SortDescendingSorts(kept, Right);
    assert |BelowPanels(placed, bottom, right)| == |multiset(BelowPanels(placed, bottom, right))| == |multiset(kept)|;
    forall p
      ensures p in BelowPanels(placed, bottom, right) <==> p in kept
    {
      assert p in BelowPanels(placed, bottom, right) <==> p in multiset(kept);
    }
  }

  // ---------------------------------------------------------------------
  // Right scan

  /**
   * The running minimum of left edges after walking the first `n` panels of
   * `s`; None is its initial value, +Infinity.
   */
  function LeastLeft(s: seq<Position>, n: nat): (m: Option<int>)
    requires n <= |s|
    ensures m.None? <==> n == 0
  {
    if n == 0 then None
    else
      var m := LeastLeft(s, n - 1);
      if m.None? || s[n - 1].left < m.value then Some(s[n - 1].left) else m
  }

  /** `s[i]` lowers the running minimum of left edges. */
  predicate NewLowLeft(s: seq<Position>, i: int)
    requires 0 <= i < |s|
  {
    LeastLeft(s, i).None? || s[i].left < LeastLeft(s, i).value
  }

  /** Corners the right scan emits while walking the first `n` panels of `s`. */
  function RightScanUpTo(s: seq<Position>, n: nat, right: int): seq<Corner>
    requires n <= |s|
  {
    if n == 0 then []
    else
      RightScanUpTo(s, n - 1, right) +
      (if NewLowLeft(s, n - 1) then [Corner(s[n - 1].bottom + GAP, right + GAP)] else [])
  }

  /** The sentinel (left 0) is below the running minimum: every panel's left edge is positive. */
  predicate LeftsPositive(s: seq<Position>)
  {
    forall j :: 0 <= j < |s| ==> 0 < s[j].left
  }

  /** Everything the right scan emits over `s`, the sentinel's corner (top -GAP + GAP = 0) included. */
  function RightScan(s: seq<Position>, right: int): seq<Corner>
  {
    RightScanUpTo(s, |s|, right) + (if LeftsPositive(s) then [Corner(0, right + GAP)] else [])
  }

  /** The corners the right scan adds after a panel with edges `bottom` and `right` is placed. */
  function RightCorners(placed: seq<Position>, bottom: int, right: int): seq<Corner>
  {
    RightScan(RightPanels(placed, bottom, right), right)
  }

  /** The right scan of the pass: keep, sort, then walk. */
  method EmitRightCorners(placed: seq<Position>, bottom: int, right: int) returns (emitted: seq<Corner>)
    ensures emitted == RightCorners(placed, bottom, right)
  {
    var rightPanels := RightPanels(placed, bottom, right);
    emitted := WalkRight(rightPanels, right);
  }

  /** The walk of the right scan with the running minimum of left edges, closed by the sentinel. */
  method WalkRight(rightPanels: seq<Position>, right: int) returns (emitted: seq<Corner>)
    ensures emitted == RightScan(rightPanels, right)
  {
    emitted := [];
    var lowest: Option<int> := None;  // None stands for +Infinity
    for i := 0 to |rightPanels|
      invariant emitted == RightScanUpTo(rightPanels, i, right)
      invariant lowest == LeastLeft(rightPanels, i)
    {
      var p := rightPanels[i];
      if lowest.None? || p.left < lowest.value {
        lowest := Some(p.left);
        emitted := emitted + [Corner(p.bottom + GAP, right + GAP)];
      }
    }
    SentinelLeft(rightPanels);
    // the sentinel: left 0, bottom -GAP
    if lowest.None? || 0 < lowest.value {
      emitted := emitted + [Corner(-GAP + GAP, right + GAP)];
    }
  }

  /** The running minimum is the least left edge among the panels walked. */
  lemma {:induction false} LeastLeftIsLeast(s: seq<Position>, n: nat)
    requires n <= |s|
    ensures LeastLeft(s, n).Some? ==>
      (forall j :: 0 <= j < n ==> LeastLeft(s, n).value <= s[j].left) &&
      exists j :: 0 <= j < n && s[j].left == LeastLeft(s, n).value
  {
    if n > 0 {
      LeastLeftIsLeast(s, n - 1);
      if LeastLeft(s, n) == LeastLeft(s, n - 1) {
        var j :| 0 <= j < n - 1 && s[j].left == LeastLeft(s, n - 1).value;
      }
    }
  }

  /** A panel lowers the running minimum exactly when it lies strictly left of every panel before it. */
  lemma NewLowLeftMeans(s: seq<Position>, i: nat)
    requires i < |s|
    ensures NewLowLeft(s, i) <==> forall j :: 0 <= j < i ==> s[i].left < s[j].left
  {
    LeastLeftIsLeast(s, i);
  }

  /** The panels that emit corners form a staircase: each later one lies strictly left of every earlier one. */
  lemma RightEmittersStepLeft(s: seq<Position>, i: nat, j: nat)
    requires i < j < |s|
    requires NewLowLeft(s, i) && NewLowLeft(s, j)
    ensures s[j].left < s[i].left
  {
    NewLowLeftMeans(s, j);
  }

  /** The sentinel's step: it lowers the minimum exactly when every left edge is positive. */
  lemma SentinelLeft(s: seq<Position>)
    ensures (LeastLeft(s, |s|).None? || 0 < LeastLeft(s, |s|).value) <==> LeftsPositive(s)
  {
    LeastLeftIsLeast(s, |s|);
  }

  /** The walk over `n` panels emits at most `n` corners. */
  lemma {:induction false} RightScanUpToLength(s: seq<Position>, n: nat, right: int)
    requires n <= |s|
    ensures |RightScanUpTo(s, n, right)| <= n
  {
    if n > 0 {
      RightScanUpToLength(s, n - 1, right);
    }
  }

  /** Every corner of the walk lies on the line `right + GAP` and stems from a panel that lowered the running minimum. */
  lemma {:induction false} RightScanUpToSound(s: seq<Position>, n: nat, right: int)
    requires n <= |s|
    ensures forall c :: c in RightScanUpTo(s, n, right) ==>
      c.left == right + GAP &&
      exists i :: 0 <= i < n && NewLowLeft(s, i) && c.top == s[i].bottom + GAP
  {
    if n > 0 {
      RightScanUpToSound(s, n - 1, right);
      var prev := RightScanUpTo(s, n - 1, right);
      forall c | c in RightScanUpTo(s, n, right)
        ensures c.left == right + GAP
        ensures exists i :: 0 <= i < n && NewLowLeft(s, i) && c.top == s[i].bottom + GAP
      {
        if c !in prev {
          assert NewLowLeft(s, n - 1) && c == Corner(s[n - 1].bottom + GAP, right + GAP);
        }
      }
    }
  }

  /** Every panel that lowers the running minimum emits its corner. */
  lemma {:induction false} RightScanUpToComplete(s: seq<Position>, n: nat, right: int)
    requires n <= |s|
    ensures forall i :: 0 <= i < n && NewLowLeft(s, i) ==>
      Corner(s[i].bottom + GAP, right + GAP) in RightScanUpTo(s, n, right)
  {
    if n > 0 {
      RightScanUpToComplete(s, n - 1, right);
      var prev := RightScanUpTo(s, n - 1, right);
      var r := RightScanUpTo(s, n, right);
      if NewLowLeft(s, n - 1) {
        assert r == prev + [Corner(s[n - 1].bottom + GAP, right + GAP)];
      } else {
        assert r == prev;
      }
      forall i | 0 <= i < n - 1 && NewLowLeft(s, i)
        ensures Corner(s[i].bottom + GAP, right + GAP) in r
      {
        assert Corner(s[i].bottom + GAP, right + GAP) in prev;
      }
    }
  }

  /** Every corner of the walk over `n` panels has its top at GAP beyond the bottom edge of one of them. */
  lemma {:induction false} RightScanUpToFrom(s: seq<Position>, n: nat, right: int)
    requires n <= |s|
    ensures forall a :: 0 <= a < |RightScanUpTo(s, n, right)| ==>
      exists i :: 0 <= i < n && RightScanUpTo(s, n, right)[a].top == s[i].bottom + GAP
  {
    if n > 0 {
      RightScanUpToFrom(s, n - 1, right);
      var prev := RightScanUpTo(s, n - 1, right);
      var r := RightScanUpTo(s, n, right);
      forall a | 0 <= a < |r|
        ensures exists i :: 0 <= i < n && r[a].top == s[i].bottom + GAP
      {
        if a < |prev| {
          assert r[a] == prev[a];
          var i :| 0 <= i < n - 1 && prev[a].top == s[i].bottom + GAP;
        } else {
          assert r[a].top == s[n - 1].bottom + GAP;
        }
      }
    } else {
      assert RightScanUpTo(s, 0, right) == [];
    }
  }

  /** With the panels by descending bottom edge, the walk emits corners from the lowest down to the highest. */
  lemma {:induction false} RightScanUpToDescending(s: seq<Position>, n: nat, right: int)
    requires n <= |s|
    requires Descending(s, Bottom)
    ensures forall a, b :: 0 <= a < b < |RightScanUpTo(s, n, right)| ==>
      RightScanUpTo(s, n, right)[b].top <= RightScanUpTo(s, n, right)[a].top
  {
    if n > 0 {
      RightScanUpToDescending(s, n - 1, right);
      RightScanUpToFrom(s, n - 1, right);
      var prev := RightScanUpTo(s, n - 1, right);
      var r := RightScanUpTo(s, n, right);
      forall a, b | 0 <= a < b < |r|
        ensures r[b].top <= r[a].top
      {
        assert r[a] == prev[a];
        if b < |prev| {
          assert r[b] == prev[b];
        } else {
          var i :| 0 <= i < n - 1 && prev[a].top == s[i].bottom + GAP;
          assert EdgeOf(s[n - 1], Bottom) <= EdgeOf(s[i], Bottom);
        }
      }
    }
  }

  /**
   * The corners of the right scan: all on the line `right + GAP`; the
   * sentinel's corner at top 0 exactly when no panel reaches left to 0;
   * one corner per panel that lowers the running minimum; at most one
   * more corner than panels.
   */
  lemma RightScanShape(s: seq<Position>, right: int)
    ensures |RightScan(s, right)| <= |s| + 1
    ensures forall c :: c in RightScan(s, right) ==> c.left == right + GAP
    ensures forall c :: c in RightScan(s, right) ==>
      c.top == 0 || exists i :: 0 <= i < |s| && NewLowLeft(s, i) && c.top == s[i].bottom + GAP
    ensures forall i :: 0 <= i < |s| && NewLowLeft(s, i) ==>
      Corner(s[i].bottom + GAP, right + GAP) in RightScan(s, right)
    ensures LeftsPositive(s) ==> Corner(0, right + GAP) in RightScan(s, right)
    ensures (forall j :: 0 <= j < |s| ==> 0 <= s[j].bottom) ==>
      (Corner(0, right + GAP) in RightScan(s, right) <==> LeftsPositive(s))
  {
    RightScanUpToLength(s, |s|, right);
    RightScanUpToSound(s, |s|, right);
    RightScanUpToComplete(s, |s|, right);
  }

  /**
   * Over panels by descending bottom edge whose bottoms are not negative,
   * the corners come out by descending top, the sentinel's corner last.
   */
  lemma RightScanDescending(s: seq<Position>, right: int)
    requires Descending(s, Bottom)
    requires forall j :: 0 <= j < |s| ==> 0 <= s[j].bottom
    ensures forall a, b :: 0 <= a < b < |RightScan(s, right)| ==>
      RightScan(s, right)[b].top <= RightScan(s, right)[a].top
  {
    RightScanUpToDescending(s, |s|, right);
    RightScanUpToFrom(s, |s|, right);
  }

  // ---------------------------------------------------------------------
  // Below scan: the mirror image, with top for left and right for bottom

  /**
   * The running minimum of top edges after walking the first `n` panels of
   * `s`; None is its initial value, +Infinity.
   */
  function LeastTop(s: seq<Position>, n: nat): (m: Option<int>)
    requires n <= |s|
    ensures m.None? <==> n == 0
  {
    if n == 0 then None
    else
      var m := LeastTop(s, n - 1);
      if m.None? || s[n - 1].top < m.value then Some(s[n - 1].top) else m
  }

  /** `s[i]` lowers the running minimum of top edges. */
  predicate NewLowTop(s: seq<Position>, i: int)
    requires 0 <= i < |s|
  {
    LeastTop(s, i).None? || s[i].top < LeastTop(s, i).value
  }

  /** Corners the below scan emits while walking the first `n` panels of `s`. */
  function BelowScanUpTo(s: seq<Position>, n: nat, bottom: int): seq<Corner>
    requires n <= |s|
  {
    if n == 0 then []
    else
      BelowScanUpTo(s, n - 1, bottom) +
      (if NewLowTop(s, n - 1) then [Corner(bottom + GAP, s[n - 1].right + GAP)] else [])
  }

  /** The sentinel (top 0) is below the running minimum: every panel's top edge is positive. */
  predicate TopsPositive(s: seq<Position>)
  {
    forall j :: 0 <= j < |s| ==> 0 < s[j].top
  }

  /** Everything the below scan emits over `s`, the sentinel's corner (left -GAP + GAP = 0) included. */
  function BelowScan(s: seq<Position>, bottom: int): seq<Corner>
  {
    BelowScanUpTo(s, |s|, bottom) + (if TopsPositive(s) then [Corner(bottom + GAP, 0)] else [])
  }

  /** The corners the below scan adds after a panel with edges `bottom` and `right` is placed. */
  function BelowCorners(placed: seq<Position>, bottom: int, right: int): seq<Corner>
  {
    BelowScan(BelowPanels(placed, bottom, right), bottom)
  }

  /** The below scan of the pass: keep, sort, then walk. */
  method EmitBelowCorners(placed: seq<Position>, bottom: int, right: int) returns (emitted: seq<Corner>)
    ensures emitted == BelowCorners(placed, bottom, right)
  {
    var belowPanels := BelowPanels(placed, bottom, right);
    emitted := WalkBelow(belowPanels, bottom);
  }

  /** The walk of the below scan with the running minimum of top edges, closed by the sentinel. */
  method WalkBelow(belowPanels: seq<Position>, bottom: int) returns (emitted: seq<Corner>)
    ensures emitted == BelowScan(belowPanels, bottom)
  {
    emitted := [];
    var lowest: Option<int> := None;  // None stands for +Infinity
    for i := 0 to |belowPanels|
      invariant emitted == BelowScanUpTo(belowPanels, i, bottom)
      invariant lowest == LeastTop(belowPanels, i)
    {
      var p := belowPanels[i];
      if lowest.None? || p.top < lowest.value {
        lowest := Some(p.top);
        emitted := emitted + [Corner(bottom + GAP, p.right + GAP)];
      }
    }
    SentinelTop(belowPanels);
    // the sentinel: top 0, right -GAP
    if lowest.None? || 0 < lowest.value {
      emitted := emitted + [Corner(bottom + GAP, -GAP + GAP)];
    }
  }

  /** The running minimum is the least top edge among the panels walked. */
  lemma {:induction false} LeastTopIsLeast(s: seq<Position>, n: nat)
    requires n <= |s|
    ensures LeastTop(s, n).Some? ==>
      (forall j :: 0 <= j < n ==> LeastTop(s, n).value <= s[j].top) &&
      exists j :: 0 <= j < n && s[j].top == LeastTop(s, n).value
  {
    if n > 0 {
      LeastTopIsLeast(s, n - 1);
      if LeastTop(s, n) == LeastTop(s, n - 1) {
        var j :| 0 <= j < n - 1 && s[j].top == LeastTop(s, n - 1).value;
      }
    }
  }

  /** A panel lowers the running minimum exactly when it lies strictly above every panel before it. */
  lemma NewLowTopMeans(s: seq<Position>, i: nat)
    requires i < |s|
    ensures NewLowTop(s, i) <==> forall j :: 0 <= j < i ==> s[i].top < s[j].top
  {
    LeastTopIsLeast(s, i);
  }

  /** The panels that emit corners form a staircase: each later one lies strictly above every earlier one. */
  lemma BelowEmittersStepUp(s: seq<Position>, i: nat, j: nat)
    requires i < j < |s|
    requires NewLowTop(s, i) && NewLowTop(s, j)
    ensures s[j].top < s[i].top
  {
    NewLowTopMeans(s, j);
  }

  /** The sentinel's step: it lowers the minimum exactly when every top edge is positive. */
  lemma SentinelTop(s: seq<Position>)
    ensures (LeastTop(s, |s|).None? || 0 < LeastTop(s, |s|).value) <==> TopsPositive(s)
  {
    LeastTopIsLeast(s, |s|);
  }

  /** The walk over `n` panels emits at most `n` corners. */
  lemma {:induction false} BelowScanUpToLength(s: seq<Position>, n: nat, bottom: int)
    requires n <= |s|
    ensures |BelowScanUpTo(s, n, bottom)| <= n
  {
    if n > 0 {
      BelowScanUpToLength(s, n - 1, bottom);
    }
  }

  /** Every corner of the walk lies on the line `bottom + GAP` and stems from a panel that lowered the running minimum. */
  lemma {:induction false} BelowScanUpToSound(s: seq<Position>, n: nat, bottom: int)
    requires n <= |s|
    ensures forall c :: c in BelowScanUpTo(s, n, bottom) ==>
      c.top == bottom + GAP &&
      exists i :: 0 <= i < n && NewLowTop(s, i) && c.left == s[i].right + GAP
  {
    if n > 0 {
      BelowScanUpToSound(s, n - 1, bottom);
      var prev := BelowScanUpTo(s, n - 1, bottom);
      forall c | c in BelowScanUpTo(s, n, bottom)
        ensures c.top == bottom + GAP
        ensures exists i :: 0 <= i < n && NewLowTop(s, i) && c.left == s[i].right + GAP
      {
        if c !in prev {
          assert NewLowTop(s, n - 1) && c == Corner(bottom + GAP, s[n - 1].right + GAP);
        }
      }
    }
  }

  /** Every corner of the walk over `n` panels has its left at GAP beyond the right edge of one of them. */
  lemma {:induction false} BelowScanUpToFrom(s: seq<Position>, n: nat, bottom: int)
    requires n <= |s|
    ensures forall a :: 0 <= a < |BelowScanUpTo(s, n, bottom)| ==>
      exists i :: 0 <= i < n && BelowScanUpTo(s, n, bottom)[a].left == s[i].right + GAP
  {
    if n > 0 {
      BelowScanUpToFrom(s, n - 1, bottom);
      var prev := BelowScanUpTo(s, n - 1, bottom);
      var r := BelowScanUpTo(s, n, bottom);
      forall a | 0 <= a < |r|
        ensures exists i :: 0 <= i < n && r[a].left == s[i].right + GAP
      {
        if a < |prev| {
          assert r[a] == prev[a];
          var i :| 0 <= i < n - 1 && prev[a].left == s[i].right + GAP;
        } else {
          assert r[a].left == s[n - 1].right + GAP;
        }
      }
    } else {
      assert BelowScanUpTo(s, 0, bottom) == [];
    }
  }

  /** Every panel that lowers the running minimum emits its corner. */
  lemma {:induction false} BelowScanUpToComplete(s: seq<Position>, n: nat, bottom: int)
    requires n <= |s|
    ensures forall i :: 0 <= i < n && NewLowTop(s, i) ==>
      Corner(bottom + GAP, s[i].right + GAP) in BelowScanUpTo(s, n, bottom)
  {
    if n > 0 {
      BelowScanUpToComplete(s, n - 1, bottom);
      var prev := BelowScanUpTo(s, n - 1, bottom);
      var r := BelowScanUpTo(s, n, bottom);
      if NewLowTop(s, n - 1) {
        assert r == prev + [Corner(bottom + GAP, s[n - 1].right + GAP)];
      } else {
        assert r == prev;
      }
      forall i | 0 <= i < n - 1 && NewLowTop(s, i)
        ensures Corner(bottom + GAP, s[i].right + GAP) in r
      {
        assert Corner(bottom + GAP, s[i].right + GAP) in prev;
      }
    }
  }
  lemma {:induction false} BelowScanUpToDescending(s: seq<Position>, n: nat, bottom: int)
    requires n <= |s|
    requires Descending(s, Right)
    ensures forall a, b :: 0 <= a < b < |BelowScanUpTo(s, n, bottom)| ==>
      BelowScanUpTo(s, n, bottom)[b].left <= BelowScanUpTo(s, n, bottom)[a].left
  {
    if n > 0 {
      BelowScanUpToDescending(s, n - 1, bottom);
      BelowScanUpToFrom(s, n - 1, bottom);
      var prev := BelowScanUpTo(s, n - 1, bottom);
      var r := BelowScanUpTo(s, n, bottom);
      forall a, b | 0 <= a < b < |r|
        ensures r[b].left <= r[a].left
      {
        assert r[a] == prev[a];
        if b < |prev| {
          assert r[b] == prev[b];
        } else {
          var i :| 0 <= i < n - 1 && prev[a].left == s[i].right + GAP;
          assert EdgeOf(s[n - 1], Right) <= EdgeOf(s[i], Right);
        }
      }
    }
  }

  /**
   * The corners of the below scan: all on the line `bottom + GAP`; the
   * sentinel's corner at left 0 exactly when no panel reaches up to 0;
   * one corner per panel that lowers the running minimum; at most one
   * more corner than panels.
   */
  lemma BelowScanShape(s: seq<Position>, bottom: int)
    ensures |BelowScan(s, bottom)| <= |s| + 1
    ensures forall c :: c in BelowScan(s, bottom) ==> c.top == bottom + GAP
    ensures forall c :: c in BelowScan(s, bottom) ==>
      c.left == 0 || exists i :: 0 <= i < |s| && NewLowTop(s, i) && c.left == s[i].right + GAP
    ensures forall i :: 0 <= i < |s| && NewLowTop(s, i) ==>
      Corner(bottom + GAP, s[i].right + GAP) in BelowScan(s, bottom)
    ensures TopsPositive(s) ==> Corner(bottom + GAP, 0) in BelowScan(s, bottom)
    ensures (forall j :: 0 <= j < |s| ==> 0 <= s[j].right) ==>
      (Corner(bottom + GAP, 0) in BelowScan(s, bottom) <==> TopsPositive(s))
  {
    BelowScanUpToLength(s, |s|, bottom);
    BelowScanUpToSound(s, |s|, bottom);
    BelowScanUpToComplete(s, |s|, bottom);
  }

  /**
   * Over panels by descending right edge whose rights are not negative,
   * the corners come out by descending left, the sentinel's corner last.
   */
  lemma BelowScanDescending(s: seq<Position>, bottom: int)
    requires Descending(s, Right)
    requires forall j :: 0 <= j < |s| ==> 0 <= s[j].right
    ensures forall a, b :: 0 <= a < b < |BelowScan(s, bottom)| ==>
      BelowScan(s, bottom)[b].left <= BelowScan(s, bottom)[a].left
  {
    BelowScanUpToDescending(s, |s|, bottom);
    BelowScanUpToFrom(s, |s|, bottom);
  }

  // ---------------------------------------------------------------------
  // The corners added after a placement, in terms of the placed panels

  /**
   * The right scan after placing a rectangle with edges `bottom` and
   * `right` adds at most one corner more than there are placed panels, all
   * on the line `right + GAP`; each sits GAP below a kept panel, or at
   * top 0.
   */
  lemma RightCornersFrom(placed: seq<Position>, bottom: int, right: int)
    ensures |RightCorners(placed, bottom, right)| <= |placed| + 1
    ensures forall c :: c in RightCorners(placed, bottom, right) ==>
      c.left == right + GAP &&
      (c.top == 0 || exists p :: p in placed && RightOf(p, bottom, right) && c.top == p.bottom + GAP)
  {
    var s := RightPanels(placed, bottom, right);
    RightPanelsMembers(placed, bottom, right);
    RightScanShape(s, right);
    forall c | c in RightScan(s, right) && c.top != 0
      ensures exists p :: p in placed && RightOf(p, bottom, right) && c.top == p.bottom + GAP
    {
      var i :| 0 <= i < |s| && NewLowLeft(s, i) && c.top == s[i].bottom + GAP;
      assert s[i] in s;
    }
  }

  /**
   * The right scan's corner at top 0 is added exactly when no kept
   * panel reaches left to 0 (placed bottom edges being non-negative).
   */
  lemma RightCornersFallback(placed: seq<Position>, bottom: int, right: int)
    requires forall p :: p in placed ==> 0 <= p.bottom
    ensures Corner(0, right + GAP) in RightCorners(placed, bottom, right) <==>
      forall p :: p in placed && RightOf(p, bottom, right) ==> 0 < p.left
  {
    var s := RightPanels(placed, bottom, right);
    RightPanelsMembers(placed, bottom, right);
    assert forall j :: 0 <= j < |s| ==> s[j] in s;
    RightScanShape(s, right);
  }

  /** The right scan's corners come out by descending top (placed bottom edges being non-negative). */
  lemma RightCornersOrdered(placed: seq<Position>, bottom: int, right: int)
    requires forall p :: p in placed ==> 0 <= p.bottom
    ensures forall a, b :: 0 <= a < b < |RightCorners(placed, bottom, right)| ==>
      RightCorners(placed, bottom, right)[b].top <= RightCorners(placed, bottom, right)[a].top
  {
    var s := RightPanels(placed, bottom, right);
    RightPanelsMembers(placed, bottom, right);
    assert forall j :: 0 <= j < |s| ==> s[j] in s;
    RightScanDescending(s, right);
  }

  /**
   * The below scan after placing a rectangle with edges `bottom` and
   * `right` adds at most one corner more than there are placed panels, all
   * on the line `bottom + GAP`; each sits GAP right of a kept panel, or at
   * left 0.
   */
  lemma BelowCornersFrom(placed: seq<Position>, bottom: int, right: int)
    ensures |BelowCorners(placed, bottom, right)| <= |placed| + 1
    ensures forall c :: c in BelowCorners(placed, bottom, right) ==>
      c.top == bottom + GAP &&
      (c.left == 0 || exists p :: p in placed && BelowOf(p, bottom, right) && c.left == p.right + GAP)
  {
    var s := BelowPanels(placed, bottom, right);
    BelowPanelsMembers(placed, bottom, right);
    BelowScanShape(s, bottom);
    forall c | c in BelowScan(s, bottom) && c.left != 0
      ensures exists p :: p in placed && BelowOf(p, bottom, right) && c.left == p.right + GAP
    {
      var i :| 0 <= i < |s| && NewLowTop(s, i) && c.left == s[i].right + GAP;
      assert s[i] in s;
    }
  }

  /**
   * The below scan's corner at left 0 is added exactly when no kept
   * panel reaches up to 0 (placed right edges being non-negative).
   */
  lemma BelowCornersFallback(placed: seq<Position>, bottom: int, right: int)
    requires forall p :: p in placed ==> 0 <= p.right
    ensures Corner(bottom + GAP, 0) in BelowCorners(placed, bottom, right) <==>
      forall p :: p in placed && BelowOf(p, bottom, right) ==> 0 < p.top
  {
    var s := BelowPanels(placed, bottom, right);
    BelowPanelsMembers(placed, bottom, right);
    assert forall j :: 0 <= j < |s| ==> s[j] in s;
    BelowScanShape(s, bottom);
  }

  /** The below scan's corners come out by descending left (placed right edges being non-negative). */
  lemma BelowCornersOrdered(placed: seq<Position>, bottom: int, right: int)
    requires forall p :: p in placed ==> 0 <= p.right
    ensures forall a, b :: 0 <= a < b < |BelowCorners(placed, bottom, right)| ==>
      BelowCorners(placed, bottom, right)[b].left <= BelowCorners(placed, bottom, right)[a].left
  {
    var s := BelowPanels(placed, bottom, right);
    BelowPanelsMembers(placed, bottom, right);
    assert forall j :: 0 <= j < |s| ==> s[j] in s;
    BelowScanDescending(s, bottom);
  }

  /** With no placed panel kept, the right scan walks only its sentinel and adds the single corner (0, right + GAP). */
  lemma RightCornersNoneKept(placed: seq<Position>, bottom: int, right: int)
    requires forall p :: p in placed ==> !RightOf(p, bottom, right)
    ensures RightCorners(placed, bottom, right) == [Corner(0, right + GAP)]
  {
    FilterNone(placed, p => RightOf(p, bottom, right));
    assert RightScan([], right) == [Corner(0, right + GAP)];
  }

  /** With no placed panel kept, the below scan walks only its sentinel and adds the single corner (bottom + GAP, 0). */
  lemma BelowCornersNoneKept(placed: seq<Position>, bottom: int, right: int)
    requires forall p :: p in placed ==> !BelowOf(p, bottom, right)
    ensures BelowCorners(placed, bottom, right) == [Corner(bottom + GAP, 0)]
  {
    FilterNone(placed, p => BelowOf(p, bottom, right));
    assert BelowScan([], bottom) == [Corner(bottom + GAP, 0)];
  }
}
