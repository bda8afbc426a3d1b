/**
 * The three sorts of the placement pass: the corner list ascending by
 * (top, left), and the kept neighbour panels descending by bottom edge
 * (right scan) or by right edge (below scan). The panel sorts are stable,
 * as the host language's array sort is.
 */
module Ordering {
  import opened Geometry

  // ---------------------------------------------------------------------
  // Corners, ascending by (top, left)

  /** `a` may precede `b`: the comparator orders by top, then by left. */
  predicate CornerLeq(a: Corner, b: Corner)
  {
    a.top < b.top || (a.top == b.top && a.left <= b.left)
  }

  predicate CornersSorted(s: seq<Corner>)
  {
    forall i, j :: 0 <= i < j < |s| ==> CornerLeq(s[i], s[j])
  }

  /** Inserts `c` in front of the first corner it may precede. */
  function InsertCorner(c: Corner, s: seq<Corner>): seq<Corner>
  {
    if s == [] || CornerLeq(c, s[0]) then [c] + s
    else [s[0]] + InsertCorner(c, s[1..])
  }

  /** Insertion adds exactly the one corner. */
  lemma {:induction false} InsertCornerMultiset(c: Corner, s: seq<Corner>)
    ensures multiset(InsertCorner(c, s)) == multiset(s) + multiset{c}
  {
    if !(s == [] || CornerLeq(c, s[0])) {
      InsertCornerMultiset(c, s[1..]);
      assert s == [s[0]] + s[1..];
    }
  }

  /** Insertion into a sorted list keeps it sorted. */
  lemma {:induction false} InsertCornerSorted(c: Corner, s: seq<Corner>)
    requires CornersSorted(s)
    ensures CornersSorted(InsertCorner(c, s))
  {
    if s == [] || CornerLeq(c, s[0]) {
      forall y | y in s
        ensures CornerLeq(c, y)
      {
        HeadPrecedes(s, y);
      }
      SortedCons(c, s);
    } else {
      var t := InsertCorner(c, s[1..]);
      HeadPrecedesTail(s);
      InsertCornerSorted(c, s[1..]);
      InsertCornerMultiset(c, s[1..]);
      forall x | x in t
        ensures CornerLeq(s[0], x)
      {
        assert x in multiset(t);
        if x != c {
          assert x in multiset(s[1..]);
        }
      }
      SortedCons(s[0], t);
    }
  }

  /** The head of a sorted list may precede everything after it, and the tail is sorted. */
  lemma HeadPrecedesTail(s: seq<Corner>)
    requires CornersSorted(s) && s != []
    ensures CornersSorted(s[1..])
    ensures forall x :: x in s[1..] ==> CornerLeq(s[0], x)
  {
    forall x | x in s[1..]
      ensures CornerLeq(s[0], x)
    {
      var j :| 0 <= j < |s[1..]| && s[1..][j] == x;
      assert s[j + 1] == x;
    }
  }

  /** A corner that may precede every corner of a sorted list extends it at the front. */
  lemma SortedCons(x: Corner, t: seq<Corner>)
    requires CornersSorted(t)
    requires forall y :: y in t ==> CornerLeq(x, y)
    ensures CornersSorted([x] + t)
  {
    forall i, j | 0 <= i < j < |[x] + t|
      ensures CornerLeq(([x] + t)[i], ([x] + t)[j])
    {
      if i > 0 {
        assert ([x] + t)[i] == t[i - 1];
      }
      assert ([x] + t)[j] == t[j - 1];
    }
  }

  /** The corner list after the in-place sort of each iteration. */
  function SortCorners(s: seq<Corner>): seq<Corner>
  {
    if s == [] then []
    else InsertCorner(s[0], SortCorners(s[1..]))
  }

  /** The sort's result is sorted and a permutation of its input. */
  lemma {:induction false} SortCornersSorts(s: seq<Corner>)
    ensures CornersSorted(SortCorners(s))
    ensures multiset(SortCorners(s)) == multiset(s)
  {
    if s != [] {
      SortCornersSorts(s[1..]);
      InsertCornerSorted(s[0], SortCorners(s[1..]));
      InsertCornerMultiset(s[0], SortCorners(s[1..]));
      assert s == [s[0]] + s[1..];
    }
  }

  /** Sorting neither adds nor drops a corner. */
  lemma SortedMembers(s: seq<Corner>)
    ensures forall c :: c in SortCorners(s) <==> c in s
  {
    SortCornersSorts(s);
    forall c
      ensures c in SortCorners(s) <==> c in s
    {
      assert c in SortCorners(s) <==> c in multiset(SortCorners(s));
      assert c in s <==> c in multiset(s);
    }
  }

  /**
   * The corner order is a total order, so a sorted permutation is unique:
   * whatever algorithm the host's sort uses, it produces SortCorners(s).
   */
  lemma {:induction false} SortedPermutationUnique(a: seq<Corner>, b: seq<Corner>)
    requires CornersSorted(a) && CornersSorted(b)
    requires multiset(a) == multiset(b)
    ensures a == b
  {
    if a == [] {
      assert |b| == |multiset(b)| == 0;
    } else {
      assert |b| == |multiset(b)| == |multiset(a)| == |a|;
      assert a[0] in multiset(b) && b[0] in multiset(a);
      HeadPrecedes(b, a[0]);
      HeadPrecedes(a, b[0]);
      assert a[0] == b[0];
      assert a == [a[0]] + a[1..];
      assert b == [b[0]] + b[1..];
      calc {
        multiset(a[1..]);
        multiset(a) - multiset{a[0]};
        multiset(b) - multiset{b[0]};
        multiset(b[1..]);
      }
      SortedPermutationUnique(a[1..], b[1..]);
    }
  }

  /** The head of a sorted list may precede each of its elements. */
  lemma HeadPrecedes(s: seq<Corner>, x: Corner)
    requires CornersSorted(s) && x in s
    ensures CornerLeq(s[0], x)
  {
    var k :| 0 <= k < |s| && s[k] == x;
    if k > 0 {
      assert CornerLeq(s[0], s[k]);
    }
  }

  /** Sorting a list that is already sorted leaves it as it is. */
  lemma SortSortedIsIdentity(s: seq<Corner>)
    requires CornersSorted(s)
    ensures SortCorners(s) == s
  {
    SortCornersSorts(s);
    SortedPermutationUnique(SortCorners(s), s);
  }

  // ---------------------------------------------------------------------
  // Placed panels, descending by one edge, stable

  /** The edge a scan sorts by: `Bottom` for the right scan, `Right` for the below scan. */
  datatype Edge = Bottom | Right

  function EdgeOf(p: Position, e: Edge): int
  {
    match e
    case Bottom => p.bottom
    case Right => p.right
  }

  predicate Descending(s: seq<Position>, e: Edge)
  {
    forall i, j :: 0 <= i < j < |s| ==> EdgeOf(s[j], e) <= EdgeOf(s[i], e)
  }

  /** Inserts `p` in front of the first panel whose edge is not larger than its own. */
  function InsertDescending(p: Position, s: seq<Position>, e: Edge): seq<Position>
  {
    if s == [] || EdgeOf(s[0], e) <= EdgeOf(p, e) then [p] + s
    else [s[0]] + InsertDescending(p, s[1..], e)
  }

  /** Insertion adds exactly the one panel. */
  lemma {:induction false} InsertDescendingMultiset(p: Position, s: seq<Position>, e: Edge)
    ensures multiset(InsertDescending(p, s, e)) == multiset(s) + multiset{p}
  {
    if !(s == [] || EdgeOf(s[0], e) <= EdgeOf(p, e)) {
      InsertDescendingMultiset(p, s[1..], e);
      assert s == [s[0]] + s[1..];
    }
  }

  /** Insertion into a descending list keeps it descending. */
  lemma {:induction false} InsertDescendingSorted(p: Position, s: seq<Position>, e: Edge)
    requires Descending(s, e)
    ensures Descending(InsertDescending(p, s, e), e)
  {
    if s == [] || EdgeOf(s[0], e) <= EdgeOf(p, e) {
      forall y | y in s
        ensures EdgeOf(y, e) <= EdgeOf(p, e)
      {
        HeadDominates(s, y, e);
      }
      DescendingCons(p, s, e);
    } else {
      var t := InsertDescending(p, s[1..], e);
      HeadDominatesTail(s, e);
      InsertDescendingSorted(p, s[1..], e);
      InsertDescendingMultiset(p, s[1..], e);
      forall x | x in t
        ensures EdgeOf(x, e) <= EdgeOf(s[0], e)
      {
        assert x in multiset(t);
        if x != p {
          assert x in multiset(s[1..]);
        }
      }
      DescendingCons(s[0], t, e);
    }
  }

  /** The head of a descending list has an edge at least that of each of its elements. */
  lemma HeadDominates(s: seq<Position>, x: Position, e: Edge)
    requires Descending(s, e) && x in s
    ensures EdgeOf(x, e) <= EdgeOf(s[0], e)
  {
    var k :| 0 <= k < |s| && s[k] == x;
    if k > 0 {
      assert EdgeOf(s[k], e) <= EdgeOf(s[0], e);
    }
  }

  /** The head of a descending list has the largest edge, and the tail is descending. */
  lemma HeadDominatesTail(s: seq<Position>, e: Edge)
    requires Descending(s, e) && s != []
    ensures Descending(s[1..], e)
    ensures forall x :: x in s[1..] ==> EdgeOf(x, e) <= EdgeOf(s[0], e)
  {
    forall x | x in s[1..]
      ensures EdgeOf(x, e) <= EdgeOf(s[0], e)
    {
      var j :| 0 <= j < |s[1..]| && s[1..][j] == x;
      assert s[j + 1] == x;
    }
  }

  /** A panel whose edge is not below any edge of a descending list extends it at the front. */
  lemma DescendingCons(x: Position, t: seq<Position>, e: Edge)
    requires Descending(t, e)
    requires forall y :: y in t ==> EdgeOf(y, e) <= EdgeOf(x, e)
    ensures Descending([x] + t, e)
  {
    forall i, j | 0 <= i < j < |[x] + t|
      ensures EdgeOf(([x] + t)[j], e) <= EdgeOf(([x] + t)[i], e)
    {
      if i > 0 {
        assert ([x] + t)[i] == t[i - 1];
      }
      assert ([x] + t)[j] == t[j - 1];
    }
  }

  /** The comparator `(a, b) => edge(b) - edge(a)` under a stable sort. */
  function SortDescending(s: seq<Position>, e: Edge): seq<Position>
  {
    if s == [] then []
    else InsertDescending(s[0], SortDescending(s[1..], e), e)
  }

  /** The sort's result is descending and a permutation of its input. */
  lemma {:induction false} SortDescendingSorts(s: seq<Position>, e: Edge)
    ensures Descending(SortDescending(s, e), e)
    ensures multiset(SortDescending(s, e)) == multiset(s)
  {
    if s != [] {
      SortDescendingSorts(s[1..], e);
      InsertDescendingSorted(s[0], SortDescending(s[1..], e), e);
      InsertDescendingMultiset(s[0], SortDescending(s[1..], e), e);
      assert s == [s[0]] + s[1..];
    }
  }

  /** The panels of `s` whose edge `e` equals `v`, in their order in `s`. */
  function WithEdge(s: seq<Position>, e: Edge, v: int): seq<Position>
  {
    if s == [] then []
    else (if EdgeOf(s[0], e) == v then [s[0]] else []) + WithEdge(s[1..], e, v)
  }

  lemma {:induction false} InsertDescendingStable(p: Position, s: seq<Position>, e: Edge, v: int)
    ensures WithEdge(InsertDescending(p, s, e), e, v) ==
            (if EdgeOf(p, e) == v then [p] else []) + WithEdge(s, e, v)
  {
    if s == [] || EdgeOf(s[0], e) <= EdgeOf(p, e) {
      WithEdgeCons(p, s, e, v);
    } else {
      var t := InsertDescending(p, s[1..], e);
      assert InsertDescending(p, s, e) == [s[0]] + t;
      WithEdgeCons(s[0], t, e, v);
      WithEdgeCons(s[0], s[1..], e, v);
      assert s == [s[0]] + s[1..];
      InsertDescendingStable(p, s[1..], e, v);
    }
  }

  /** Filtering a list with a head in front. */
  lemma WithEdgeCons(x: Position, t: seq<Position>, e: Edge, v: int)
    ensures WithEdge([x] + t, e, v) == (if EdgeOf(x, e) == v then [x] else []) + WithEdge(t, e, v)
  {
    assert ([x] + t)[1..] == t;
  }

  /**
   * Stability: panels with equal edges keep the order they had in the
   * placed list, so the scans see ties in placement order.
   */
  lemma {:induction false} SortDescendingStable(s: seq<Position>, e: Edge, v: int)
    ensures WithEdge(SortDescending(s, e), e, v) == WithEdge(s, e, v)
  {
    if s != [] {
      SortDescendingStable(s[1..], e, v);
      InsertDescendingStable(s[0], SortDescending(s[1..], e), e, v);
    }
  }
}
