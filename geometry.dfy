/**
 * Values of the workspace's coordinate system: measured panel sizes, candidate
 * top-left corners, placed rectangles, the column-span width rule and the
 * gap-expanded overlap test of the placement pass.
 */
module Geometry {

  /** Clearance kept between panels; one constant shared by every test of the pass. */
  const GAP: int := 16

  /** Pixel width of a single grid column. */
  const COLUMN: int := 128

  datatype Option<T> = None | Some(value: T)

  /** A measured content size (both zero until the panel has been observed). */
  datatype Size = Size(width: int, height: int)

  /** A candidate anchor for the top-left corner of the next panel. */
  datatype Corner = Corner(top: int, left: int)

  /** A placed rectangle; `bottom` and `right` are derived from the size it was placed with. */
  datatype Position = Position(top: int, left: int, bottom: int, right: int)

  /**
   * Pixel width of a panel that spans `span` columns: `span` columns of
   * COLUMN pixels with one GAP between each neighbouring pair.
   */
  function PixelWidth(span: int): (w: int)
    ensures w == span * COLUMN + (span - 1) * GAP
  {
    128 + 144 * (span - 1)
  }

  /** Two panels of spans `a` and `b` set side by side, GAP apart, are exactly as wide as one panel of span `a + b`. */
  lemma SpansTile(a: int, b: int)
    ensures PixelWidth(a) + GAP + PixelWidth(b) == PixelWidth(a + b)
  {
  }

  /** `p` is the rectangle of size `s` anchored at its own top-left corner. */
  predicate Shaped(p: Position, s: Size)
  {
    p.bottom == p.top + s.height && p.right == p.left + s.width
  }

  /** The rectangle a panel of size `s` occupies when anchored at corner `c`. */
  function Place(c: Corner, s: Size): (r: Position)
    ensures Shaped(r, s)
    ensures r.top == c.top && r.left == c.left
  {
    Position(c.top, c.left, c.top + s.height, c.left + s.width)
  }

  /** The corner a rectangle is anchored at. */
  function TopLeft(p: Position): Corner
  {
    Corner(p.top, p.left)
  }

  /**
   * The four-clause test of the pass: the candidate rectangle `r` comes within
   * GAP of the already placed rectangle `p` (the overlap test on `p` grown by
   * GAP on every side).
   */
  predicate TooClose(p: Position, r: Position)
  {
    p.left - GAP < r.right && r.left < p.right + GAP &&
    p.top - GAP < r.bottom && r.top < p.bottom + GAP
  }

  /** Two rectangles are not too close exactly when one of them lies at least GAP beyond the other along some axis. */
  lemma NotTooCloseMeansSeparated(p: Position, r: Position)
    ensures !TooClose(p, r) <==>
      (r.right + GAP <= p.left || p.right + GAP <= r.left ||
       r.bottom + GAP <= p.top || p.bottom + GAP <= r.top)
  {
  }

  /** The test does not depend on which rectangle was placed first. */
  lemma TooCloseSymmetric(p: Position, r: Position)
    ensures TooClose(p, r) <==> TooClose(r, p)
  {
  }
}
