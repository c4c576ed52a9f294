/** The rack grid: module boxes in grid units, their pixel rectangles,
    and the collision rule used by every placement operation. */
module Grid {

  /** Pixel width of one rack column (1 HP). */
  const RackGridWidth: int := 15
  /** Pixel height of one rack row (3U). */
  const RackGridHeight: int := 380

  /** A module's box in grid units: the column and row of its top-left cell
      and its width in columns. Every module is exactly one row tall. */
  datatype Box = Box(col: int, row: int, hp: nat)

  /** An axis-aligned rectangle in pixels: position and size. */
  datatype PxRect = PxRect(x: int, y: int, w: int, h: int)

  /** The pixel rectangle a grid box occupies. */
  function ToPixels(b: Box): PxRect
  {
    PxRect(b.col * RackGridWidth, b.row * RackGridHeight, b.hp * RackGridWidth, RackGridHeight)
  }

  /** The grid box of a pixel rectangle, when the rectangle lies on the grid:
      its position and width are whole columns, its position a whole row and
      its height exactly one row. The box found covers exactly the rectangle. */
  function FromPixels(r: PxRect): (b: Option<Box>)
    ensures b.Some? ==> ToPixels(b.value) == r
  {
    if r.x % RackGridWidth == 0 && r.y % RackGridHeight == 0
       && r.w >= 0 && r.w % RackGridWidth == 0 && r.h == RackGridHeight
    then
      DivMul(r.x, RackGridWidth);
      DivMul(r.y, RackGridHeight);
      DivMul(r.w, RackGridWidth);
      Some(Box(r.x / RackGridWidth, r.y / RackGridHeight, r.w / RackGridWidth))
    else None
  }

  datatype Option<T> = None | Some(value: T)

  /** Every grid box is a whole number of 15 px columns wide and one 380 px row tall,
      and reading it back from its pixels gives the same box. */
  lemma PixelsRoundTrip(b: Box)
    ensures ToPixels(b).w % RackGridWidth == 0 && ToPixels(b).h == RackGridHeight
    ensures FromPixels(ToPixels(b)) == Some(b)
  {
    var r := ToPixels(b);
    assert r.x == RackGridWidth * b.col && r.y == RackGridHeight * b.row && r.w == RackGridWidth * b.hp;
    MulDiv(b.col, RackGridWidth);
    MulDiv(b.row, RackGridHeight);
    MulDiv(b.hp, RackGridWidth);
  }

  /** A pixel rectangle is read as a box exactly when it is the pixels of some box. */
  lemma FromPixelsExactly(r: PxRect)
    ensures FromPixels(r).Some? <==> exists b :: ToPixels(b) == r
  {
    if exists b :: ToPixels(b) == r {
      var b :| ToPixels(b) == r;
      PixelsRoundTrip(b);
    }
  }

  lemma MulDiv(a: int, k: int)
    requires k > 0
    ensures (k * a) % k == 0 && (k * a) / k == a
  {
    var n := k * a;
    var d := a - n / k;
    assert k * d == n % k by {
      assert n == k * (n / k) + n % k;
    }
  }

  lemma DivMul(a: int, k: int)
    requires k > 0 && a % k == 0
    ensures (a / k) * k == a
  {
  }

  /** Two boxes collide when they share a row and their column ranges
      intersect in more than an edge. */
  predicate Overlaps(a: Box, b: Box)
  {
    a.row == b.row && a.col < b.col + b.hp && b.col < a.col + a.hp
  }

  /** Strict intersection of two pixel rectangles: touching edges do not count. */
  predicate PxIntersects(r: PxRect, s: PxRect)
  {
    r.x < s.x + s.w && s.x < r.x + r.w && r.y < s.y + s.h && s.y < r.y + r.h
  }

  /** The grid collision rule is exactly strict intersection of the boxes' pixel rectangles. */
  lemma OverlapsIffPixelsIntersect(a: Box, b: Box)
    ensures Overlaps(a, b) <==> PxIntersects(ToPixels(a), ToPixels(b))
  {
    ScaledLess(a.col, b.col + b.hp, RackGridWidth);
    ScaledLess(b.col, a.col + a.hp, RackGridWidth);
    ScaledLess(a.row, b.row + 1, RackGridHeight);
    ScaledLess(b.row, a.row + 1, RackGridHeight);
  }

  lemma ScaledLess(u: int, v: int, k: int)
    requires k > 0
    ensures u < v <==> u * k < v * k
  {
    if u < v {
      assert (v - u) * k > 0;
    } else {
      assert (u - v) * k >= 0;
    }
  }

  /** The rack's logical extent starts at the top-left cell: no box may lie left of
      column 0 or above row 0. */
  predicate InBounds(b: Box)
  {
    b.col >= 0 && b.row >= 0
  }
}
