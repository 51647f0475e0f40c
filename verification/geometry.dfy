/**
 Screen constants and the integer rectangles the game moves around, with the
 conventions of pygame's `Rect`: `(x, y)` is the top-left corner, the right
 and bottom edges lie one past the last covered pixel.
 */
module Geometry {

  const WIDTH: int := 800
  const HEIGHT: int := 600

  /** C integer division by 2, which truncates toward zero (Dafny's `/` is Euclidean). */
  function TruncHalf(n: int): (r: int)
    ensures n >= 0 ==> 0 <= n - 2 * r <= 1
    ensures n < 0 ==> -1 <= n - 2 * r <= 0
  {
    if n >= 0 then n / 2 else -((-n) / 2)
  }

  datatype Rect = Rect(x: int, y: int, w: int, h: int) {

    function Left(): int { x }
    function Right(): int { x + w }
    function Top(): int { y }
    function Bottom(): int { y + h }

    /** True when the pixel `(px, py)` lies inside the half-open box. */
    predicate Contains(px: int, py: int) {
      x <= px < x + w && y <= py < y + h
    }
  }

  /**
   The assignment `rect.center = (cx, cy)`: the size is kept and the box is
   placed so that its centre is `(cx, cy)`; an odd size leaves the extra
   pixel on the right or bottom.
   */
  function WithCenter(b: Rect, cx: int, cy: int): (r: Rect)
    ensures r.w == b.w && r.h == b.h
    ensures b.w >= 0 ==> 0 <= (r.Right() - cx) - (cx - r.Left()) <= 1
    ensures b.h >= 0 ==> 0 <= (r.Bottom() - cy) - (cy - r.Top()) <= 1
    ensures b.w % 2 == 0 && b.w >= 0 ==> cx - r.Left() == r.Right() - cx
  {
    Rect(cx - TruncHalf(b.w), cy - TruncHalf(b.h), b.w, b.h)
  }

  /**
   pygame's `colliderect`, which `spritecollide` uses: the two half-open
   boxes intersect, written with strict inequalities on the edges.
   */
  predicate Overlaps(a: Rect, b: Rect) {
    a.Left() < b.Right() && b.Left() < a.Right() && a.Top() < b.Bottom() && b.Top() < a.Bottom()
  }

  /**
   For boxes of positive size the edge test agrees with the pixel view: two
   boxes overlap exactly when some pixel lies in both.
   */
  lemma OverlapsIffSharedPixel(a: Rect, b: Rect)
    requires a.w > 0 && a.h > 0 && b.w > 0 && b.h > 0
    ensures Overlaps(a, b) <==> exists px, py :: a.Contains(px, py) && b.Contains(px, py)
  {
    if Overlaps(a, b) {
      var px := if a.x < b.x then b.x else a.x;
      var py := if a.y < b.y then b.y else a.y;
      assert a.Contains(px, py) && b.Contains(px, py);
    }
  }
}
