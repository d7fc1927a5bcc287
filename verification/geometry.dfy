/**
 * Integer rectangles as java.awt.Rectangle models them, the overlap test
 * `Rectangle.intersects`, and the `(int)` cast Java applies to a double.
 */
module Geometry {

  /** Java's `(int)` cast of a double: rounds toward zero (saturation at the int range is not modelled). */
  function Trunc(r: real): (n: int)
    ensures r >= 0.0 ==> 0 <= n && n as real <= r < n as real + 1.0
    ensures r < 0.0 ==> n <= 0 && n as real - 1.0 < r <= n as real
  {
    if r >= 0.0 then r.Floor else -((-r).Floor)
  }

  datatype Rect = Rect(x: int, y: int, width: int, height: int)

  /** The point (px, py) lies in the half-open area of `r`. */
  predicate Contains(r: Rect, px: int, py: int)
  {
    r.x <= px < r.x + r.width && r.y <= py < r.y + r.height
  }

  /**
   * `Rectangle.intersects`: both rectangles have positive width and height and
   * their areas overlap strictly (touching edges do not count).
   */
  predicate Intersects(a: Rect, b: Rect)
  {
    && a.width > 0 && a.height > 0 && b.width > 0 && b.height > 0
    && a.x < b.x + b.width && b.x < a.x + a.width
    && a.y < b.y + b.height && b.y < a.y + a.height
  }

  /** `inner` lies inside `outer`. */
  predicate Within(inner: Rect, outer: Rect)
  {
    && outer.x <= inner.x && inner.x + inner.width <= outer.x + outer.width
    && outer.y <= inner.y && inner.y + inner.height <= outer.y + outer.height
  }

  /** The overlap test agrees with the geometric meaning: the two areas share a point. */
  lemma IntersectsIffCommonPoint(a: Rect, b: Rect)
    ensures Intersects(a, b) <==> exists px, py :: Contains(a, px, py) && Contains(b, px, py)
  {
    if Intersects(a, b) {
      var px := if a.x < b.x then b.x else a.x;
      var py := if a.y < b.y then b.y else a.y;
      assert Contains(a, px, py) && Contains(b, px, py);
    }
  }
}
