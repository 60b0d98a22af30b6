/**
 * Integer model of the rectangles and vectors the widget library reports.
 * The library works on `f32`; here every coordinate and size is an integer,
 * and the intersection area is defined here following the library's
 * `Rectangle::intersection` and `Rectangle::area`.
 */
module Geometry {

  datatype Vector = Vector(x: int, y: int) {

    /** Component-wise sum, as `Vector + Vector`. */
    function Plus(v: Vector): (r: Vector)
      ensures r.x - x == v.x && r.y - y == v.y
    {
      Vector(x + v.x, y + v.y)
    }
  }

  const Zero := Vector(0, 0)

  datatype Rect = Rect(x: int, y: int, width: int, height: int) {

    /** `Rectangle - Vector`: moves the rectangle by the opposite of `v`, keeping its size. */
    function Minus(v: Vector): (r: Rect)
      ensures r.x + v.x == x && r.y + v.y == y
      ensures r.width == width && r.height == height
    {
      Rect(x - v.x, y - v.y, width, height)
    }

    /** Width of the overlap of the two rectangles along the x axis (0 when they do not overlap). */
    function OverlapX(other: Rect): nat
    {
      var lo := if x < other.x then other.x else x;
      var hi := if x + width < other.x + other.width then x + width else other.x + other.width;
      if lo < hi then hi - lo else 0
    }

    function OverlapY(other: Rect): nat
    {
      var lo := if y < other.y then other.y else y;
      var hi := if y + height < other.y + other.height then y + height else other.y + other.height;
      if lo < hi then hi - lo else 0
    }

    /**
     * Area of the intersection with `other`: `intersection` gives no rectangle
     * unless the overlap has a positive width and height, and the area of
     * none is that of the default rectangle, 0.
     */
    function IntersectionArea(other: Rect): (a: nat)
      ensures a > 0 <==> Intersects(other)
    {
      var w := OverlapX(other);
      var h := OverlapY(other);
      if w > 0 && h > 0 then w * h else 0
    }

    /**
     * `Rectangle::intersects`, which is `intersection(..).is_some()`: the
     * overlap has a positive width and height. The two rectangles overlap as
     * open intervals on both axes and both have a positive size, so a
     * rectangle of size zero intersects nothing.
     */
    function Intersects(other: Rect): (b: bool)
      ensures b <==> && x < other.x + other.width && other.x < x + width
                     && y < other.y + other.height && other.y < y + height
                     && width > 0 && height > 0 && other.width > 0 && other.height > 0
    {
      OverlapX(other) > 0 && OverlapY(other) > 0
    }
  }
}
