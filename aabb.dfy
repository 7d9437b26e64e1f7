/**
 * Axis-aligned bounding boxes (Assets/Physics/AABB.cs and Assets/Models/AABB.cs;
 * the two structs are identical except that the Models one also has a two-point
 * constructor). The trigonometric values of the rotation are inputs: the source
 * obtains them from math.sincos, which is not modelled.
 */
module Aabb {
  import opened MathHelper

  datatype AABB = AABB(Min: Float2, Max: Float2)

  /** The Models revision's two-point constructor: it stores its arguments as they are. */
  function FromMinMax(min: Float2, max: Float2): (box: AABB)
    ensures box.Min == min && box.Max == max
  {
    AABB(min, max)
  }

  /** Larger of |a + b| and |a - b|: the half-extent of a rotated rectangle along one axis. */
  function HalfExtent(a: real, b: real): real
  {
    Max(Abs(a + b), Abs(a - b))
  }

  /** Half-extent along x of a rectangle of half-size `size` rotated by an angle with the given sine and cosine. */
  function ExtentX(size: Float2, sin: real, cos: real): real
  {
    HalfExtent(size.x * cos, size.y * sin)
  }

  /** Half-extent along y; the source takes the larger of |x sin - y cos| and |x sin + y cos|, the same value. */
  function ExtentY(size: Float2, sin: real, cos: real): real
  {
    HalfExtent(size.x * sin, size.y * cos)
  }

  /** The rotated constructor AABB(size, position, rotation), with sincos(rotation) given as (sin, cos). */
  function FromSize(size: Float2, position: Float2, sin: real, cos: real): AABB
  {
    var ex := ExtentX(size, sin, cos);
    var ey := ExtentY(size, sin, cos);
    AABB(Float2(position.x - ex, position.y - ey), Float2(position.x + ex, position.y + ey))
  }

  /** Closed-interval overlap test on both axes. */
  predicate Overlap(a: AABB, b: AABB)
  {
    !(a.Max.x < b.Min.x) && !(a.Min.x > b.Max.x) && !(a.Max.y < b.Min.y) && !(a.Min.y > b.Max.y)
  }

  predicate Contains(box: AABB, p: Float2)
  {
    box.Min.x <= p.x <= box.Max.x && box.Min.y <= p.y <= box.Max.y
  }

  predicate Ordered(a: AABB)
  {
    a.Min.x <= a.Max.x && a.Min.y <= a.Max.y
  }

  /** Two boxes fail to overlap exactly when they are strictly separated on x or on y. */
  lemma OverlapIffNotSeparated(a: AABB, b: AABB)
    ensures !Overlap(a, b) <==>
      (a.Max.x < b.Min.x || b.Max.x < a.Min.x || a.Max.y < b.Min.y || b.Max.y < a.Min.y)
  {
  }

  /** Touching boxes (a shared edge) count as overlapping: the intervals are closed. */
  lemma OverlapTouching(a: AABB, b: AABB)
    requires Ordered(a) && Ordered(b)
    requires a.Max.x == b.Min.x && a.Min.y == b.Min.y
    ensures Overlap(a, b)
  {
  }

  lemma OverlapSymmetric(a: AABB, b: AABB)
    ensures Overlap(a, b) <==> Overlap(b, a)
  {
  }

  lemma OverlapSelf(a: AABB)
    ensures Overlap(a, a) <==> Ordered(a)
  {
  }

  /** The rotated constructor yields non-negative half-extents, hence an ordered box centred on the position. */
  lemma FromSizeOrderedCentred(size: Float2, position: Float2, sin: real, cos: real)
    ensures ExtentX(size, sin, cos) >= 0.0 && ExtentY(size, sin, cos) >= 0.0
    ensures Ordered(FromSize(size, position, sin, cos))
    ensures (FromSize(size, position, sin, cos).Min.x + FromSize(size, position, sin, cos).Max.x) / 2.0 == position.x
    ensures (FromSize(size, position, sin, cos).Min.y + FromSize(size, position, sin, cos).Max.y) / 2.0 == position.y
  {
  }

  /** Without rotation (sin 0, cos 1) the half-extents are |size.x| and |size.y|; a circle of radius r gets [p - |r|, p + |r|]. */
  lemma FromSizeUnrotated(size: Float2, position: Float2)
    ensures ExtentX(size, 0.0, 1.0) == Abs(size.x) && ExtentY(size, 0.0, 1.0) == Abs(size.y)
    ensures FromSize(size, position, 0.0, 1.0) ==
      AABB(Float2(position.x - Abs(size.x), position.y - Abs(size.y)), Float2(position.x + Abs(size.x), position.y + Abs(size.y)))
  {
  }

  /**
   * Each signed combination of a and b lies within HalfExtent(a, b). With
   * (a, b) = (w cos, h sin) on x and (w sin, h cos) on y these are the offsets
   * of the four rotated corners (+-w, +-h) from the position, so the rotated
   * box contains the rotated rectangle.
   */
  lemma OffsetWithinExtent(a: real, b: real, d: real)
    requires d == a + b || d == a - b || d == -a + b || d == -a - b
    ensures -HalfExtent(a, b) <= d <= HalfExtent(a, b)
  {
  }
}
