/**
 * Box arithmetic used by the overlap filter of the room ranker
 * (python-vision-service/app.py, `filter_and_rank_rooms`).
 */
module Geometry {
  import opened Util

  /** A room's `bounding_box` `[x_min, y_min, x_max, y_max]` in the 0-1000 frame. */
  datatype Box = Box(xMin: int, yMin: int, xMax: int, yMax: int)

  /** The box lies in the 0-1000 frame with its corners in order (not necessarily strictly). */
  predicate WellFormed(b: Box)
  {
    0 <= b.xMin <= b.xMax <= 1000 && 0 <= b.yMin <= b.yMax <= 1000
  }

  /** `(x2 - x1) * (y2 - y1)`: the area the ranker computes from a box. */
  function BoxArea(b: Box): int
  {
    (b.xMax - b.xMin) * (b.yMax - b.yMin)
  }

  /** The corners `inter_x1, inter_y1, inter_x2, inter_y2` the ranker computes for a room and a kept box. */
  function Intersection(room: Box, existing: Box): Box
  {
    Box(Max(room.xMin, existing.xMin), Max(room.yMin, existing.yMin),
        Min(room.xMax, existing.xMax), Min(room.yMax, existing.yMax))
  }

  /** The guard `inter_x1 < inter_x2 and inter_y1 < inter_y2`. */
  predicate Intersects(room: Box, existing: Box)
  {
    var i := Intersection(room, existing);
    i.xMin < i.xMax && i.yMin < i.yMax
  }

  /**
   * `inter_area`, defined only behind the guard. Under the guard the
   * intersection is a positive area that fits inside both boxes, so the
   * room's own area, the divisor of the 70% test, is never zero.
   */
  function InterArea(room: Box, existing: Box): (a: int)
    requires Intersects(room, existing)
    ensures 0 < a <= BoxArea(room)
    ensures a <= BoxArea(existing)
    ensures 0 < BoxArea(room) && 0 < BoxArea(existing)
  {
    var i := Intersection(room, existing);
    MulMonotone(i.xMax - i.xMin, i.yMax - i.yMin, room.xMax - room.xMin, room.yMax - room.yMin);
    MulMonotone(i.xMax - i.xMin, i.yMax - i.yMin, existing.xMax - existing.xMin, existing.yMax - existing.yMin);
    BoxArea(i)
  }

  /**
   * `room` duplicates an already kept box `existing`: they intersect and
   * the intersection covers more than 70% of `room`'s own box.  The test
   * `inter_area / room_area > 0.7` is stated over integers.
   */
  predicate Duplicate(room: Box, existing: Box)
  {
    Intersects(room, existing) && 10 * InterArea(room, existing) > 7 * BoxArea(room)
  }

  /**
   * The integer test is the ratio test of `filter_and_rank_rooms` read over
   * exact rationals:
   * a room is a duplicate exactly when the covered fraction of its own box
   * exceeds 0.7.
   */
  lemma DuplicateIsSeventyPercent(room: Box, existing: Box)
    requires Intersects(room, existing)
    ensures Duplicate(room, existing) <==>
            (InterArea(room, existing) as real) / (BoxArea(room) as real) > 0.7
  {
    RatioAboveSeventyPercent(InterArea(room, existing), BoxArea(room));
  }

  lemma RatioAboveSeventyPercent(n: int, d: int)
    requires d > 0
    ensures 10 * n > 7 * d <==> (n as real) / (d as real) > 0.7
  {
    var nr, dr := n as real, d as real;
    QuotientAbove(nr, dr, 0.7);
    assert (10 * n) as real == 10.0 * nr;
    assert (7 * d) as real == 7.0 * dr;
  }

  lemma QuotientAbove(x: real, y: real, c: real)
    requires y > 0.0
    ensures x / y > c <==> x > c * y
  {
    var q := x / y;
    assert x == q * y;
    assert q * y - c * y == (q - c) * y;
  }

  /**
   * The test is not symmetric: a small box inside a large kept box is a
   * duplicate of it, while the large box is not a duplicate of the small one.
   */
  lemma DuplicateIsOneSided()
    ensures Duplicate(Box(10, 10, 20, 20), Box(0, 0, 100, 100))
    ensures !Duplicate(Box(0, 0, 100, 100), Box(10, 10, 20, 20))
  {
  }
}
