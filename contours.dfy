/**
 * The candidate filter of python-vision-service/app.py,
 * `find_rooms_from_contours`: the OpenCV primitives (contour tracing,
 * contour area, bounding rectangle, polygon approximation) are inputs, and
 * what remains is the area and aspect filter, the corner-count confidence
 * and the rescaling of each box to the 0-1000 frame.
 */
module Contours {
  import opened Util
  import opened Geometry

  /**
   * What OpenCV reports for one traced contour.  `cv2.contourArea` of a
   * polygon with integer vertices is a multiple of one half, so it is kept
   * doubled (`twiceArea`) to stay exact; `x, y, w, h` come from
   * `cv2.boundingRect` and `corners` is the vertex count of the
   * `cv2.approxPolyDP` approximation.
   */
  datatype Contour = Contour(twiceArea: nat, x: nat, y: nat, w: nat, h: nat, corners: nat)

  /**
   * A room candidate: the dictionary the filter appends.  `confidence` is
   * held in tenths (5 means 0.5), `area` is `int(area)` of the contour.
   */
  datatype Room = Room(box: Box, confidence: nat, area: nat, corners: nat)

  /** The bounding rectangle lies inside an image of the given size, as `cv2.boundingRect` guarantees. */
  predicate InImage(c: Contour, height: nat, width: nat)
  {
    c.x + c.w <= width && c.y + c.h <= height
  }

  /** `max_area` when the caller gives none: a quarter of the image, floored. */
  function DefaultMaxArea(height: nat, width: nat): nat
  {
    (height * width) / 4
  }

  /** The `max_area` the filter uses for an optional argument. */
  function AreaLimit(maxArea: Option<int>, height: nat, width: nat): int
  {
    GetOr(maxArea, DefaultMaxArea(height, width))
  }

  /** Not `area < min_area or area > max_area`, with the area doubled on both sides. */
  predicate AreaInRange(c: Contour, minArea: int, maxArea: int)
  {
    2 * minArea <= c.twiceArea <= 2 * maxArea
  }

  /**
   * `aspect_ratio > 10`, where the ratio is `max(w, h) / min(w, h)` and 0
   * when a side is zero; the division is replaced by a multiplication.
   */
  predicate TooThin(w: nat, h: nat)
  {
    Min(w, h) > 0 && Max(w, h) > 10 * Min(w, h)
  }

  /** The contour survives both `continue` guards of the filter loop. */
  predicate Kept(c: Contour, minArea: int, maxArea: int)
  {
    AreaInRange(c, minArea, maxArea) && !TooThin(c.w, c.h)
  }

  /**
   * Confidence in tenths from the corner count: 1.0 for a quadrilateral,
   * one tenth less per corner of distance from four, never below 0.5.
   */
  function Confidence(corners: nat): (c: nat)
    ensures 5 <= c <= 10
    ensures c == 10 <==> corners == 4
    ensures Abs(corners - 4) <= 5 ==> c + Abs(corners - 4) == 10
    ensures Abs(corners - 4) >= 5 ==> c == 5
  {
    Min(10, Max(5, 10 - Abs(corners - 4)))
  }

  /** A contour closer to four corners never gets a lower confidence. */
  lemma ConfidenceMonotone(a: nat, b: nat)
    requires Abs(a - 4) <= Abs(b - 4)
    ensures Confidence(a) >= Confidence(b)
  {
  }

  /**
   * `int(v / extent * 1000)` for a non-negative coordinate, read over exact
   * rationals: the floor of `v * 1000 / extent`.
   */
  function Scale(v: nat, extent: nat): (r: nat)
    requires extent > 0
    ensures r * extent <= v * 1000 < (r + 1) * extent
    ensures v <= extent ==> r <= 1000
  {
    var r := (v * 1000) / extent;
    ScaleBound(v, extent, r);
    r
  }

  lemma ScaleBound(v: nat, extent: nat, r: int)
    requires extent > 0 && r == (v * 1000) / extent
    ensures r * extent <= v * 1000 < (r + 1) * extent
    ensures v <= extent ==> r <= 1000
  {
    var n := v * 1000;
    var m := n % extent;
    assert n == extent * r + m && 0 <= m < extent;
    assert (r + 1) * extent == r * extent + extent;
    if v <= extent && r > 1000 {
      MulMonotone(1001, extent, r, extent);
      MulMonotone(v, 1000, extent, 1000);
      assert false;
    }
  }

  /** Rescaling keeps the order of coordinates. */
  lemma ScaleMonotone(a: nat, b: nat, extent: nat)
    requires extent > 0 && a <= b
    ensures Scale(a, extent) <= Scale(b, extent)
  {
  }

  /** The bounding rectangle rescaled to the 0-1000 frame per axis. */
  function NormalizedBox(c: Contour, height: nat, width: nat): Box
    requires height > 0 && width > 0
  {
    Box(Scale(c.x, width), Scale(c.y, height), Scale(c.x + c.w, width), Scale(c.y + c.h, height))
  }

  /**
   * A rectangle inside the image lands inside the 0-1000 frame with its
   * corners in order; equal corners remain possible (see
   * `DegenerateBoxKept`).
   */
  lemma NormalizedBoxWellFormed(c: Contour, height: nat, width: nat)
    requires height > 0 && width > 0 && InImage(c, height, width)
    ensures WellFormed(NormalizedBox(c, height, width))
  {
    ScaleMonotone(c.x, c.x + c.w, width);
    ScaleMonotone(c.y, c.y + c.h, height);
  }

  /**
   * A kept contour can still yield a box of zero width: a contour of area
   * 2401 with a 50 by 50 bounding rectangle at the left edge of a 100000 by
   * 100000 image passes both guards and both its x corners rescale to 0.
   */
  lemma DegenerateBoxKept()
    ensures var c := Contour(4802, 0, 0, 50, 50, 4);
            Kept(c, 1000, DefaultMaxArea(100000, 100000)) &&
            NormalizedBox(c, 100000, 100000).xMin == NormalizedBox(c, 100000, 100000).xMax
  {
  }

  /** The dictionary built for a kept contour. */
  function ToRoom(c: Contour, height: nat, width: nat): Room
    requires height > 0 && width > 0
  {
    Room(NormalizedBox(c, height, width), Confidence(c.corners), c.twiceArea / 2, c.corners)
  }

  /** The rooms the filter loop produces for `contours`, in contour order. */
  function Candidates(contours: seq<Contour>, height: nat, width: nat, minArea: int, maxArea: int): seq<Room>
    requires height > 0 && width > 0
  {
    if contours == [] then []
    else
      var last := contours[|contours| - 1];
      Candidates(contours[..|contours| - 1], height, width, minArea, maxArea) +
      (if Kept(last, minArea, maxArea) then [ToRoom(last, height, width)] else [])
  }

  /**
   * The filter loop of `find_rooms_from_contours`, with `max_area`
   * defaulting to a quarter of the image.
   */
  method FindRoomsFromContours(contours: seq<Contour>, height: nat, width: nat, minArea: int, maxArea: Option<int>)
    returns (rooms: seq<Room>)
    requires height > 0 && width > 0
    ensures rooms == Candidates(contours, height, width, minArea, AreaLimit(maxArea, height, width))
  {
    var limit := match maxArea case Some(a) => a case None => (height * width) / 4;
    rooms := [];
    var i := 0;
    while i < |contours|
      invariant 0 <= i <= |contours|
      invariant rooms == Candidates(contours[..i], height, width, minArea, limit)
    {
      var c := contours[i];
      assert contours[..i + 1][..i] == contours[..i];
      if c.twiceArea < 2 * minArea || c.twiceArea > 2 * limit {
        i := i + 1;
        continue;
      }
      var aspectTooLarge := if Min(c.w, c.h) > 0 then Max(c.w, c.h) > 10 * Min(c.w, c.h) else false;
      if aspectTooLarge {
        i := i + 1;
        continue;
      }
      var confidence := Min(10, Max(5, 10 - Abs(c.corners - 4)));
      var box := Box((c.x * 1000) / width, (c.y * 1000) / height,
                     ((c.x + c.w) * 1000) / width, ((c.y + c.h) * 1000) / height);
      rooms := rooms + [Room(box, confidence, c.twiceArea / 2, c.corners)];
      i := i + 1;
    }
    assert contours[..i] == contours;
  }

  /**
   * Every candidate comes from a contour that passed both guards: its area
   * lies in `[minArea, maxArea]`, its aspect ratio is at most 10 (or a side
   * is zero), and the room carries that contour's confidence, area and box.
   */
  lemma {:induction false} CandidatesSound(contours: seq<Contour>, height: nat, width: nat, minArea: int, maxArea: int)
    requires height > 0 && width > 0
    ensures |Candidates(contours, height, width, minArea, maxArea)| <= |contours|
    ensures forall r :: r in Candidates(contours, height, width, minArea, maxArea) ==>
              exists c :: c in contours && Kept(c, minArea, maxArea) && r == ToRoom(c, height, width)
    ensures forall r :: r in Candidates(contours, height, width, minArea, maxArea) ==>
              minArea <= r.area <= maxArea && 5 <= r.confidence <= 10
  {
    if contours != [] {
      var init := contours[..|contours| - 1];
      CandidatesSound(init, height, width, minArea, maxArea);
      assert forall c :: c in init ==> c in contours;
    }
  }

  /** Every contour that passes both guards yields a candidate. */
  lemma {:induction false} CandidatesComplete(contours: seq<Contour>, height: nat, width: nat, minArea: int, maxArea: int)
    requires height > 0 && width > 0
    ensures forall c :: c in contours && Kept(c, minArea, maxArea) ==>
              ToRoom(c, height, width) in Candidates(contours, height, width, minArea, maxArea)
  {
    if contours != [] {
      var init := contours[..|contours| - 1];
      CandidatesComplete(init, height, width, minArea, maxArea);
      assert contours == init + [contours[|contours| - 1]];
    }
  }

  /** A contour with a zero side is never rejected as too thin. */
  lemma ZeroSideNotThin(c: Contour, minArea: int, maxArea: int)
    requires c.w == 0 || c.h == 0
    ensures Kept(c, minArea, maxArea) <==> AreaInRange(c, minArea, maxArea)
  {
  }

  /** Contours inside the image give candidates whose boxes lie in the 0-1000 frame. */
  lemma CandidatesWellFormed(contours: seq<Contour>, height: nat, width: nat, minArea: int, maxArea: int)
    requires height > 0 && width > 0
    requires forall c :: c in contours ==> InImage(c, height, width)
    ensures forall r :: r in Candidates(contours, height, width, minArea, maxArea) ==> WellFormed(r.box)
  {
    CandidatesSound(contours, height, width, minArea, maxArea);
    forall c | c in contours
      ensures WellFormed(ToRoom(c, height, width).box)
    {
      NormalizedBoxWellFormed(c, height, width);
    }
  }
}
