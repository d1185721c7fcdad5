/**
 * `detect_rooms` of python-vision-service/app.py with the image download,
 * preprocessing and contour tracing taken as given: the option defaults,
 * then candidate filter, ranker and formatter in sequence.
 */
module Pipeline {
  import opened Util
  import opened Geometry
  import opened Contours
  import opened Ranking
  import opened Formatting

  /** The request's `options` object; an absent key is `None`. */
  datatype Options = Options(minArea: Option<int>, maxRooms: Option<int>)

  const DefaultMinArea: int := 1000
  const DefaultMaxRooms: int := 20

  /** `options.get('min_area', 1000)`. */
  function MinArea(options: Options): int
  {
    GetOr(options.minArea, DefaultMinArea)
  }

  /** `options.get('max_rooms', 20)`. */
  function MaxRooms(options: Options): int
  {
    GetOr(options.maxRooms, DefaultMaxRooms)
  }

  /** The ranked rooms, before formatting; `max_area` is never passed, so it takes its default. */
  function FilteredRooms(contours: seq<Contour>, height: nat, width: nat, options: Options): seq<Room>
    requires height > 0 && width > 0
  {
    Ranked(Candidates(contours, height, width, MinArea(options), DefaultMaxArea(height, width)), MaxRooms(options))
  }

  /** The list `detect_rooms` returns. */
  function Detection(contours: seq<Contour>, height: nat, width: nat, options: Options): seq<DetectedRoom>
    requires height > 0 && width > 0
  {
    Formatted(FilteredRooms(contours, height, width, options))
  }

  /** `detect_rooms` after the traced contours of the binary image are known. */
  method DetectRooms(contours: seq<Contour>, height: nat, width: nat, options: Options)
    returns (result: seq<DetectedRoom>)
    requires height > 0 && width > 0
    ensures result == Detection(contours, height, width, options)
  {
    var minArea := match options.minArea case Some(a) => a case None => DefaultMinArea;
    var maxRooms := match options.maxRooms case Some(m) => m case None => DefaultMaxRooms;
    var rooms := FindRoomsFromContours(contours, height, width, minArea, None);
    var filtered := FilterAndRankRooms(rooms, maxRooms);
    result := FormatRooms(filtered);
  }

  /** Every ranked room is one of the candidates the filter produced. */
  lemma FilteredAreCandidates(contours: seq<Contour>, height: nat, width: nat, options: Options)
    requires height > 0 && width > 0
    ensures forall r :: r in FilteredRooms(contours, height, width, options) ==>
              r in Candidates(contours, height, width, MinArea(options), DefaultMaxArea(height, width))
  {
    var candidates := Candidates(contours, height, width, MinArea(options), DefaultMaxArea(height, width));
    var filtered := FilteredRooms(contours, height, width, options);
    RankedOrderedSubsequence(candidates, MaxRooms(options));
    forall r | r in filtered
      ensures r in candidates
    {
      assert r in multiset(filtered);
    }
  }

  /**
   * A response holds one entry per ranked room and at most `max_rooms`
   * of them (20 by default); a cap of zero or less still returns one
   * entry when some contour survives the filter.
   */
  lemma DetectionSize(contours: seq<Contour>, height: nat, width: nat, options: Options)
    requires height > 0 && width > 0
    ensures |Detection(contours, height, width, options)| == |FilteredRooms(contours, height, width, options)|
    ensures |Detection(contours, height, width, options)| <= Max(MaxRooms(options), 1)
    ensures options.maxRooms == None ==> |Detection(contours, height, width, options)| <= 20
  {
    var candidates := Candidates(contours, height, width, MinArea(options), DefaultMaxArea(height, width));
    RankedSizeCap(candidates, MaxRooms(options));
  }

  /**
   * Every ranked room has an area between `min_area` (1000 by default)
   * and a quarter of the image and a confidence between 0.5 and 1.0;
   * when the contours lie in the image, every returned box lies in the
   * 0-1000 frame.
   */
  lemma DetectionRoomsValid(contours: seq<Contour>, height: nat, width: nat, options: Options)
    requires height > 0 && width > 0
    ensures forall r :: r in FilteredRooms(contours, height, width, options) ==>
              MinArea(options) <= r.area <= DefaultMaxArea(height, width) && 5 <= r.confidence <= 10
    ensures options.minArea == None ==>
              forall r :: r in FilteredRooms(contours, height, width, options) ==> r.area >= 1000
    ensures (forall c :: c in contours ==> InImage(c, height, width)) ==>
              forall r :: r in FilteredRooms(contours, height, width, options) ==> WellFormed(r.box)
  {
    var minArea, maxArea := MinArea(options), DefaultMaxArea(height, width);
    CandidatesSound(contours, height, width, minArea, maxArea);
    FilteredAreCandidates(contours, height, width, options);
    if forall c :: c in contours ==> InImage(c, height, width) {
      CandidatesWellFormed(contours, height, width, minArea, maxArea);
    }
  }

  /**
   * Entry `k` of a response is the `k`-th ranked room with its box and
   * confidence unchanged, numbered `k + 1` in its id and its name
   * hint; no two entries share an id.
   */
  lemma DetectionEntries(contours: seq<Contour>, height: nat, width: nat, options: Options)
    requires height > 0 && width > 0
    ensures forall k :: 0 <= k < |Detection(contours, height, width, options)| ==>
              Detection(contours, height, width, options)[k].box == FilteredRooms(contours, height, width, options)[k].box &&
              Detection(contours, height, width, options)[k].confidence == FilteredRooms(contours, height, width, options)[k].confidence &&
              ParseNumbered("room_", Detection(contours, height, width, options)[k].id) == Some(k + 1) &&
              ParseNumbered("Room ", Detection(contours, height, width, options)[k].nameHint) == Some(k + 1)
    ensures forall i, j :: 0 <= i < j < |Detection(contours, height, width, options)| ==>
              Detection(contours, height, width, options)[i].id != Detection(contours, height, width, options)[j].id
  {
    FormattedEntries(FilteredRooms(contours, height, width, options));
  }
}
