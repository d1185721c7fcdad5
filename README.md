# Blueprint room selection, modelled in Dafny

This project models the room-selection logic of the blueprint vision
service (`python-vision-service/app.py`): everything in `detect_rooms` that
follows the OpenCV calls. Each traced contour arrives as its area, its
bounding rectangle and the corner count of its polygon approximation. The
model then covers three steps:

- the candidate filter `find_rooms_from_contours`: area bounds, aspect
  guard, corner-count confidence and rescaling to the 0-1000 frame;
- the ranker `filter_and_rank_rooms`: a stable sort by
  `(confidence, area)` in descending order, a greedy drop of rooms more
  than 70% covered by an already kept box, and the `max_rooms` cap;
- the formatter loop of `detect_rooms`: `room_NNN` ids, `Room N` name
  hints and the option defaults (`min_area` 1000, `max_rooms` 20).

Modules, one per component, each in its own file:

| file | module | contents |
|---|---|---|
| util.dfy | `Util` | `Option`, Python's `min`, `max`, `abs` |
| geometry.dfy | `Geometry` | boxes, intersection, the 70% duplicate test |
| contours.dfy | `Contours` | contour and room records, confidence, rescaling, the filter loop |
| ranking.dfy | `Ranking` | stable sort, greedy de-overlap with cap, subsequence facts |
| formatting.dfy | `Formatting` | `str`, `zfill`, ids and name hints, the output loop |
| pipeline.dfy | `Pipeline` | option defaults and the composed `detect_rooms` |

Representation choices:

- The filter, ranker and output loops are methods with `while` loops over
  sequence accumulators. Each is proved equal to a pure
  function: `Candidates` and `Ranked` are recursive, and `Formatted` is a
  sequence comprehension. The lemmas about those functions carry the
  properties.
- The contour area is an input of type `twiceArea: nat`, the area doubled.
  `cv2.contourArea` of a polygon with integer vertices is a multiple of
  one half, so the guard `area < min_area or area > max_area` is exact as
  `2*min_area <= twiceArea <= 2*max_area`. The stored `int(area)` is
  `twiceArea / 2`.
- Confidence is in integer tenths: `min(10, max(5, 10 - |corners - 4|))`.
  Because the result is in tenths, `round(confidence, 2)` changes nothing.
- Rescaling `int(v / extent * 1000)` for non-negative `v` is the exact
  floor `(v * 1000) / extent`.
- The aspect guard `max(w,h) / min(w,h) > 10` is `max(w,h) > 10*min(w,h)`
  when `min(w,h) > 0`. A zero side gives ratio 0 and passes.
- The duplicate test `inter_area / room_area > 0.7` is
  `10*inter_area > 7*room_area`. `DuplicateIsSeventyPercent` proves that
  this equals the ratio test over exact reals.
- Python's stable `sorted(..., reverse=True)` is a stable insertion sort
  (`SortByRank`). It is pinned down by three lemmas: permutation,
  descending order, and per-key stability.

Facts about `app.py` that the model keeps:

- confidence comes from the corner count of the polygon approximation;
- there is no minimum-confidence filter;
- the sort key is `(confidence, area)`, descending;
- a room is dropped when more than 70% of its own box is covered by a
  box kept before it;
- the default `max_area` is `(H*W)//4`;
- floor scaling can give a kept room a zero-width box, so the boxes
  satisfy `x_min <= x_max` but not always `x_min < x_max`
  (`Contours.DegenerateBoxKept`).

## Model

| member | source | states |
|---|---|---|
| `Geometry.BoxArea` | python-vision-service/app.py:190 | `room_area`: width times height of a box |
| `Geometry.Intersection` | python-vision-service/app.py:182-186 | the corners `inter_x1, inter_y1, inter_x2, inter_y2`: max of the lower corners, min of the upper corners |
| `Geometry.Intersects` | python-vision-service/app.py:188 | the guard `inter_x1 < inter_x2 and inter_y1 < inter_y2` |
| `Geometry.Duplicate` | python-vision-service/app.py:188-195 | a room is a duplicate of a kept box when they intersect and `10*inter_area > 7*room_area` |
| `Geometry.InterArea` | python-vision-service/app.py:183-190 | under the guard `inter_x1 < inter_x2 and inter_y1 < inter_y2` the intersection area is positive and at most each box's area, so the room area used as divisor is never zero |
| `Geometry.DuplicateIsSeventyPercent` | python-vision-service/app.py:188-195 | the integer test `10*inter > 7*room_area` holds exactly when `inter_area / room_area > 0.7` over exact reals |
| `Geometry.DuplicateIsOneSided` | python-vision-service/app.py:188-195 | the duplicate test measures only the candidate's own area: a small box inside a large kept box is a duplicate, the reverse is not |
| `Contours.DefaultMaxArea` | python-vision-service/app.py:112-114 | `max_area` when none is given: `(H*W)//4` |
| `Contours.AreaLimit` | python-vision-service/app.py:112-114 | `max_area` as used by the filter: the given value, else `(H*W)//4` |
| `Contours.AreaInRange` | python-vision-service/app.py:124-125 | the area guard `not (area < min_area or area > max_area)`, on the doubled area |
| `Contours.TooThin` | python-vision-service/app.py:131-133 | the aspect guard `aspect_ratio > 10`, with ratio 0 when a side is zero |
| `Contours.Kept` | python-vision-service/app.py:124-133 | a contour survives both `continue` guards |
| `Contours.NormalizedBox` | python-vision-service/app.py:142-146 | the bounding rectangle rescaled per axis to the 0-1000 frame |
| `Contours.ToRoom` | python-vision-service/app.py:148-153 | the dictionary appended for a kept contour: box, confidence, `int(area)`, corners |
| `Contours.Candidates` | python-vision-service/app.py:119-153 | the rooms of the kept contours, in contour order |
| `Contours.Confidence` | python-vision-service/app.py:139-140 | confidence lies in [0.5, 1.0], is 1.0 exactly for four corners, drops a tenth per corner of distance from four and is floored at 0.5 |
| `Contours.ConfidenceMonotone` | python-vision-service/app.py:140 | a corner count closer to four never gets a lower confidence |
| `Contours.Scale` | python-vision-service/app.py:143-146 | the rescaled coordinate is the floor of `v*1000/extent` and is at most 1000 for a coordinate inside the image |
| `Contours.ScaleMonotone` | python-vision-service/app.py:143-146 | rescaling preserves the order of coordinates |
| `Contours.NormalizedBoxWellFormed` | python-vision-service/app.py:142-146 | a rectangle inside the image gives `0 <= x_min <= x_max <= 1000` and `0 <= y_min <= y_max <= 1000` |
| `Contours.DegenerateBoxKept` | python-vision-service/app.py:143-146 | a contour of area 2401 with a 50 by 50 bounding rectangle passes both guards and still gets a zero-width box, so strict `x_min < x_max` is not guaranteed |
| `Contours.FindRoomsFromContours` | python-vision-service/app.py:100-156 | the filter loop returns exactly `Candidates`, the contours that pass both guards mapped to rooms in order, with `max_area` defaulting to `(H*W)//4` |
| `Contours.CandidatesSound` | python-vision-service/app.py:119-153 | every candidate comes from a contour with `min_area <= area <= max_area` and aspect ratio at most 10 (or a zero side), and carries confidence in [0.5, 1.0] and area in `[min_area, max_area]`; there are no more candidates than contours |
| `Contours.CandidatesComplete` | python-vision-service/app.py:119-153 | every contour that passes both guards yields a candidate |
| `Contours.ZeroSideNotThin` | python-vision-service/app.py:130-133 | a contour with a zero-length side is never rejected by the aspect guard, only by the area guard |
| `Contours.CandidatesWellFormed` | python-vision-service/app.py:142-153 | when all contours lie inside the image, every candidate box lies in the 0-1000 frame with ordered corners |
| `Ranking.SortByRank` | python-vision-service/app.py:166-171 | `sorted` by `(confidence, area)` with `reverse=True`, as a stable insertion sort |
| `Ranking.OverlapsAny` | python-vision-service/app.py:176-195 | the inner loop's `is_overlapping`: some kept box covers more than 70% of the room's box |
| `Ranking.Dedupe` | python-vision-service/app.py:174-201 | the greedy pass: append a room no kept box duplicates, stop once `max_rooms` are kept |
| `Ranking.Ranked` | python-vision-service/app.py:163-201 | `[]` for no rooms, else the greedy pass over the sorted rooms |
| `Ranking.SortByRankPermutation` | python-vision-service/app.py:166-171 | the sort neither adds, drops nor alters a room |
| `Ranking.SortByRankDescending` | python-vision-service/app.py:166-171 | the sorted rooms are in descending `(confidence, area)` tuple order |
| `Ranking.SortByRankStable` | python-vision-service/app.py:166-171 | rooms with equal `(confidence, area)` keep their input order |
| `Ranking.SortByRankOfDescending` | python-vision-service/app.py:166-171 | sorting a list already in descending key order leaves it unchanged |
| `Ranking.HasHeavyOverlap` | python-vision-service/app.py:176-195 | the inner loop reports overlap exactly when some kept box covers more than 70% of the room's box |
| `Ranking.FilterAndRankRooms` | python-vision-service/app.py:159-204 | the ranker returns exactly `Ranked`: `[]` for no rooms, else the greedy pass over the stably sorted rooms |
| `Ranking.RankedOrderedSubsequence` | python-vision-service/app.py:163-198 | the result is a subsequence of the stably sorted input, in descending key order, and holds no room the input lacks |
| `Ranking.RankedNoHeavyOverlap` | python-vision-service/app.py:174-198 | no kept room is more than 70% covered by any room kept before it |
| `Ranking.RankedSizeCap` | python-vision-service/app.py:163-201 | the result is empty iff the input is; with `max_rooms >= 1` it has at most `max_rooms` rooms; with `max_rooms <= 0` and non-empty input it has exactly one |
| `Ranking.RunningAt` | python-vision-service/app.py:175-201 | the pass has not yet hit the `max_rooms` cap when it reaches sorted position `k` |
| `Ranking.DedupePrefixLength` | python-vision-service/app.py:175-201 | the rooms kept over a prefix of the sorted list are never more than those kept over the whole list |
| `Ranking.DedupeDropsOnlyDuplicates` | python-vision-service/app.py:175-201 | every room the pass reaches before the cap and does not keep is more than 70% covered by a kept room from an earlier position |
| `Ranking.RankedDropsOnlyDuplicates` | python-vision-service/app.py:175-201 | each sorted room the pass reaches before the cap and drops is more than 70% covered by a kept room from an earlier sorted position; when the cap is never hit, every dropped input room duplicates a kept one |
| `Ranking.CapKeepsLeadingRooms` | python-vision-service/app.py:166-201 | with `max_rooms = 2`, three disjoint rooms keep the two highest ranked and the third is never reached |
| `Ranking.RankedKeepsBest` | python-vision-service/app.py:166-198 | for non-empty input the first sorted room is always kept, in front, and no input room outranks it |
| `Ranking.RankedIdempotent` | python-vision-service/app.py:159-204 | ranking the ranker's own output again returns it unchanged |
| `Formatting.RoomId` | python-vision-service/app.py:241 | `f'room_{str(n).zfill(3)}'` |
| `Formatting.NameHint` | python-vision-service/app.py:243 | `f'Room {n}'` |
| `Formatting.FormatRoom` | python-vision-service/app.py:240-245 | the dictionary for the room at index `i`: id and name hint numbered `i + 1`, its box and confidence |
| `Formatting.Formatted` | python-vision-service/app.py:238-245 | entry `i` of the response: id and name hint numbered `i + 1`, box and confidence of room `i` |
| `Formatting.Decimal` | python-vision-service/app.py:241 | `str(n)` is a non-empty string of digits whose first digit is 0 only for 0 |
| `Formatting.DecimalRoundTrip` | python-vision-service/app.py:241 | reading back the digits of `str(n)` gives `n` |
| `Formatting.ZFill` | python-vision-service/app.py:241 | `zfill(width)` has length `max(len, width)`, ends with the original string and is padded only with '0' |
| `Formatting.ZFillValue` | python-vision-service/app.py:241 | zero padding keeps the string a digit string denoting the same number |
| `Formatting.RoomIdRoundTrip` | python-vision-service/app.py:241 | `room_` followed by the zero-filled number reads back as that number, with at least three digits |
| `Formatting.RoomIdWidth` | python-vision-service/app.py:241 | ids for numbers up to 999 are exactly `room_` plus three digits |
| `Formatting.RoomIdInjective` | python-vision-service/app.py:241 | two ids are equal exactly when their numbers are |
| `Formatting.NameHintRoundTrip` | python-vision-service/app.py:243 | `Room N` reads back as `N` |
| `Formatting.NumberingExamples` | python-vision-service/app.py:241-243 | room 1 is `room_001`/`Room 1`, room 20 is `room_020`/`Room 20`, room 1000 is `room_1000` |
| `Formatting.FormatRooms` | python-vision-service/app.py:238-245 | the output loop builds exactly one entry per ranked room, in order |
| `Formatting.FormattedEntries` | python-vision-service/app.py:238-245 | entry `i` keeps its room's box and confidence, is numbered `i + 1` in id and name hint, and all ids are distinct |
| `Pipeline.MinArea` | python-vision-service/app.py:214 | `options.get('min_area', 1000)` |
| `Pipeline.MaxRooms` | python-vision-service/app.py:215 | `options.get('max_rooms', 20)` |
| `Pipeline.FilteredRooms` | python-vision-service/app.py:229-235 | the ranked candidates: contours filtered with `min_area` and the default `max_area`, then ranked with `max_rooms` |
| `Pipeline.Detection` | python-vision-service/app.py:229-248 | the `rooms` list of the response: the formatted ranked candidates |
| `Pipeline.DetectRooms` | python-vision-service/app.py:207-248 | the composed pipeline with defaults `min_area = 1000`, `max_rooms = 20` and the default `max_area` returns `Detection` |
| `Pipeline.FilteredAreCandidates` | python-vision-service/app.py:229-235 | every ranked room is one of the filter's candidates |
| `Pipeline.DetectionSize` | python-vision-service/app.py:214-245 | a response has one entry per ranked room and at most `max(max_rooms, 1)` entries, at most 20 when `max_rooms` is absent |
| `Pipeline.DetectionRoomsValid` | python-vision-service/app.py:214-235 | every returned room has area between `min_area` (1000 by default) and a quarter of the image and confidence in [0.5, 1.0]; boxes lie in the 0-1000 frame when contours lie in the image |
| `Pipeline.DetectionEntries` | python-vision-service/app.py:238-245 | each response entry carries its ranked room's box and confidence, has id and name hint that read back as its position plus one, and ids are distinct |

## Left out

- `download_image` (app.py:23-32): network fetch and image decoding; the contours are the pipeline's input instead.
- `preprocess_blueprint` (app.py:35-58): OpenCV grayscale, bilateral filter and adaptive threshold, which are pixel numerics in a foreign library.
- `detect_walls` (app.py:61-97): Hough transform in a foreign library plus floating-point angle classification. Its result is unused by `detect_rooms`.
- `cv2.findContours`, `contourArea`, `boundingRect`, `arcLength`, `approxPolyDP`: their results (doubled area, rectangle, corner count) are the fields of `Contour`. The bounding rectangle is assumed non-negative, as OpenCV returns it.
- Floating point: `int(x / W * 1000)`, `max(w,h) / min(w,h)`, the confidence formula and `inter_area / room_area > 0.7` are modelled over exact integers or rationals. A double rounding at an exact boundary is not captured.
- `round(confidence, 2)` and the JSON float: confidence is carried as integer tenths.
- An image with a zero dimension: the filter requires positive height and width, as OpenCV refuses empty images.
- Option values of a non-integer JSON type (float, string, null): `min_area` and `max_rooms` are integers or absent.
- Flask routes `/health` and `/detect-rooms` (app.py:251-305), CORS, logging and the server start: transport and plumbing.
