/**
 * The ranker of python-vision-service/app.py, `filter_and_rank_rooms`:
 * a stable sort by `(confidence, area)` in descending order, then a greedy
 * pass that drops every room whose box is more than 70% covered by an
 * already kept box, stopping once `max_rooms` rooms are kept.
 */
module Ranking {
  import opened Util
  import opened Geometry
  import opened Contours

  /** `a` sorts strictly before `b`: its key `(confidence, area)` is larger in tuple order. */
  predicate Outranks(a: Room, b: Room)
  {
    a.confidence > b.confidence || (a.confidence == b.confidence && a.area > b.area)
  }

  /** No room is outranked by a room that comes after it. */
  predicate Descending(s: seq<Room>)
  {
    forall i, j :: 0 <= i < j < |s| ==> !Outranks(s[j], s[i])
  }

  /**
   * Inserts `x` in front of the first room it is not outranked by, so that
   * it stays ahead of the rooms with the same key.
   */
  function Insert(x: Room, s: seq<Room>): seq<Room>
  {
    if s == [] then [x]
    else if Outranks(s[0], x) then [s[0]] + Insert(x, s[1..])
    else [x] + s
  }

  /** `sorted(rooms, key=lambda r: (r['confidence'], r['area']), reverse=True)`. */
  function SortByRank(s: seq<Room>): seq<Room>
  {
    if s == [] then [] else Insert(s[0], SortByRank(s[1..]))
  }

  /** The rooms of `s` whose key is `(confidence, area)`, in their order in `s`. */
  function WithKey(s: seq<Room>, confidence: nat, area: nat): seq<Room>
  {
    if s == [] then []
    else (if s[0].confidence == confidence && s[0].area == area then [s[0]] else []) + WithKey(s[1..], confidence, area)
  }

  lemma {:induction false} InsertMultiset(x: Room, s: seq<Room>)
    ensures multiset(Insert(x, s)) == multiset(s) + multiset{x}
  {
    if s != [] && Outranks(s[0], x) {
      InsertMultiset(x, s[1..]);
      assert s == [s[0]] + s[1..];
    }
  }

  lemma {:induction false} InsertDescending(x: Room, s: seq<Room>)
    requires Descending(s)
    ensures Descending(Insert(x, s))
  {
    if s != [] && Outranks(s[0], x) {
      var t := Insert(x, s[1..]);
      InsertDescending(x, s[1..]);
      InsertMultiset(x, s[1..]);
      forall j | 0 <= j < |t|
        ensures !Outranks(t[j], s[0])
      {
        assert t[j] in multiset(t);
        assert t[j] == x || t[j] in s[1..];
      }
    }
  }

  lemma {:induction false} InsertWithKey(x: Room, s: seq<Room>, confidence: nat, area: nat)
    ensures WithKey(Insert(x, s), confidence, area) ==
            (if x.confidence == confidence && x.area == area then [x] else []) + WithKey(s, confidence, area)
  {
    if s != [] && Outranks(s[0], x) {
      InsertWithKey(x, s[1..], confidence, area);
      assert ([s[0]] + Insert(x, s[1..]))[1..] == Insert(x, s[1..]);
    } else if s != [] {
      assert ([x] + s)[1..] == s;
    }
  }

  /** The sort only reorders: it neither adds nor drops nor alters a room. */
  lemma {:induction false} SortByRankPermutation(s: seq<Room>)
    ensures multiset(SortByRank(s)) == multiset(s)
    ensures |SortByRank(s)| == |s|
  {
    if s != [] {
      SortByRankPermutation(s[1..]);
      InsertMultiset(s[0], SortByRank(s[1..]));
      assert s == [s[0]] + s[1..];
    }
  }

  /** The sort puts the rooms in descending `(confidence, area)` order. */
  lemma {:induction false} SortByRankDescending(s: seq<Room>)
    ensures Descending(SortByRank(s))
  {
    if s != [] {
      SortByRankDescending(s[1..]);
      InsertDescending(s[0], SortByRank(s[1..]));
    }
  }

  /** The sort is stable: rooms with equal keys keep their input order. */
  lemma {:induction false} SortByRankStable(s: seq<Room>, confidence: nat, area: nat)
    ensures WithKey(SortByRank(s), confidence, area) == WithKey(s, confidence, area)
  {
    if s != [] {
      SortByRankStable(s[1..], confidence, area);
      InsertWithKey(s[0], SortByRank(s[1..]), confidence, area);
    }
  }

  /** Sorting an already descending list leaves it as it is. */
  lemma {:induction false} SortByRankOfDescending(s: seq<Room>)
    requires Descending(s)
    ensures SortByRank(s) == s
  {
    if s != [] {
      assert Descending(s[1..]);
      SortByRankOfDescending(s[1..]);
      if |s| > 1 {
        assert !Outranks(s[1], s[0]);
        assert s == [s[0]] + s[1..];
      }
    }
  }

  /** `room` is more than 70% covered by some box in `kept` (the inner loop sets `is_overlapping`). */
  predicate OverlapsAny(room: Room, kept: seq<Room>)
  {
    exists j :: 0 <= j < |kept| && Duplicate(room.box, kept[j].box)
  }

  /** No kept room duplicates a room kept before it. */
  predicate NoHeavyOverlap(kept: seq<Room>)
  {
    forall i, j :: 0 <= i < j < |kept| ==> !Duplicate(kept[j].box, kept[i].box)
  }

  /**
   * The greedy pass over the sorted rooms `rest` with `acc` kept so far:
   * a room that overlaps nothing kept is appended, and the pass stops as
   * soon as `maxRooms` rooms are kept, whether or not the room was taken.
   */
  function Dedupe(rest: seq<Room>, acc: seq<Room>, maxRooms: int): seq<Room>
    decreases |rest|
  {
    if rest == [] then acc
    else
      var acc' := if OverlapsAny(rest[0], acc) then acc else acc + [rest[0]];
      if |acc'| >= maxRooms then acc' else Dedupe(rest[1..], acc', maxRooms)
  }

  /** The value `filter_and_rank_rooms(rooms, max_rooms)` returns. */
  function Ranked(rooms: seq<Room>, maxRooms: int): seq<Room>
  {
    if rooms == [] then [] else Dedupe(SortByRank(rooms), [], maxRooms)
  }

  /** The inner loop: scans the kept rooms and stops at the first one `room` duplicates. */
  method HasHeavyOverlap(room: Room, kept: seq<Room>) returns (overlapping: bool)
    ensures overlapping <==> exists j :: 0 <= j < |kept| && Duplicate(room.box, kept[j].box)
  {
    overlapping := false;
    var x1, y1, x2, y2 := room.box.xMin, room.box.yMin, room.box.xMax, room.box.yMax;
    var k := 0;
    while k < |kept|
      invariant 0 <= k <= |kept|
      invariant forall j :: 0 <= j < k ==> !Duplicate(room.box, kept[j].box)
    {
      var existing := kept[k].box;
      var interX1 := Max(x1, existing.xMin);
      var interY1 := Max(y1, existing.yMin);
      var interX2 := Min(x2, existing.xMax);
      var interY2 := Min(y2, existing.yMax);
      if interX1 < interX2 && interY1 < interY2 {
        var interArea := (interX2 - interX1) * (interY2 - interY1);
        var roomArea := (x2 - x1) * (y2 - y1);
        if 10 * interArea > 7 * roomArea {
          overlapping := true;
          return;
        }
      }
      k := k + 1;
    }
  }

  /** `filter_and_rank_rooms`: sort, then the greedy loop with its cap. */
  method FilterAndRankRooms(rooms: seq<Room>, maxRooms: int) returns (kept: seq<Room>)
    ensures kept == Ranked(rooms, maxRooms)
  {
    if rooms == [] {
      return [];
    }
    var sorted := SortByRank(rooms);
    kept := [];
    var i := 0;
    while i < |sorted|
      invariant 0 <= i <= |sorted|
      invariant Dedupe(sorted[i..], kept, maxRooms) == Ranked(rooms, maxRooms)
    {
      var room := sorted[i];
      assert sorted[i..][1..] == sorted[i + 1..];
      var overlapping := HasHeavyOverlap(room, kept);
      if !overlapping {
        kept := kept + [room];
      }
      if |kept| >= maxRooms {
        return;
      }
      i := i + 1;
    }
  }

  /** Subsequence: `a` is `b` with some elements left out and none altered or moved. */
  predicate IsSubseq(a: seq<Room>, b: seq<Room>)
    decreases |b|
  {
    if a == [] then true
    else if b == [] then false
    else (a[|a| - 1] == b[|b| - 1] && IsSubseq(a[..|a| - 1], b[..|b| - 1])) || IsSubseq(a, b[..|b| - 1])
  }

  lemma SubseqAppend(a: seq<Room>, b: seq<Room>, x: Room)
    requires IsSubseq(a, b)
    ensures IsSubseq(a + [x], b + [x])
    ensures IsSubseq(a, b + [x])
  {
    assert (a + [x])[..|a|] == a;
    assert (b + [x])[..|b|] == b;
  }

  lemma {:induction false} SubseqExtend(a: seq<Room>, b: seq<Room>, c: seq<Room>)
    requires IsSubseq(a, b)
    ensures IsSubseq(a, b + c)
    decreases |c|
  {
    if c == [] {
      assert b + c == b;
    } else {
      var c' := c[..|c| - 1];
      SubseqExtend(a, b, c');
      SubseqAppend(a, b + c', c[|c| - 1]);
      assert b + c == (b + c') + [c[|c| - 1]];
    }
  }

  /** A subsequence holds no room more often than the sequence it is taken from. */
  lemma {:induction false} SubseqMultiset(a: seq<Room>, b: seq<Room>)
    requires IsSubseq(a, b)
    ensures multiset(a) <= multiset(b)
    decreases |b|
  {
    if a != [] {
      var a', b' := a[..|a| - 1], b[..|b| - 1];
      assert a == a' + [a[|a| - 1]];
      assert b == b' + [b[|b| - 1]];
      if a[|a| - 1] == b[|b| - 1] && IsSubseq(a', b') {
        SubseqMultiset(a', b');
      } else {
        SubseqMultiset(a, b');
      }
    }
  }

  /** A subsequence of a descending list is descending. */
  lemma {:induction false} SubseqDescending(a: seq<Room>, b: seq<Room>)
    requires IsSubseq(a, b) && Descending(b)
    ensures Descending(a)
    decreases |b|
  {
    if a != [] {
      var a', b' := a[..|a| - 1], b[..|b| - 1];
      assert Descending(b');
      if a[|a| - 1] == b[|b| - 1] && IsSubseq(a', b') {
        SubseqDescending(a', b');
        SubseqMultiset(a', b');
        forall i, j | 0 <= i < j < |a|
          ensures !Outranks(a[j], a[i])
        {
          if j == |a| - 1 {
            assert a[i] in multiset(a');
            var k :| 0 <= k < |b'| && b'[k] == a[i];
          } else {
            assert a[i] == a'[i] && a[j] == a'[j];
          }
        }
      } else {
        SubseqDescending(a, b');
      }
    }
  }

  lemma {:induction false} DedupeSubseq(prefix: seq<Room>, rest: seq<Room>, acc: seq<Room>, maxRooms: int)
    requires IsSubseq(acc, prefix)
    ensures IsSubseq(Dedupe(rest, acc, maxRooms), prefix + rest)
    decreases |rest|
  {
    if rest == [] {
      assert prefix + rest == prefix;
    } else {
      var acc' := if OverlapsAny(rest[0], acc) then acc else acc + [rest[0]];
      SubseqAppend(acc, prefix, rest[0]);
      assert IsSubseq(acc', prefix + [rest[0]]);
      assert prefix + rest == (prefix + [rest[0]]) + rest[1..];
      if |acc'| >= maxRooms {
        SubseqExtend(acc', prefix + [rest[0]], rest[1..]);
      } else {
        DedupeSubseq(prefix + [rest[0]], rest[1..], acc', maxRooms);
      }
    }
  }

  lemma {:induction false} DedupeNoHeavyOverlap(rest: seq<Room>, acc: seq<Room>, maxRooms: int)
    requires NoHeavyOverlap(acc)
    ensures NoHeavyOverlap(Dedupe(rest, acc, maxRooms))
    decreases |rest|
  {
    if rest != [] {
      var acc' := if OverlapsAny(rest[0], acc) then acc else acc + [rest[0]];
      assert NoHeavyOverlap(acc');
      if |acc'| < maxRooms {
        DedupeNoHeavyOverlap(rest[1..], acc', maxRooms);
      }
    }
  }

  lemma {:induction false} DedupeCap(rest: seq<Room>, acc: seq<Room>, maxRooms: int)
    requires |acc| < maxRooms || acc == []
    ensures |Dedupe(rest, acc, maxRooms)| <= Max(maxRooms, 1)
    decreases |rest|
  {
    if rest != [] {
      var acc' := if OverlapsAny(rest[0], acc) then acc else acc + [rest[0]];
      if |acc'| < maxRooms {
        DedupeCap(rest[1..], acc', maxRooms);
      }
    }
  }

  lemma {:induction false} DedupeExtends(rest: seq<Room>, acc: seq<Room>, maxRooms: int)
    ensures |acc| <= |Dedupe(rest, acc, maxRooms)|
    ensures Dedupe(rest, acc, maxRooms)[..|acc|] == acc
    decreases |rest|
  {
    if rest != [] {
      var acc' := if OverlapsAny(rest[0], acc) then acc else acc + [rest[0]];
      if |acc'| < maxRooms {
        DedupeExtends(rest[1..], acc', maxRooms);
        assert acc'[..|acc|] == acc;
      } else {
        assert acc'[..|acc|] == acc;
      }
    }
  }

  /** Some room of `kept` that also occurs in `earlier` covers more than 70% of `x`'s box. */
  predicate CoveredByEarlier(x: Room, kept: seq<Room>, earlier: seq<Room>)
  {
    exists j :: 0 <= j < |kept| && Duplicate(x.box, kept[j].box) && kept[j] in earlier
  }

  lemma CoveredByWider(x: Room, kept: seq<Room>, earlier: seq<Room>, wider: seq<Room>)
    ensures CoveredByEarlier(x, kept, earlier) && (forall y :: y in earlier ==> y in wider) ==>
              CoveredByEarlier(x, kept, wider)
  {
  }

  /**
   * The pass over `rest` has not stopped within its first `k` rooms: the
   * pass over that prefix alone ends below the cap.
   */
  predicate RunningAt(rest: seq<Room>, acc: seq<Room>, maxRooms: int, k: nat)
    requires k <= |rest|
  {
    |Dedupe(rest[..k], acc, maxRooms)| < Max(maxRooms, 1)
  }

  /**
   * A room the pass reaches before the cap stops it is dropped only
   * because a room kept ahead of it (from `acc` or from an earlier
   * position of `rest`) covers more than 70% of its box.
   */
  lemma {:induction false} DedupeDropsOnlyDuplicates(rest: seq<Room>, acc: seq<Room>, maxRooms: int)
    requires |acc| < maxRooms || acc == []
    ensures forall k ::
              (0 <= k < |rest| && RunningAt(rest, acc, maxRooms, k) && rest[k] !in Dedupe(rest, acc, maxRooms)) ==>
                CoveredByEarlier(rest[k], Dedupe(rest, acc, maxRooms), acc + rest[..k])
    decreases |rest|
  {
    var r := Dedupe(rest, acc, maxRooms);
    if rest != [] {
      var acc' := if OverlapsAny(rest[0], acc) then acc else acc + [rest[0]];
      if |acc'| >= maxRooms {
        assert r == acc';
        assert |acc'| >= Max(maxRooms, 1);
        forall k | 1 <= k < |rest|
          ensures !RunningAt(rest, acc, maxRooms, k)
        {
          assert rest[..k][0] == rest[0];
          assert Dedupe(rest[..k], acc, maxRooms) == acc';
        }
      } else {
        assert r == Dedupe(rest[1..], acc', maxRooms);
        DedupeDropsOnlyDuplicates(rest[1..], acc', maxRooms);
        DedupeExtends(rest[1..], acc', maxRooms);
        forall k | 1 <= k < |rest| && RunningAt(rest, acc, maxRooms, k) && rest[k] !in r
          ensures CoveredByEarlier(rest[k], r, acc + rest[..k])
        {
          assert rest[..k][0] == rest[0];
          assert rest[..k][1..] == rest[1..][..k - 1];
          assert Dedupe(rest[..k], acc, maxRooms) == Dedupe(rest[1..][..k - 1], acc', maxRooms);
          assert RunningAt(rest[1..], acc', maxRooms, k - 1);
          assert rest[k] == rest[1..][k - 1];
          assert CoveredByEarlier(rest[k], r, acc' + rest[1..][..k - 1]);
          EarlierWithinPrefix(rest, acc, acc', k);
          CoveredByWider(rest[k], r, acc' + rest[1..][..k - 1], acc + rest[..k]);
        }
      }
      if rest[0] !in r {
        DroppedFirstIsCovered(rest[0], acc, acc', r);
        assert acc + rest[..0] == acc;
      }
    }
  }

  /** The pass over a prefix keeps no more rooms than the pass over the whole list. */
  lemma {:induction false} DedupePrefixLength(rest: seq<Room>, acc: seq<Room>, maxRooms: int, k: nat)
    requires |acc| < maxRooms || acc == []
    requires k <= |rest|
    ensures |Dedupe(rest[..k], acc, maxRooms)| <= |Dedupe(rest, acc, maxRooms)|
    decreases |rest|
  {
    if k == 0 {
      assert rest[..0] == [];
      DedupeExtends(rest, acc, maxRooms);
    } else {
      var acc' := if OverlapsAny(rest[0], acc) then acc else acc + [rest[0]];
      assert rest[..k][0] == rest[0];
      if |acc'| < maxRooms {
        assert rest[..k][1..] == rest[1..][..k - 1];
        DedupePrefixLength(rest[1..], acc', maxRooms, k - 1);
      }
    }
  }

  lemma EarlierWithinPrefix(rest: seq<Room>, acc: seq<Room>, acc': seq<Room>, k: int)
    requires 1 <= k <= |rest|
    requires acc' == acc || acc' == acc + [rest[0]]
    ensures forall y :: y in acc' + rest[1..][..k - 1] ==> y in acc + rest[..k]
  {
    assert rest[..k] == [rest[0]] + rest[1..][..k - 1];
  }

  lemma PrefixMembers(a: seq<Room>, r: seq<Room>)
    requires |a| <= |r| && r[..|a|] == a
    ensures forall y :: y in a ==> y in r
  {
    forall y | y in a
      ensures y in r
    {
      var i :| 0 <= i < |a| && a[i] == y;
      assert r[i] == a[i];
    }
  }

  lemma DroppedFirstIsCovered(x: Room, acc: seq<Room>, acc': seq<Room>, r: seq<Room>)
    requires acc' == if OverlapsAny(x, acc) then acc else acc + [x]
    requires |acc'| <= |r| && r[..|acc'|] == acc'
    requires x !in r
    ensures CoveredByEarlier(x, r, acc)
  {
    PrefixMembers(acc', r);
    assert x !in acc';
    assert x in acc + [x];
    var i :| 0 <= i < |acc| && Duplicate(x.box, acc[i].box);
    assert r[i] == acc'[i];
  }

  /** A list with no heavy overlap and within the cap passes the greedy pass unchanged. */
  lemma {:induction false} DedupeKeepsAll(rest: seq<Room>, acc: seq<Room>, maxRooms: int)
    requires NoHeavyOverlap(acc + rest)
    requires |acc + rest| <= Max(maxRooms, 1)
    requires |acc| < maxRooms || acc == []
    ensures Dedupe(rest, acc, maxRooms) == acc + rest
    decreases |rest|
  {
    if rest == [] {
      assert acc + rest == acc;
    } else {
      var all := acc + rest;
      assert all[|acc|] == rest[0];
      forall j | 0 <= j < |acc|
        ensures !Duplicate(rest[0].box, acc[j].box)
      {
        assert all[j] == acc[j];
      }
      assert !OverlapsAny(rest[0], acc);
      var acc' := acc + [rest[0]];
      assert acc' + rest[1..] == all;
      if |acc'| < maxRooms {
        DedupeKeepsAll(rest[1..], acc', maxRooms);
      } else {
        assert rest[1..] == [];
      }
    }
  }

  /**
   * The result keeps the sorted order and leaves rooms untouched: it is a
   * subsequence of the stably sorted input, it is in descending
   * `(confidence, area)` order, and holds no room the input does not.
   */
  lemma RankedOrderedSubsequence(rooms: seq<Room>, maxRooms: int)
    ensures IsSubseq(Ranked(rooms, maxRooms), SortByRank(rooms))
    ensures Descending(Ranked(rooms, maxRooms))
    ensures multiset(Ranked(rooms, maxRooms)) <= multiset(rooms)
  {
    var r := Ranked(rooms, maxRooms);
    if rooms != [] {
      DedupeSubseq([], SortByRank(rooms), [], maxRooms);
      assert [] + SortByRank(rooms) == SortByRank(rooms);
    }
    SortByRankDescending(rooms);
    SubseqDescending(r, SortByRank(rooms));
    SubseqMultiset(r, SortByRank(rooms));
    SortByRankPermutation(rooms);
  }

  /** No kept room is more than 70% covered by a room kept before it. */
  lemma RankedNoHeavyOverlap(rooms: seq<Room>, maxRooms: int)
    ensures NoHeavyOverlap(Ranked(rooms, maxRooms))
  {
    if rooms != [] {
      DedupeNoHeavyOverlap(SortByRank(rooms), [], maxRooms);
    }
  }

  /**
   * The result is empty exactly when the input is; it never holds more
   * than `maxRooms` rooms, except that a cap of zero or less still lets
   * the first room through, because the cap is tested after the append.
   */
  lemma RankedSizeCap(rooms: seq<Room>, maxRooms: int)
    ensures Ranked(rooms, maxRooms) == [] <==> rooms == []
    ensures maxRooms >= 1 ==> |Ranked(rooms, maxRooms)| <= maxRooms
    ensures maxRooms <= 0 && rooms != [] ==> |Ranked(rooms, maxRooms)| == 1
  {
    if rooms != [] {
      DedupeCap(SortByRank(rooms), [], maxRooms);
      RankedKeepsBest(rooms, maxRooms);
    }
  }

  /** The first room of the sorted input is always kept, in front, and no input room outranks it. */
  lemma RankedKeepsBest(rooms: seq<Room>, maxRooms: int)
    requires rooms != []
    ensures Ranked(rooms, maxRooms) != []
    ensures Ranked(rooms, maxRooms)[0] == SortByRank(rooms)[0]
    ensures forall x :: x in rooms ==> !Outranks(x, Ranked(rooms, maxRooms)[0])
  {
    var sorted := SortByRank(rooms);
    SortByRankPermutation(rooms);
    SortByRankDescending(rooms);
    var first := [sorted[0]];
    assert !OverlapsAny(sorted[0], []);
    assert [] + [sorted[0]] == first;
    assert Ranked(rooms, maxRooms) == if |first| >= maxRooms then first else Dedupe(sorted[1..], first, maxRooms);
    if |first| < maxRooms {
      DedupeExtends(sorted[1..], first, maxRooms);
    }
    forall x | x in rooms
      ensures !Outranks(x, sorted[0])
    {
      assert x in multiset(sorted);
      var k :| 0 <= k < |sorted| && sorted[k] == x;
    }
  }

  /**
   * Every sorted room that the pass reaches before the cap stops it, and
   * that is not kept, is more than 70% covered by a kept room from an
   * earlier sorted position.  When the cap never stops the pass, every
   * dropped input room duplicates a kept one.
   */
  lemma RankedDropsOnlyDuplicates(rooms: seq<Room>, maxRooms: int)
    ensures forall k ::
              (0 <= k < |SortByRank(rooms)| && RunningAt(SortByRank(rooms), [], maxRooms, k) &&
               SortByRank(rooms)[k] !in Ranked(rooms, maxRooms)) ==>
                CoveredByEarlier(SortByRank(rooms)[k], Ranked(rooms, maxRooms), SortByRank(rooms)[..k])
    ensures |Ranked(rooms, maxRooms)| < Max(maxRooms, 1) ==>
              forall x :: x in rooms && x !in Ranked(rooms, maxRooms) ==> OverlapsAny(x, Ranked(rooms, maxRooms))
  {
    var sorted, r := SortByRank(rooms), Ranked(rooms, maxRooms);
    SortByRankPermutation(rooms);
    if rooms != [] {
      DedupeDropsOnlyDuplicates(sorted, [], maxRooms);
      assert forall k :: 0 <= k < |sorted| ==> [] + sorted[..k] == sorted[..k];
    }
    if |r| < Max(maxRooms, 1) {
      forall x | x in rooms && x !in r
        ensures OverlapsAny(x, r)
      {
        assert x in multiset(sorted);
        var k :| 0 <= k < |sorted| && sorted[k] == x;
        DedupePrefixLength(sorted, [], maxRooms, k);
        assert RunningAt(sorted, [], maxRooms, k);
      }
    }
  }

  /**
   * With a cap of two, three disjoint rooms keep the two best: the pass
   * stops after the second room, so the third is not reached.
   */
  lemma CapKeepsLeadingRooms()
    ensures var a := Room(Box(0, 0, 100, 100), 10, 5000, 4);
            var b := Room(Box(200, 0, 300, 100), 9, 5000, 5);
            var c := Room(Box(400, 0, 500, 100), 8, 5000, 6);
            Ranked([c, a, b], 2) == [a, b]
  {
    var a := Room(Box(0, 0, 100, 100), 10, 5000, 4);
    var b := Room(Box(200, 0, 300, 100), 9, 5000, 5);
    var c := Room(Box(400, 0, 500, 100), 8, 5000, 6);
    assert SortByRank([b]) == [b];
    assert SortByRank([a, b]) == [a, b];
    assert [c, a, b][1..] == [a, b] && [a, b][1..] == [b];
    assert Insert(c, [b]) == [b, c];
    assert Insert(c, [a, b]) == [a, b, c];
    assert SortByRank([c, a, b]) == [a, b, c];
    assert !OverlapsAny(b, [a]);
  }

  /** Ranking its own output again changes nothing. */
  lemma RankedIdempotent(rooms: seq<Room>, maxRooms: int)
    ensures Ranked(Ranked(rooms, maxRooms), maxRooms) == Ranked(rooms, maxRooms)
  {
    var r := Ranked(rooms, maxRooms);
    if r != [] {
      RankedOrderedSubsequence(rooms, maxRooms);
      RankedNoHeavyOverlap(rooms, maxRooms);
      RankedSizeCap(rooms, maxRooms);
      SortByRankOfDescending(r);
      assert [] + r == r;
      DedupeKeepsAll(r, [], maxRooms);
    }
  }
}
