/**
 * The output loop of python-vision-service/app.py, `detect_rooms`: each
 * ranked room becomes `{'id': 'room_NNN', 'bounding_box', 'name_hint':
 * 'Room N', 'confidence'}`, numbered from 1 in output order.
 */
module Formatting {
  import opened Util
  import opened Geometry
  import opened Contours

  predicate IsDigit(ch: char)
  {
    '0' <= ch <= '9'
  }

  predicate AllDigits(s: string)
  {
    forall i :: 0 <= i < |s| ==> IsDigit(s[i])
  }

  function DigitChar(d: nat): (ch: char)
    requires d < 10
    ensures IsDigit(ch) && ch as int - '0' as int == d
  {
    ('0' as int + d) as char
  }

  /** `str(n)` for a natural number: its decimal digits, without leading zeros. */
  function Decimal(n: nat): (s: string)
    ensures |s| >= 1 && AllDigits(s)
    ensures s[0] == '0' <==> n == 0
    decreases n
  {
    if n < 10 then [DigitChar(n)] else Decimal(n / 10) + [DigitChar(n % 10)]
  }

  /** The number a string of decimal digits denotes. */
  function DigitsValue(s: string): nat
    requires AllDigits(s)
  {
    if s == [] then 0 else DigitsValue(s[..|s| - 1]) * 10 + (s[|s| - 1] as int - '0' as int)
  }

  /** Reading back the digits of `str(n)` gives `n`. */
  lemma {:induction false} DecimalRoundTrip(n: nat)
    ensures DigitsValue(Decimal(n)) == n
    decreases n
  {
    if n >= 10 {
      DecimalRoundTrip(n / 10);
      var s := Decimal(n);
      assert s[..|s| - 1] == Decimal(n / 10);
    }
  }

  function Zeros(k: nat): (s: string)
    ensures |s| == k && forall i :: 0 <= i < k ==> s[i] == '0'
  {
    seq(k, _ => '0')
  }

  /** `s.zfill(width)` for a string without a sign: left-padded with '0' up to `width`. */
  function ZFill(s: string, width: nat): (r: string)
    ensures |r| == Max(|s|, width)
    ensures r[|r| - |s|..] == s
    ensures forall i :: 0 <= i < |r| - |s| ==> r[i] == '0'
  {
    if |s| >= width then s else Zeros(width - |s|) + s
  }

  lemma {:induction false} LeadingZerosValue(k: nat, s: string)
    requires AllDigits(s)
    ensures AllDigits(Zeros(k) + s)
    ensures DigitsValue(Zeros(k) + s) == DigitsValue(s)
    decreases |s|, k
  {
    var t := Zeros(k) + s;
    if s == [] {
      assert t == Zeros(k);
      if k > 0 {
        assert t[..k - 1] == Zeros(k - 1) + [];
        LeadingZerosValue(k - 1, []);
      }
    } else {
      assert t[..|t| - 1] == Zeros(k) + s[..|s| - 1];
      LeadingZerosValue(k, s[..|s| - 1]);
    }
  }

  /** Zero padding changes neither the digits' kind nor the number they denote. */
  lemma ZFillValue(s: string, width: nat)
    requires AllDigits(s)
    ensures AllDigits(ZFill(s, width)) && DigitsValue(ZFill(s, width)) == DigitsValue(s)
  {
    if |s| < width {
      LeadingZerosValue(width - |s|, s);
    }
  }

  /** `f'room_{str(n).zfill(3)}'`. */
  function RoomId(n: nat): string
  {
    "room_" + ZFill(Decimal(n), 3)
  }

  /** `f'Room {n}'`. */
  function NameHint(n: nat): string
  {
    "Room " + Decimal(n)
  }

  /** The number written after `prefix` in `s`, if `s` is `prefix` followed by decimal digits. */
  function ParseNumbered(prefix: string, s: string): Option<nat>
  {
    if |prefix| < |s| && s[..|prefix|] == prefix && AllDigits(s[|prefix|..])
    then Some(DigitsValue(s[|prefix|..]))
    else None
  }

  /** An id reads back as the number it was made from, and has at least three digits. */
  lemma RoomIdRoundTrip(n: nat)
    ensures ParseNumbered("room_", RoomId(n)) == Some(n)
    ensures |RoomId(n)| >= 8
  {
    var id := RoomId(n);
    assert id[5..] == ZFill(Decimal(n), 3);
    assert id[..5] == "room_";
    ZFillValue(Decimal(n), 3);
    DecimalRoundTrip(n);
  }

  /** Up to 999 rooms the id has exactly three digits. */
  lemma RoomIdWidth(n: nat)
    requires n <= 999
    ensures |RoomId(n)| == 8
  {
    if n >= 10 {
      if n >= 100 {
        assert |Decimal(n / 100)| == 1;
      }
      assert |Decimal(n / 10)| <= 2;
    }
  }

  /** The ids and names of the first room, the twentieth and the thousandth. */
  lemma NumberingExamples()
    ensures RoomId(1) == "room_001" && NameHint(1) == "Room 1"
    ensures RoomId(20) == "room_020" && NameHint(20) == "Room 20"
    ensures RoomId(1000) == "room_1000"
  {
    assert Decimal(1) == "1";
    assert Decimal(2) == "2" && Decimal(20) == "20";
    assert Decimal(100) == "100" && Decimal(1000) == "1000";
  }

  /** A name hint reads back as the number it was made from. */
  lemma NameHintRoundTrip(n: nat)
    ensures ParseNumbered("Room ", NameHint(n)) == Some(n)
  {
    var name := NameHint(n);
    assert name[5..] == Decimal(n);
    assert name[..5] == "Room ";
    DecimalRoundTrip(n);
  }

  /** Different numbers give different ids. */
  lemma RoomIdInjective(a: nat, b: nat)
    ensures RoomId(a) == RoomId(b) <==> a == b
  {
    RoomIdRoundTrip(a);
    RoomIdRoundTrip(b);
  }

  /** One entry of the response's `rooms` list. */
  datatype DetectedRoom = DetectedRoom(id: string, box: Box, nameHint: string, confidence: nat)

  /** The entry for the room at index `i` of the ranked list. */
  function FormatRoom(i: nat, room: Room): DetectedRoom
  {
    DetectedRoom(RoomId(i + 1), room.box, NameHint(i + 1), room.confidence)
  }

  function Formatted(rooms: seq<Room>): seq<DetectedRoom>
  {
    seq(|rooms|, i requires 0 <= i < |rooms| => FormatRoom(i, rooms[i]))
  }

  /** The `enumerate` loop of `detect_rooms` that builds `result_rooms`. */
  method FormatRooms(filtered: seq<Room>) returns (result: seq<DetectedRoom>)
    ensures result == Formatted(filtered)
  {
    result := [];
    var i := 0;
    while i < |filtered|
      invariant 0 <= i <= |filtered|
      invariant result == Formatted(filtered[..i])
    {
      var room := filtered[i];
      result := result + [DetectedRoom("room_" + ZFill(Decimal(i + 1), 3), room.box, "Room " + Decimal(i + 1), room.confidence)];
      i := i + 1;
    }
    assert filtered[..i] == filtered;
  }

  /**
   * One entry per ranked room, in the same order: entry `i` is numbered
   * `i + 1` in both its id and its name hint and carries the room's box
   * and confidence unchanged; no two entries share an id.
   */
  lemma FormattedEntries(rooms: seq<Room>)
    ensures |Formatted(rooms)| == |rooms|
    ensures forall i :: 0 <= i < |rooms| ==>
              Formatted(rooms)[i].box == rooms[i].box &&
              Formatted(rooms)[i].confidence == rooms[i].confidence &&
              ParseNumbered("room_", Formatted(rooms)[i].id) == Some(i + 1) &&
              ParseNumbered("Room ", Formatted(rooms)[i].nameHint) == Some(i + 1)
    ensures forall i, j :: 0 <= i < j < |rooms| ==> Formatted(rooms)[i].id != Formatted(rooms)[j].id
  {
    forall i | 0 <= i < |rooms|
      ensures ParseNumbered("room_", Formatted(rooms)[i].id) == Some(i + 1)
      ensures ParseNumbered("Room ", Formatted(rooms)[i].nameHint) == Some(i + 1)
    {
      RoomIdRoundTrip(i + 1);
      NameHintRoundTrip(i + 1);
    }
  }
}
