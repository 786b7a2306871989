/** The gsheets client's helpers: the built-in bell schedule (getBellTimings), the `max`
    helper of the change parser, and extractSpreadsheetID. */
module GSheets {
  import opened Text
  import opened Convert
  import opened Sheets

  /** One lesson slot of the bell schedule: its ordinal and its "HH:MM" start and end. */
  datatype LessonTiming = LessonTiming(number: int, timeStart: String, timeEnd: String)

  /** The Monday-to-Friday bell schedule. */
  const WeekdayTimings: seq<LessonTiming> := [
    LessonTiming(1, "08:15", "09:00"),
    LessonTiming(2, "09:00", "09:45"),
    LessonTiming(3, "09:55", "10:40"),
    LessonTiming(4, "10:40", "11:25"),
    LessonTiming(5, "11:40", "12:25"),
    LessonTiming(6, "12:25", "13:10"),
    LessonTiming(7, "13:30", "14:15"),
    LessonTiming(8, "14:15", "15:00"),
    LessonTiming(9, "15:15", "16:00"),
    LessonTiming(10, "16:00", "16:45"),
    LessonTiming(11, "16:55", "17:40"),
    LessonTiming(12, "17:40", "18:25")]

  /** The Saturday bell schedule. */
  const SaturdayTimings: seq<LessonTiming> := [
    LessonTiming(1, "08:15", "09:00"),
    LessonTiming(2, "09:00", "09:45"),
    LessonTiming(3, "09:50", "10:35"),
    LessonTiming(4, "10:35", "11:20"),
    LessonTiming(5, "11:35", "12:20"),
    LessonTiming(6, "12:20", "13:05"),
    LessonTiming(7, "13:20", "14:05"),
    LessonTiming(8, "14:05", "14:50"),
    LessonTiming(9, "15:05", "15:50"),
    LessonTiming(10, "15:50", "16:35"),
    LessonTiming(11, "16:40", "17:25"),
    LessonTiming(12, "17:25", "18:10")]

  const Weekdays: seq<String> := ["Понедельник", "Вторник", "Среда", "Четверг", "Пятница"]
  const Saturday: String := "Суббота"

  /** The bell table as a value: each of the five weekdays to the weekday schedule, Saturday to
      its own. Sunday and every other key are absent. */
  const BellTimings: map<String, seq<LessonTiming>> :=
    (map d | d in Weekdays :: WeekdayTimings)[Saturday := SaturdayTimings]

  /** getBellTimings: the weekday loop followed by the Saturday entry. */
  method GetBellTimings() returns (timings: map<String, seq<LessonTiming>>)
    ensures timings.Keys == set d | d in Weekdays + [Saturday]
    ensures forall d :: d in Weekdays ==> timings[d] == WeekdayTimings
    ensures timings[Saturday] == SaturdayTimings
    ensures timings == BellTimings
  {
    timings := map[];
    for i := 0 to |Weekdays|
      invariant timings.Keys == set k | 0 <= k < i :: Weekdays[k]
      invariant forall d :: d in timings ==> timings[d] == WeekdayTimings
    {
      timings := timings[Weekdays[i] := WeekdayTimings];
    }
    timings := timings[Saturday := SaturdayTimings];
    assert forall d :: d in Weekdays ==> exists k :: 0 <= k < |Weekdays| && Weekdays[k] == d;
    BellTimingsOnly(timings);
  }

  /** A map with the six school days as keys and their tables as values is BellTimings. */
  lemma BellTimingsOnly(timings: map<String, seq<LessonTiming>>)
    requires timings.Keys == set d | d in Weekdays + [Saturday]
    requires forall d :: d in Weekdays ==> timings[d] == WeekdayTimings
    requires timings[Saturday] == SaturdayTimings
    ensures timings == BellTimings
  {
  }

  /** A "HH:MM" clock reading. */
  predicate IsClock(s: String) {
    |s| == 5 && IsDigit(s[0]) && IsDigit(s[1]) && s[2] == ':' && IsDigit(s[3]) && IsDigit(s[4])
  }

  /** Minutes since midnight of a "HH:MM" reading. */
  function Minutes(s: String): nat
    requires IsClock(s)
  {
    (10 * DigitValue(s[0]) + DigitValue(s[1])) * 60 + 10 * DigitValue(s[3]) + DigitValue(s[4])
  }

  /** Slot `k` of a schedule is lesson k+1, ends after it starts, and ends no later than
      the next slot starts. */
  predicate SlotInOrder(t: seq<LessonTiming>, k: int)
    requires 0 <= k < |t|
  {
    && t[k].number == k + 1
    && IsClock(t[k].timeStart) && IsClock(t[k].timeEnd)
    && Minutes(t[k].timeStart) < Minutes(t[k].timeEnd)
    && (k + 1 < |t| ==> IsClock(t[k + 1].timeStart) && Minutes(t[k].timeEnd) <= Minutes(t[k + 1].timeStart))
  }

  /** A bell schedule of twelve lessons numbered 1..12, each ending after it starts and no
      later than the next one starts. */
  predicate WellFormedSchedule(t: seq<LessonTiming>) {
    |t| == 12 && forall k :: 0 <= k < 12 ==> SlotInOrder(t, k)
  }

  lemma WeekdaySlotsEarly(k: int)
    requires 0 <= k < 4
    ensures SlotInOrder(WeekdayTimings, k)
  {
    if k == 0 {} else if k == 1 {} else if k == 2 {} else {}
  }

  lemma WeekdaySlotsMiddle(k: int)
    requires 4 <= k < 8
    ensures SlotInOrder(WeekdayTimings, k)
  {
    if k == 4 {} else if k == 5 {} else if k == 6 {} else {}
  }

  lemma WeekdaySlotsLate(k: int)
    requires 8 <= k < 12
    ensures SlotInOrder(WeekdayTimings, k)
  {
    if k == 8 {} else if k == 9 {} else if k == 10 {} else {}
  }

  lemma SaturdaySlotsEarly(k: int)
    requires 0 <= k < 4
    ensures SlotInOrder(SaturdayTimings, k)
  {
    if k == 0 {} else if k == 1 {} else if k == 2 {} else {}
  }

  lemma SaturdaySlotsMiddle(k: int)
    requires 4 <= k < 8
    ensures SlotInOrder(SaturdayTimings, k)
  {
    if k == 4 {} else if k == 5 {} else if k == 6 {} else {}
  }

  lemma SaturdaySlotsLate(k: int)
    requires 8 <= k < 12
    ensures SlotInOrder(SaturdayTimings, k)
  {
    if k == 8 {} else if k == 9 {} else if k == 10 {} else {}
  }

  /** Both bell schedules list lessons 1..12 in order, none overlapping the next. */
  lemma BellSchedulesWellFormed()
    ensures WellFormedSchedule(WeekdayTimings)
    ensures WellFormedSchedule(SaturdayTimings)
  {
    forall k | 0 <= k < 12
      ensures SlotInOrder(WeekdayTimings, k) && SlotInOrder(SaturdayTimings, k)
    {
      if k < 4 {
        WeekdaySlotsEarly(k);
        SaturdaySlotsEarly(k);
      } else if k < 8 {
        WeekdaySlotsMiddle(k);
        SaturdaySlotsMiddle(k);
      } else {
        WeekdaySlotsLate(k);
        SaturdaySlotsLate(k);
      }
    }
  }

  /** The table's keys are exactly Понедельник..Пятница and Суббота; the weekdays share the
      weekday schedule, Суббота has its own. */
  lemma BellTimingsKeys(d: String)
    ensures d in BellTimings <==> d in Weekdays || d == Saturday
    ensures d in Weekdays ==> BellTimings[d] == WeekdayTimings
    ensures d == Saturday ==> BellTimings[d] == SaturdayTimings
  {
    assert Saturday !in Weekdays;
  }

  /** The lookup of a lesson's times in one day's bell table, as a value: the times of the
      first slot numbered `n`, or two empty strings. */
  function FindTiming(timings: seq<LessonTiming>, n: int): (r: (String, String))
    ensures r == ("", "") || exists k :: 0 <= k < |timings| && timings[k].number == n
                                        && r == (timings[k].timeStart, timings[k].timeEnd)
  {
    if timings == [] then ("", "")
    else if timings[0].number == n then (timings[0].timeStart, timings[0].timeEnd)
    else
      var r := FindTiming(timings[1..], n);
      assert r != ("", "") ==> exists k :: 0 <= k < |timings[1..]| && timings[1..][k].number == n
                                 && r == (timings[1..][k].timeStart, timings[1..][k].timeEnd);
      r
  }

  /** In a table numbered consecutively from `base`, the lookup is direct indexing. */
  lemma {:induction false} FindTimingNumbered(t: seq<LessonTiming>, base: int, n: int)
    requires forall k :: 0 <= k < |t| ==> t[k].number == base + k
    ensures FindTiming(t, n) == if base <= n < base + |t| then (t[n - base].timeStart, t[n - base].timeEnd)
                                else ("", "")
  {
    if t != [] && t[0].number != n {
      FindTimingNumbered(t[1..], base + 1, n);
    }
  }

  /** The times a lesson row gets: looked up only when the current weekday is known. */
  function LessonTimes(dayOfWeek: String, n: int): (String, String) {
    if dayOfWeek != "" && dayOfWeek in BellTimings then FindTiming(BellTimings[dayOfWeek], n)
    else ("", "")
  }

  /** A lesson gets bell times exactly when its day is one of the six school days and its
      number is 1..12, and then it gets that slot's times. */
  lemma LessonTimesTable(dayOfWeek: String, n: int)
    ensures LessonTimes(dayOfWeek, n) != ("", "") <==> dayOfWeek in BellTimings && 1 <= n <= 12
    ensures dayOfWeek in BellTimings && 1 <= n <= 12 ==>
              LessonTimes(dayOfWeek, n) == (BellTimings[dayOfWeek][n - 1].timeStart, BellTimings[dayOfWeek][n - 1].timeEnd)
  {
    BellTimingsKeys(dayOfWeek);
    if dayOfWeek in BellTimings {
      var t := BellTimings[dayOfWeek];
      if t == WeekdayTimings {
        WeekdayTimingsNumbered();
      } else {
        SaturdayTimingsNumbered();
      }
      FindTimingNumbered(t, 1, n);
    }
  }

  /** Both tables hold slots 1..12 in order, each with a start time. */
  predicate NumberedTable(t: seq<LessonTiming>) {
    |t| == 12 && forall k :: 0 <= k < 12 ==> t[k].number == k + 1 && t[k].timeStart != ""
  }

  lemma WeekdayTimingsNumbered()
    ensures NumberedTable(WeekdayTimings)
  {
  }

  lemma SaturdayTimingsNumbered()
    ensures NumberedTable(SaturdayTimings)
  {
  }

  /** The lookup loop of the wide parser, with its early `break`. */
  method FindLessonTiming(timings: seq<LessonTiming>, n: int) returns (timeStart: String, timeEnd: String)
    ensures (timeStart, timeEnd) == FindTiming(timings, n)
  {
    timeStart, timeEnd := "", "";
    var i := 0;
    while i < |timings|
      invariant 0 <= i <= |timings|
      invariant FindTiming(timings, n) == FindTiming(timings[i..], n)
    {
      if timings[i].number == n {
        timeStart, timeEnd := timings[i].timeStart, timings[i].timeEnd;
        return;
      }
      assert timings[i..][1..] == timings[i + 1..];
      i := i + 1;
    }
  }

  /** `max(values...)`: 0 for no values, otherwise the largest one. */
  function MaxOf(values: seq<int>): (m: int)
    ensures values == [] ==> m == 0
    ensures values != [] ==> m in values && forall v :: v in values ==> v <= m
  {
    if values == [] then 0
    else if |values| == 1 then values[0]
    else
      var init := values[..|values| - 1];
      var m0 := MaxOf(init);
      assert forall v :: v in values ==> v in init || v == values[|values| - 1];
      if values[|values| - 1] > m0 then values[|values| - 1] else m0
  }

  /** The `max` loop: start from the first value and keep the larger one. */
  method Max(values: seq<int>) returns (m: int)
    ensures m == MaxOf(values)
  {
    if |values| == 0 {
      return 0;
    }
    m := values[0];
    var i := 1;
    while i < |values|
      invariant 1 <= i <= |values|
      invariant m == MaxOf(values[..i])
    {
      assert values[..i + 1][..i] == values[..i];
      if values[i] > m {
        m := values[i];
      }
      i := i + 1;
    }
    assert values[..i] == values;
  }

  /** extractSpreadsheetID: drop everything from the first '?', then from the first '#', and
      take the regular-expression capture from what is left ("" when there is none). */
  function ExtractSpreadsheetID(url: String): (id: String)
    ensures '/' !in id && '?' !in id && '#' !in id
    ensures var base := Before(Before(url, '?'), '#');
            id == [] <==> forall i :: 0 <= i <= |base| ==> !IdMatchAt(base, i)
  {
    var base := Before(Before(url, '?'), '#');
    var id := SpreadsheetIdMatch(base);
    assert forall k :: 0 <= k < |id| ==> id[k] in base;
    id
  }

  /** Cutting at '?' and then at '#' leaves a text free of both untouched, and of a tail that
      starts with '/', '?' or '#' leaves nothing or a piece that starts with '/'. */
  lemma CutQueryAndFragment(head: String, tail: String) returns (rest: String)
    requires '?' !in head && '#' !in head
    requires tail == [] || tail[0] == '/' || tail[0] == '?' || tail[0] == '#'
    ensures Before(Before(head + tail, '?'), '#') == head + rest
    ensures rest == [] || rest[0] == '/'
  {
    BeforeAppend(head, tail, '?');
    var t1 := Before(tail, '?');
    BeforeAppend(head, t1, '#');
    rest := Before(t1, '#');
    assert rest <= t1 <= tail;
  }

  /** The match on the marker, a non-empty key without '/', and nothing or a '/'-led rest. */
  lemma SpreadsheetIdMatchOfPath(key: String, rest: String)
    requires key != [] && '/' !in key
    requires rest == [] || rest[0] == '/'
    ensures SpreadsheetIdMatch(IdMarker + key + rest) == key
  {
    var base := IdMarker + key + rest;
    assert base[..|IdMarker|] == IdMarker;
    assert IdMatchAt(base, 0);
    assert base[|IdMarker|..] == key + rest;
    if rest == [] {
      assert key + rest == key;
    } else {
      BeforeAppend(key, rest, '/');
      assert Before(rest, '/') == [];
    }
  }

  /** A path that starts with the marker, then a non-empty key free of '/', '?' and '#', then
      nothing or text that starts with '/', '?' or '#', yields exactly that key. */
  lemma ExtractSpreadsheetIDOfPath(key: String, tail: String)
    requires key != [] && '/' !in key && '?' !in key && '#' !in key
    requires tail == [] || tail[0] == '/' || tail[0] == '?' || tail[0] == '#'
    ensures ExtractSpreadsheetID(IdMarker + key + tail) == key
  {
    assert '?' !in IdMarker && '#' !in IdMarker;
    var rest := CutQueryAndFragment(IdMarker + key, tail);
    assert IdMarker + key + tail == (IdMarker + key) + tail;
    SpreadsheetIdMatchOfPath(key, rest);
  }
}
