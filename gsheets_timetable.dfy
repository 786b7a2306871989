/** The wide-timetable parser of the gsheets client (ParseScheduleRecords): group names from
    row 1, a width check on row 4, then a scan from row 5 that alternates between
    "День - <weekday>, <date>" marker rows and lesson rows of four cells per group. */
module GSheetsTimetable {
  import opened Text
  import opened Convert
  import opened Sheets
  import opened GSheets

  /** The marker text looked for in the lower-cased first cell. */
  const DayMarker: String := "день -"

  /** The group names found in cells 1..n-1 of the group row: trimmed, non-empty, in order. */
  function GroupNamesUpTo(line: Row, n: nat): (names: seq<String>)
    requires n <= |line|
    ensures forall k :: 0 <= k < |names| ==> names[k] != "" && IsTrimmed(names[k])
  {
    if n <= 1 then []
    else
      var names := GroupNamesUpTo(line, n - 1);
      var name := TrimSpace(line[n - 1]);
      if name != "" then names + [name] else names
  }

  function GroupNames(line: Row): (names: seq<String>)
    ensures forall k :: 0 <= k < |names| ==> names[k] != "" && IsTrimmed(names[k])
  {
    GroupNamesUpTo(line, |line|)
  }

  /** There is no group exactly when every cell from column 1 on is blank. */
  lemma {:induction false} GroupNamesEmpty(line: Row, n: nat)
    requires n <= |line|
    ensures GroupNamesUpTo(line, n) == [] <==> forall j :: 1 <= j < n ==> TrimSpace(line[j]) == ""
  {
    if n > 1 {
      GroupNamesEmpty(line, n - 1);
    }
  }

  /** A row the scan skips outright: no cells, or a single blank cell. */
  predicate IsBlankRow(row: Row) {
    |row| == 0 || (|row| == 1 && TrimSpace(row[0]) == "")
  }

  /** A day-marker row: its lower-cased first cell contains "день -". */
  predicate IsDayMarker(row: Row) {
    |row| > 0 && Contains(ToLower(row[0]), DayMarker)
  }

  /** The scan's state: the current weekday and the current date text. */
  datatype DayState = DayState(dayOfWeek: String, dateStr: String)

  const Initial: DayState := DayState("", "")

  /** What a marker cell does to the state: with a comma, the date becomes the trimmed second
      comma piece and, when the trimmed first piece has a '-', the weekday becomes its trimmed
      second '-' piece. Whether the date parses is only logged. */
  function MarkerStep(st: DayState, cell: String): DayState {
    var parts := Split(cell, ',');
    if |parts| >= 2 then
      var dayParts := Split(TrimSpace(parts[0]), '-');
      DayState(if |dayParts| >= 2 then TrimSpace(dayParts[1]) else st.dayOfWeek, TrimSpace(parts[1]))
    else st
  }

  /** The marker rule in terms of the first separators: no comma leaves the state alone; otherwise
      the weekday is the trimmed text between the first and second '-' of the part before the first
      comma (unchanged when that part has no '-'), and the date the text between the first and
      second comma. */
  lemma MarkerStepMeaning(st: DayState, cell: String)
    ensures ',' !in cell ==> MarkerStep(st, cell) == st
    ensures ',' in cell ==>
              var head := TrimSpace(Before(cell, ','));
              && MarkerStep(st, cell).dateStr == TrimSpace(Before(After(cell, ','), ','))
              && MarkerStep(st, cell).dayOfWeek
                   == (if '-' in head then TrimSpace(Before(After(head, '-'), '-')) else st.dayOfWeek)
  {
    if ',' in cell {
      SplitSecond(cell, ',');
      var head := TrimSpace(Before(cell, ','));
      if '-' in head {
        SplitSecond(head, '-');
      }
    }
  }

  /** The record that group `g`'s block (cells 1+4g .. 4+4g: subject, kind of lesson, teacher,
      room) yields, if any: nothing when the block
      runs past the row or its subject cell is blank; slot 1 (the kind of lesson) is not read. */
  function GroupCell(name: String, g: nat, row: Row, times: (String, String), day: String): (out: seq<ScheduleRecord>)
    ensures |out| <= 1
    ensures |out| == 1 <==> 1 + 4 * g + 3 < |row| && TrimSpace(row[1 + 4 * g]) != ""
  {
    var start := 1 + 4 * g;
    if start + 3 >= |row| then []
    else
      var subject := TrimSpace(row[start]);
      if subject == "" then []
      else [ScheduleRecord(name, subject, TrimSpace(row[start + 2]), TrimSpace(row[start + 3]), times.0, times.1, day)]
  }

  /** The records of groups 0..k-1 of one lesson row, in group order. */
  function GroupRecords(groups: seq<String>, row: Row, k: nat, times: (String, String), day: String): seq<ScheduleRecord>
    requires k <= |groups|
  {
    if k == 0 then []
    else GroupRecords(groups, row, k - 1, times, day) + GroupCell(groups[k - 1], k - 1, row, times, day)
  }

  /** What a non-blank, non-marker row yields: nothing when it is narrower than four cells per
      group or its first cell is not an integer; otherwise one record per filled group block,
      all with the bell times of that lesson number on the current weekday. */
  function LessonRecords(groups: seq<String>, row: Row, day: String): seq<ScheduleRecord>
    requires |row| > 0
  {
    if |row| < 4 * |groups| then []
    else
      var numStr := TrimSpace(row[0]);
      if numStr == "" then []
      else
        match Atoi(numStr)
        case None => []
        case Some(n) => GroupRecords(groups, row, |groups|, LessonTimes(day, n), day)
  }

  /** One row of the scan: the new state and the records it adds. */
  function RowStep(groups: seq<String>, st: DayState, row: Row): (DayState, seq<ScheduleRecord>) {
    if IsBlankRow(row) then (st, [])
    else if IsDayMarker(row) then (MarkerStep(st, row[0]), [])
    else (st, LessonRecords(groups, row, st.dayOfWeek))
  }

  /** The scan over the data rows, from the empty state. */
  function Scan(groups: seq<String>, rows: seq<Row>): (DayState, seq<ScheduleRecord>) {
    if rows == [] then (Initial, [])
    else
      var prev := Scan(groups, rows[..|rows| - 1]);
      var step := RowStep(groups, prev.0, rows[|rows| - 1]);
      (step.0, prev.1 + step.1)
  }

  /** The parser as a value: the layout checks on rows 0..4, then the scan from row 5. */
  function ParseSchedule(grid: Grid): Result<seq<ScheduleRecord>> {
    if |grid| < 5 then Err(TooFewRows)
    else if |grid[1]| == 0 then Err(EmptyGroupRow)
    else
      var groups := GroupNames(grid[1]);
      if groups == [] then Err(NoGroupNames)
      else if |grid[4]| < 4 * |groups| then Err(HeaderTooNarrow)
      else Ok(Scan(groups, grid[5..]).1)
  }

  /** The body of the group loop: read group `g`'s block, skipping it when it runs past the
      row or its subject is blank. */
  method ReadBlock(name: String, g: nat, row: Row, timeStart: String, timeEnd: String, day: String)
    returns (cell: seq<ScheduleRecord>)
    ensures cell == GroupCell(name, g, row, (timeStart, timeEnd), day)
  {
    var start := 1 + 4 * g;
    var end := start + 4 - 1;
    if end >= |row| {
      return [];
    }
    var subject := TrimSpace(row[start]);
    var teacher := TrimSpace(row[start + 2]);
    var classroom := TrimSpace(row[start + 3]);
    if subject == "" {
      return [];
    }
    return [ScheduleRecord(name, subject, teacher, classroom, timeStart, timeEnd, day)];
  }

  /** One more group block appends that block's records. */
  lemma GroupRecordsNext(groups: seq<String>, row: Row, k: nat, times: (String, String), day: String)
    requires k < |groups|
    ensures GroupRecords(groups, row, k + 1, times, day) == GroupRecords(groups, row, k, times, day) + GroupCell(groups[k], k, row, times, day)
  {
  }

  /** The group loop over one lesson row. */
  method EmitGroups(groups: seq<String>, row: Row, timeStart: String, timeEnd: String, day: String)
    returns (out: seq<ScheduleRecord>)
    ensures out == GroupRecords(groups, row, |groups|, (timeStart, timeEnd), day)
  {
    out := [];
    var g := 0;
    while g < |groups|
      invariant 0 <= g <= |groups|
      invariant out == GroupRecords(groups, row, g, (timeStart, timeEnd), day)
    {
      var cell := ReadBlock(groups[g], g, row, timeStart, timeEnd, day);
      GroupRecordsNext(groups, row, g, (timeStart, timeEnd), day);
      out := out + cell;
      g := g + 1;
    }
  }

  /** The group-name loop over row 1, from column 1 on. */
  method ReadGroupNames(groupsLine: Row) returns (groupNames: seq<String>)
    ensures groupNames == GroupNames(groupsLine)
  {
    groupNames := [];
    if |groupsLine| == 0 {
      return;
    }
    var i := 1;
    while i < |groupsLine|
      invariant 1 <= i <= |groupsLine|
      invariant groupNames == GroupNamesUpTo(groupsLine, i)
    {
      var groupName := TrimSpace(groupsLine[i]);
      if groupName != "" {
        groupNames := groupNames + [groupName];
      }
      i := i + 1;
    }
  }

  /** One iteration of the row loop: skip a blank row, update the weekday and date on a marker
      row, otherwise treat the row as a lesson row. */
  method ScanRow(groupNames: seq<String>, bellTimings: map<String, seq<LessonTiming>>,
                 currentDayOfWeek: String, currentDateStr: String, row: Row)
    returns (dayOfWeek: String, dateStr: String, out: seq<ScheduleRecord>)
    requires bellTimings == BellTimings
    ensures (DayState(dayOfWeek, dateStr), out) == RowStep(groupNames, DayState(currentDayOfWeek, currentDateStr), row)
  {
    dayOfWeek, dateStr, out := currentDayOfWeek, currentDateStr, [];
    if |row| == 0 || (|row| == 1 && TrimSpace(row[0]) == "") {
      return;
    }
    if |row| > 0 && Contains(ToLower(row[0]), DayMarker) {
      var parts := Split(row[0], ',');
      if |parts| >= 2 {
        var dayPart := TrimSpace(parts[0]);
        var dayParts := Split(dayPart, '-');
        if |dayParts| >= 2 {
          dayOfWeek := TrimSpace(dayParts[1]);
        }
        dateStr := TrimSpace(parts[1]);
      }
      return;
    }
    if |row| < |groupNames| * 4 {
      return;
    }
    var lessonNumberStr := TrimSpace(row[0]);
    if lessonNumberStr == "" {
      return;
    }
    var lessonNumber := Atoi(lessonNumberStr);
    if lessonNumber.None? {
      return;
    }
    var timeStart, timeEnd := "", "";
    if currentDayOfWeek != "" && currentDayOfWeek in bellTimings {
      timeStart, timeEnd := FindLessonTiming(bellTimings[currentDayOfWeek], lessonNumber.value);
    }
    out := EmitGroups(groupNames, row, timeStart, timeEnd, currentDayOfWeek);
  }

  /** The row loop from row 5 on, with its mutable weekday and date. */
  method ScanRows(groupNames: seq<String>, bellTimings: map<String, seq<LessonTiming>>, rows: seq<Row>)
    returns (records: seq<ScheduleRecord>)
    requires bellTimings == BellTimings
    ensures records == Scan(groupNames, rows).1
  {
    records := [];
    var currentDayOfWeek: String := "";
    var currentDateStr: String := "";
    var r := 0;
    while r < |rows|
      invariant 0 <= r <= |rows|
      invariant (DayState(currentDayOfWeek, currentDateStr), records) == Scan(groupNames, rows[..r])
    {
      assert rows[..r + 1][..r] == rows[..r];
      var out;
      currentDayOfWeek, currentDateStr, out := ScanRow(groupNames, bellTimings, currentDayOfWeek, currentDateStr, rows[r]);
      records := records + out;
      r := r + 1;
    }
    assert rows[..r] == rows;
  }

  /** ParseScheduleRecords: the layout checks on rows 0..4, then the row loop. */
  method ParseScheduleRecords(grid: Grid) returns (result: Result<seq<ScheduleRecord>>)
    ensures result == ParseSchedule(grid)
  {
    if |grid| < 5 {
      return Err(TooFewRows);
    }
    var bellTimings := GetBellTimings();
    if |grid[1]| == 0 {
      return Err(EmptyGroupRow);
    }
    var groupNames := ReadGroupNames(grid[1]);
    if |groupNames| == 0 {
      return Err(NoGroupNames);
    }
    if |grid[4]| < |groupNames| * 4 {
      return Err(HeaderTooNarrow);
    }
    var records := ScanRows(groupNames, bellTimings, grid[5..]);
    return Ok(records);
  }

  // ---------------------------------------------------------------------------------------
  // Properties of the parser

  /** The layout failures: fewer than five rows, no non-blank cell from column 1 on in row 1,
      or a row 4 narrower than four cells per group. Nothing else fails. */
  lemma ParseScheduleFailure(grid: Grid)
    ensures ParseSchedule(grid).Err? <==>
              || |grid| < 5
              || (forall j :: 1 <= j < |grid[1]| ==> TrimSpace(grid[1][j]) == "")
              || |grid[4]| < 4 * |GroupNames(grid[1])|
  {
    if |grid| >= 5 {
      GroupNamesEmpty(grid[1], |grid[1]|);
    }
  }

  /** Group `g`'s block lies inside the row and its subject cell is not blank. */
  predicate BlockFilled(row: Row, g: nat) {
    1 + 4 * g + 3 < |row| && TrimSpace(row[1 + 4 * g]) != ""
  }

  /** The number of filled blocks among groups 0..k-1. */
  function FilledBlocks(row: Row, k: nat): nat {
    if k == 0 then 0 else FilledBlocks(row, k - 1) + (if BlockFilled(row, k - 1) then 1 else 0)
  }

  /** A row the scan reads as a lesson row: not blank, not a marker, at least four cells per
      group, and an integer in its first cell. */
  predicate IsLessonRow(groups: seq<String>, row: Row) {
    && !IsBlankRow(row) && !IsDayMarker(row)
    && |row| >= 4 * |groups|
    && TrimSpace(row[0]) != "" && Atoi(TrimSpace(row[0])).Some?
  }

  /** The number of (lesson row, filled group block) pairs; it does not depend on any weekday. */
  function CountLessons(groups: seq<String>, rows: seq<Row>): nat {
    if rows == [] then 0
    else
      var last := rows[|rows| - 1];
      CountLessons(groups, rows[..|rows| - 1]) + (if IsLessonRow(groups, last) then FilledBlocks(last, |groups|) else 0)
  }

  lemma {:induction false} GroupRecordsCount(groups: seq<String>, row: Row, k: nat, times: (String, String), day: String)
    requires k <= |groups|
    ensures |GroupRecords(groups, row, k, times, day)| == FilledBlocks(row, k)
  {
    if k > 0 {
      GroupRecordsCount(groups, row, k - 1, times, day);
    }
  }

  /** One record per (lesson row, filled block) pair, whatever the markers say. */
  lemma {:induction false} ScanCount(groups: seq<String>, rows: seq<Row>)
    ensures |Scan(groups, rows).1| == CountLessons(groups, rows)
  {
    if rows != [] {
      var init := rows[..|rows| - 1];
      var last := rows[|rows| - 1];
      ScanCount(groups, init);
      var st := Scan(groups, init).0;
      if !IsBlankRow(last) && !IsDayMarker(last) && |last| >= 4 * |groups| && TrimSpace(last[0]) != "" {
        match Atoi(TrimSpace(last[0]))
        case None =>
        case Some(n) => GroupRecordsCount(groups, last, |groups|, LessonTimes(st.dayOfWeek, n), st.dayOfWeek);
      }
    }
  }

  /** What every emitted record looks like: one of the groups, a non-blank trimmed subject,
      trimmed teacher and room, and the bell lookup for its own weekday and some lesson number. */
  ghost predicate WellShaped(groups: seq<String>, r: ScheduleRecord) {
    && r.groupName in groups
    && r.subject != "" && IsTrimmed(r.subject) && IsTrimmed(r.teacher) && IsTrimmed(r.classroom)
    && exists n :: (r.timeStart, r.timeEnd) == LessonTimes(r.dayOfWeek, n)
  }

  /** The record of one filled block is well shaped. */
  lemma GroupCellShaped(groups: seq<String>, row: Row, k: nat, n: int, day: String)
    requires k < |groups|
    ensures forall r :: r in GroupCell(groups[k], k, row, LessonTimes(day, n), day) ==> WellShaped(groups, r)
  {
    var cell := GroupCell(groups[k], k, row, LessonTimes(day, n), day);
    if cell != [] {
      var r := cell[0];
      assert r.groupName == groups[k] && r.dayOfWeek == day;
      assert (r.timeStart, r.timeEnd) == LessonTimes(r.dayOfWeek, n);
      assert WellShaped(groups, r);
    }
  }

  lemma {:induction false} GroupRecordsShaped(groups: seq<String>, row: Row, k: nat, n: int, day: String)
    requires k <= |groups|
    ensures forall r :: r in GroupRecords(groups, row, k, LessonTimes(day, n), day) ==> WellShaped(groups, r)
  {
    if k > 0 {
      GroupRecordsShaped(groups, row, k - 1, n, day);
      GroupCellShaped(groups, row, k - 1, n, day);
      GroupRecordsNext(groups, row, k - 1, LessonTimes(day, n), day);
    }
  }

  lemma {:induction false} ScanShaped(groups: seq<String>, rows: seq<Row>)
    ensures forall r :: r in Scan(groups, rows).1 ==> WellShaped(groups, r)
  {
    if rows != [] {
      var init := rows[..|rows| - 1];
      var last := rows[|rows| - 1];
      ScanShaped(groups, init);
      var st := Scan(groups, init).0;
      if !IsBlankRow(last) && !IsDayMarker(last) && |last| >= 4 * |groups| && TrimSpace(last[0]) != "" {
        match Atoi(TrimSpace(last[0]))
        case None =>
        case Some(n) => GroupRecordsShaped(groups, last, |groups|, n, st.dayOfWeek);
      }
    }
  }

  /** Every record of a successful parse is well shaped. */
  lemma ParseScheduleShaped(grid: Grid)
    requires ParseSchedule(grid).Ok?
    ensures forall r :: r in ParseSchedule(grid).value ==> WellShaped(GroupNames(grid[1]), r)
  {
    ScanShaped(GroupNames(grid[1]), grid[5..]);
  }

  /** The kind-of-lesson cell (slot 1 of a block, column 2+4m) is never read. */
  lemma GroupCellIgnoresKind(name: String, g: nat, row: Row, times: (String, String), day: String, m: nat, x: String)
    requires 2 + 4 * m < |row|
    ensures GroupCell(name, g, row[2 + 4 * m := x], times, day) == GroupCell(name, g, row, times, day)
  {
    var row' := row[2 + 4 * m := x];
    if 1 + 4 * g + 3 < |row| {
      assert row'[1 + 4 * g] == row[1 + 4 * g];
      assert row'[1 + 4 * g + 2] == row[1 + 4 * g + 2];
      assert row'[1 + 4 * g + 3] == row[1 + 4 * g + 3];
    }
  }

  lemma GroupRecordsIgnoreKind(groups: seq<String>, row: Row, k: nat, times: (String, String),
                               day: String, m: nat, x: String)
    requires k <= |groups| && 2 + 4 * m < |row|
    ensures GroupRecords(groups, row[2 + 4 * m := x], k, times, day) == GroupRecords(groups, row, k, times, day)
  {
    forall j | 0 <= j < k
      ensures GroupCell(groups[j], j, row[2 + 4 * m := x], times, day) == GroupCell(groups[j], j, row, times, day)
    {
      GroupCellIgnoresKind(groups[j], j, row, times, day, m, x);
    }
    SameCells(groups, row, row[2 + 4 * m := x], k, times, day);
  }

  /** Two rows whose first k blocks yield the same cells yield the same records. */
  lemma {:induction false} SameCells(groups: seq<String>, row: Row, row': Row, k: nat, times: (String, String), day: String)
    requires k <= |groups|
    requires forall j :: 0 <= j < k ==> GroupCell(groups[j], j, row', times, day) == GroupCell(groups[j], j, row, times, day)
    ensures GroupRecords(groups, row', k, times, day) == GroupRecords(groups, row, k, times, day)
  {
    if k > 0 {
      SameCells(groups, row, row', k - 1, times, day);
      GroupRecordsNext(groups, row, k - 1, times, day);
      GroupRecordsNext(groups, row', k - 1, times, day);
    }
  }

  lemma RowStepIgnoresKind(groups: seq<String>, st: DayState, row: Row, m: nat, x: String)
    requires 2 + 4 * m < |row|
    ensures RowStep(groups, st, row[2 + 4 * m := x]) == RowStep(groups, st, row)
  {
    var row' := row[2 + 4 * m := x];
    assert row'[0] == row[0];
    forall times, day {
      GroupRecordsIgnoreKind(groups, row, |groups|, times, day, m, x);
    }
  }

  /** Rewriting the kind-of-lesson cell of any data row leaves the whole scan unchanged. */
  lemma {:induction false} ScanIgnoresKind(groups: seq<String>, rows: seq<Row>, i: nat, m: nat, x: String)
    requires i < |rows| && 2 + 4 * m < |rows[i]|
    ensures Scan(groups, rows[i := rows[i][2 + 4 * m := x]]) == Scan(groups, rows)
  {
    var rows' := rows[i := rows[i][2 + 4 * m := x]];
    var n := |rows| - 1;
    if i == n {
      assert rows'[..n] == rows[..n];
      RowStepIgnoresKind(groups, Scan(groups, rows[..n]).0, rows[n], m, x);
    } else {
      assert rows'[..n] == rows[..n][i := rows[i][2 + 4 * m := x]];
      ScanIgnoresKind(groups, rows[..n], i, m, x);
    }
  }

  /** A row whose first cell starts with "День -" is a day marker. */
  lemma MarkerPrefix(cell: String)
    requires |cell| >= 6 && cell[..6] == "День -"
    ensures IsDayMarker([cell])
  {
    var lower := ToLower(cell);
    assert lower[..6] == DayMarker by {
      assert lower[0] == LowerChar('Д') == 'д';
      assert lower[1] == LowerChar('е') && lower[2] == LowerChar('н') && lower[3] == LowerChar('ь');
      assert lower[4] == ' ' && lower[5] == '-';
    }
    assert OccursAt(lower, DayMarker, 0);
  }

  /** The documented marker shape "День - <weekday>, <date>". */
  function MarkerCell(weekday: String, date: String): String {
    "День - " + weekday + ", " + date
  }

  /** The marker cell, cut where its first '-' and its first ',' are. */
  lemma MarkerCellPieces(weekday: String, date: String)
    ensures MarkerCell(weekday, date) == ("День " + ['-'] + ([' '] + weekday)) + [','] + ([' '] + date)
  {
  }

  /** The weekday piece: the part before the comma, trimmed and cut at its first '-'. */
  lemma MarkerWeekday(weekday: String)
    requires weekday != [] && IsTrimmed(weekday) && '-' !in weekday
    ensures var head := "День " + ['-'] + ([' '] + weekday);
            && TrimSpace(head) == head
            && '-' in head
            && TrimSpace(Before(After(head, '-'), '-')) == weekday
  {
    var dayWord: String := "День ";
    var head := dayWord + ['-'] + ([' '] + weekday);
    assert head[0] == 'Д' && head[|head| - 1] == weekday[|weekday| - 1];
    TrimSpaceOfTrimmed(head);
    assert '-' !in dayWord;
    CutAtFirst(dayWord, '-', [' '] + weekday);
    assert '-' !in [' '] + weekday;
    TrimSpaceDropsLeadingSpace(' ', weekday);
    TrimSpaceOfTrimmed(weekday);
  }

  /** A marker cell of the documented shape is a non-blank day-marker row. */
  lemma MarkerRowIsMarker(weekday: String, date: String)
    ensures !IsBlankRow([MarkerCell(weekday, date)]) && IsDayMarker([MarkerCell(weekday, date)])
  {
    var cell := MarkerCell(weekday, date);
    MarkerCellPieces(weekday, date);
    assert cell[..6] == "День -";
    MarkerPrefix(cell);
    assert cell[0] == 'Д';
    TrimSpaceNonBlank(cell, 0);
  }

  /** A marker cell of the documented shape sets exactly that weekday and that date. */
  lemma MarkerRowSetsDay(st: DayState, weekday: String, date: String)
    requires weekday != [] && IsTrimmed(weekday) && ',' !in weekday && '-' !in weekday
    requires IsTrimmed(date) && ',' !in date
    ensures MarkerStep(st, MarkerCell(weekday, date)) == DayState(weekday, date)
  {
    var head := "День " + ['-'] + ([' '] + weekday);
    var cell := MarkerCell(weekday, date);
    MarkerCellPieces(weekday, date);
    assert ',' !in head;
    CutAtFirst(head, ',', [' '] + date);
    assert ',' !in [' '] + date;
    TrimSpaceDropsLeadingSpace(' ', date);
    TrimSpaceOfTrimmed(date);
    MarkerWeekday(weekday);
    MarkerStepMeaning(st, cell);
  }

  /** The scan of one more row: that row's step from the state the earlier rows left. */
  lemma ScanSnoc(groups: seq<String>, rows: seq<Row>, row: Row)
    ensures Scan(groups, rows + [row])
            == (RowStep(groups, Scan(groups, rows).0, row).0, Scan(groups, rows).1 + RowStep(groups, Scan(groups, rows).0, row).1)
  {
    assert (rows + [row])[..|rows|] == rows;
  }

  /** A marker row steps the state and emits nothing. */
  lemma RowStepOfMarker(groups: seq<String>, st: DayState, row: Row)
    requires !IsBlankRow(row) && IsDayMarker(row)
    ensures RowStep(groups, st, row) == (MarkerStep(st, row[0]), [])
  {
  }

  /** A lesson row keeps the state and emits its lesson records. */
  lemma RowStepOfLesson(groups: seq<String>, st: DayState, row: Row)
    requires !IsBlankRow(row) && !IsDayMarker(row)
    ensures RowStep(groups, st, row) == (st, LessonRecords(groups, row, st.dayOfWeek))
  {
  }

  /** The scan of the one-row sequence. */
  lemma ScanSingle(groups: seq<String>, row: Row)
    ensures Scan(groups, [row]) == RowStep(groups, Initial, row)
  {
    ScanSnoc(groups, [], row);
    assert [] + [row] == [row];
    assert Scan(groups, []) == (Initial, []);
    var step := RowStep(groups, Initial, row);
    assert [] + step.1 == step.1;
  }

  /** A lesson row right after a day marker gets the state that marker sets. */
  lemma ScanMarkerThenRow(groups: seq<String>, marker: Row, st: DayState, row: Row)
    requires !IsBlankRow(marker) && IsDayMarker(marker) && MarkerStep(Initial, marker[0]) == st
    requires !IsBlankRow(row) && !IsDayMarker(row)
    ensures Scan(groups, [marker, row]) == (st, LessonRecords(groups, row, st.dayOfWeek))
  {
    var out := LessonRecords(groups, row, st.dayOfWeek);
    RowStepOfMarker(groups, Initial, marker);
    ScanSingle(groups, marker);
    RowStepOfLesson(groups, st, row);
    ScanSnoc(groups, [marker], row);
    assert [marker] + [row] == [marker, row];
    assert [] + out == out;
  }

  /** A lesson row right after a marker of the documented shape gets that marker's weekday. */
  lemma ScanMarkerThenLesson(groups: seq<String>, weekday: String, date: String, row: Row)
    requires weekday != [] && IsTrimmed(weekday) && ',' !in weekday && '-' !in weekday
    requires IsTrimmed(date) && ',' !in date
    requires !IsBlankRow(row) && !IsDayMarker(row)
    ensures Scan(groups, [[MarkerCell(weekday, date)], row]) == (DayState(weekday, date), LessonRecords(groups, row, weekday))
  {
    MarkerRowIsMarker(weekday, date);
    MarkerRowSetsDay(Initial, weekday, date);
    ScanMarkerThenRow(groups, [MarkerCell(weekday, date)], DayState(weekday, date), row);
  }

  /** The documented example: after the marker "День - Понедельник, 23.06.2025" the lesson row
      ["1","Math","lecture","Smith","101"] of the single group G1 yields the Monday first-lesson
      record with times 08:15-09:00. */
  lemma ScanExample()
    ensures Scan(["G1"], [[MarkerCell("Понедельник", "23.06.2025")], ["1", "Math", "lecture", "Smith", "101"]]).1
            == [ScheduleRecord("G1", "Math", "Smith", "101", "08:15", "09:00", "Понедельник")]
  {
    var row: Row := ["1", "Math", "lecture", "Smith", "101"];
    var monday: String := "Понедельник";
    assert ',' !in monday && '-' !in monday;
    var date: String := "23.06.2025";
    assert ',' !in date;
    assert !IsDayMarker(row) by {
      assert ToLower("1") == "1";
    }
    ScanMarkerThenLesson(["G1"], monday, date, row);
    RowExampleRecords();
  }

  lemma RowExampleRecords()
    ensures LessonRecords(["G1"], ["1", "Math", "lecture", "Smith", "101"], "Понедельник")
            == [ScheduleRecord("G1", "Math", "Smith", "101", "08:15", "09:00", "Понедельник")]
  {
    var row: Row := ["1", "Math", "lecture", "Smith", "101"];
    TrimSpaceOfTrimmed("1");
    assert Atoi("1") == Some(1);
    RowExampleTimes();
    RowExampleCell();
    GroupRecordsNext(["G1"], row, 0, ("08:15", "09:00"), "Понедельник");
  }

  lemma RowExampleTimes()
    ensures LessonTimes("Понедельник", 1) == ("08:15", "09:00")
  {
    LessonTimesTable("Понедельник", 1);
    BellTimingsKeys("Понедельник");
  }

  lemma RowExampleCell()
    ensures GroupCell("G1", 0, ["1", "Math", "lecture", "Smith", "101"], ("08:15", "09:00"), "Понедельник")
            == [ScheduleRecord("G1", "Math", "Smith", "101", "08:15", "09:00", "Понедельник")]
  {
    var row: Row := ["1", "Math", "lecture", "Smith", "101"];
    assert IsTrimmed(row[1]) && IsTrimmed(row[3]) && IsTrimmed(row[4]);
    GroupCellFilled("G1", 0, row, ("08:15", "09:00"), "Понедельник");
  }

  /** The record of group `g`'s block: the trimmed subject, teacher and room (slots 0, 2 and
      3 of the block), the group's name, the given times and the given weekday. */
  function BlockRecord(name: String, g: nat, row: Row, times: (String, String), day: String): ScheduleRecord
    requires 1 + 4 * g + 3 < |row|
  {
    ScheduleRecord(name, TrimSpace(row[1 + 4 * g]), TrimSpace(row[3 + 4 * g]), TrimSpace(row[4 + 4 * g]),
                   times.0, times.1, day)
  }

  /** Any block: nothing when it is not filled, otherwise exactly its BlockRecord. */
  lemma GroupCellContents(name: String, g: nat, row: Row, times: (String, String), day: String)
    ensures !BlockFilled(row, g) ==> GroupCell(name, g, row, times, day) == []
    ensures BlockFilled(row, g) ==> GroupCell(name, g, row, times, day) == [BlockRecord(name, g, row, times, day)]
  {
  }

  /** `r` is the record of group `g`'s filled block. */
  predicate FromBlock(groups: seq<String>, row: Row, g: nat, times: (String, String), day: String, r: ScheduleRecord)
    requires g < |groups|
  {
    BlockFilled(row, g) && r == BlockRecord(groups[g], g, row, times, day)
  }

  /** A record of groups 0..k-1 of one lesson row is the BlockRecord of one filled block. */
  lemma {:induction false} GroupRecordsMember(groups: seq<String>, row: Row, k: nat, times: (String, String),
                                              day: String, r: ScheduleRecord)
    requires k <= |groups|
    ensures r in GroupRecords(groups, row, k, times, day)
            <==> exists g :: 0 <= g < k && FromBlock(groups, row, g, times, day, r)
  {
    if k > 0 {
      var prev := GroupRecords(groups, row, k - 1, times, day);
      var cell := GroupCell(groups[k - 1], k - 1, row, times, day);
      assert GroupRecords(groups, row, k, times, day) == prev + cell;
      assert r in cell <==> FromBlock(groups, row, k - 1, times, day, r) by {
        GroupCellContents(groups[k - 1], k - 1, row, times, day);
      }
      GroupRecordsMember(groups, row, k - 1, times, day, r);
      if r in prev {
        var g :| 0 <= g < k - 1 && FromBlock(groups, row, g, times, day, r);
        assert 0 <= g < k;
      }
      if exists g :: 0 <= g < k && FromBlock(groups, row, g, times, day, r) {
        var g :| 0 <= g < k && FromBlock(groups, row, g, times, day, r);
        if g < k - 1 {
          assert r in prev;
        } else {
          assert r in cell;
        }
      }
    }
  }

  /** The weekday and date the marker rows among `rows` leave, from the empty state: the scan's
      state without its records. */
  function DayAfter(rows: seq<Row>): DayState {
    if rows == [] then Initial
    else
      var last := rows[|rows| - 1];
      var st := DayAfter(rows[..|rows| - 1]);
      if !IsBlankRow(last) && IsDayMarker(last) then MarkerStep(st, last[0]) else st
  }

  /** The scan's state is DayAfter, whatever the groups. */
  lemma {:induction false} ScanDay(groups: seq<String>, rows: seq<Row>)
    ensures Scan(groups, rows).0 == DayAfter(rows)
  {
    if rows != [] {
      ScanDay(groups, rows[..|rows| - 1]);
    }
  }

  /** The lesson number in the first cell of a lesson row. */
  function LessonNumber(groups: seq<String>, row: Row): int
    requires IsLessonRow(groups, row)
  {
    Atoi(TrimSpace(row[0])).value
  }

  /** The record block `g` of data row `i` yields: its cells, the weekday the marker rows before
      row `i` set, and the bell times of row `i`'s lesson number on that weekday. */
  function LessonRecordAt(groups: seq<String>, rows: seq<Row>, i: nat, g: nat): ScheduleRecord
    requires i < |rows| && g < |groups| && IsLessonRow(groups, rows[i]) && BlockFilled(rows[i], g)
  {
    var day := DayAfter(rows[..i]).dayOfWeek;
    BlockRecord(groups[g], g, rows[i], LessonTimes(day, LessonNumber(groups, rows[i])), day)
  }

  /** One row's records: those of its filled blocks when it is a lesson row, none otherwise. */
  lemma RowStepContents(groups: seq<String>, st: DayState, row: Row, r: ScheduleRecord)
    ensures r in RowStep(groups, st, row).1
            <==> IsLessonRow(groups, row)
                 && exists g :: 0 <= g < |groups|
                                && FromBlock(groups, row, g, LessonTimes(st.dayOfWeek, LessonNumber(groups, row)), st.dayOfWeek, r)
  {
    if IsLessonRow(groups, row) {
      GroupRecordsMember(groups, row, |groups|, LessonTimes(st.dayOfWeek, LessonNumber(groups, row)), st.dayOfWeek, r);
    }
  }

  /** `r` is the record of block `g` of data row `i`, a lesson row with that block filled. */
  predicate ProducedAt(groups: seq<String>, rows: seq<Row>, i: nat, g: nat, r: ScheduleRecord)
    requires i < |rows| && g < |groups|
  {
    IsLessonRow(groups, rows[i]) && BlockFilled(rows[i], g) && r == LessonRecordAt(groups, rows, i, g)
  }

  /** Adding a row at the end leaves what the earlier rows produce unchanged. */
  lemma ProducedAtSnoc(groups: seq<String>, rows: seq<Row>, i: nat, g: nat, r: ScheduleRecord)
    requires i < |rows| - 1 && g < |groups|
    ensures ProducedAt(groups, rows, i, g, r) <==> ProducedAt(groups, rows[..|rows| - 1], i, g, r)
  {
    assert rows[..|rows| - 1][..i] == rows[..i];
  }

  /** The last row produces what its own step emits, with the state the earlier rows leave. */
  lemma ProducedAtLast(groups: seq<String>, rows: seq<Row>, g: nat, r: ScheduleRecord)
    requires |rows| > 0 && g < |groups|
    ensures var n := |rows| - 1;
            ProducedAt(groups, rows, n, g, r)
            <==> IsLessonRow(groups, rows[n])
                 && FromBlock(groups, rows[n], g, LessonTimes(DayAfter(rows[..n]).dayOfWeek, LessonNumber(groups, rows[n])),
                              DayAfter(rows[..n]).dayOfWeek, r)
  {
  }

  /** Some filled block of some lesson row among `rows` produces `r`. */
  ghost predicate Produced(groups: seq<String>, rows: seq<Row>, r: ScheduleRecord) {
    exists i, g :: 0 <= i < |rows| && 0 <= g < |groups| && ProducedAt(groups, rows, i, g, r)
  }

  /** The last of `rows` is a lesson row one of whose filled blocks produces `r`, with the
      weekday the earlier rows leave. */
  ghost predicate LastProduces(groups: seq<String>, rows: seq<Row>, r: ScheduleRecord)
    requires |rows| > 0
  {
    var n := |rows| - 1;
    var day := DayAfter(rows[..n]).dayOfWeek;
    IsLessonRow(groups, rows[n])
    && exists g :: 0 <= g < |groups| && FromBlock(groups, rows[n], g, LessonTimes(day, LessonNumber(groups, rows[n])), day, r)
  }

  lemma ProducedAtLastProduces(groups: seq<String>, rows: seq<Row>, i: nat, g: nat, r: ScheduleRecord)
    requires i == |rows| - 1 && g < |groups| && ProducedAt(groups, rows, i, g, r)
    ensures LastProduces(groups, rows, r)
  {
    ProducedAtLast(groups, rows, g, r);
  }

  lemma ProducedSnocOut(groups: seq<String>, rows: seq<Row>, r: ScheduleRecord)
    requires |rows| > 0 && Produced(groups, rows, r)
    ensures Produced(groups, rows[..|rows| - 1], r) || LastProduces(groups, rows, r)
  {
    var i, g :| 0 <= i < |rows| && 0 <= g < |groups| && ProducedAt(groups, rows, i, g, r);
    if i < |rows| - 1 {
      assert Produced(groups, rows[..|rows| - 1], r) by {
        ProducedAtSnoc(groups, rows, i, g, r);
      }
    } else {
      ProducedAtLastProduces(groups, rows, i, g, r);
    }
  }

  lemma ProducedSnocEarlier(groups: seq<String>, rows: seq<Row>, r: ScheduleRecord)
    requires |rows| > 0 && Produced(groups, rows[..|rows| - 1], r)
    ensures Produced(groups, rows, r)
  {
    var i, g :| 0 <= i < |rows| - 1 && 0 <= g < |groups| && ProducedAt(groups, rows[..|rows| - 1], i, g, r);
    ProducedAtSnoc(groups, rows, i, g, r);
  }

  lemma ProducedSnocLast(groups: seq<String>, rows: seq<Row>, r: ScheduleRecord)
    requires |rows| > 0 && LastProduces(groups, rows, r)
    ensures Produced(groups, rows, r)
  {
    var n := |rows| - 1;
    var day := DayAfter(rows[..n]).dayOfWeek;
    var g :| 0 <= g < |groups| && FromBlock(groups, rows[n], g, LessonTimes(day, LessonNumber(groups, rows[n])), day, r);
    ProducedAtLast(groups, rows, g, r);
  }

  /** What one more row adds to Produced: the records its own filled blocks produce. */
  lemma ProducedSnoc(groups: seq<String>, rows: seq<Row>, r: ScheduleRecord)
    requires |rows| > 0
    ensures Produced(groups, rows, r) <==> Produced(groups, rows[..|rows| - 1], r) || LastProduces(groups, rows, r)
  {
    if Produced(groups, rows, r) {
      ProducedSnocOut(groups, rows, r);
    }
    if Produced(groups, rows[..|rows| - 1], r) {
      ProducedSnocEarlier(groups, rows, r);
    }
    if LastProduces(groups, rows, r) {
      ProducedSnocLast(groups, rows, r);
    }
  }

  /** A record comes out of the scan exactly when it is the LessonRecordAt of some filled block of
      some lesson row: the cells of that block, the current weekday, and its lesson's times. */
  lemma {:induction false} ScanContents(groups: seq<String>, rows: seq<Row>, r: ScheduleRecord)
    ensures r in Scan(groups, rows).1 <==> Produced(groups, rows, r)
  {
    if rows != [] {
      var n := |rows| - 1;
      var init, last := rows[..n], rows[n];
      var st := Scan(groups, init).0;
      assert Scan(groups, rows).1 == Scan(groups, init).1 + RowStep(groups, st, last).1;
      ScanContents(groups, init, r);
      ScanDay(groups, init);
      RowStepContents(groups, st, last, r);
      ProducedSnoc(groups, rows, r);
    }
  }

  /** A successful parse returns exactly the LessonRecordAt records of the data rows from row 5. */
  lemma ParseScheduleContents(grid: Grid, r: ScheduleRecord)
    requires ParseSchedule(grid).Ok?
    ensures var groups, rows := GroupNames(grid[1]), grid[5..];
            r in ParseSchedule(grid).value <==> Produced(groups, rows, r)
  {
    ScanContents(GroupNames(grid[1]), grid[5..], r);
  }

  /** A block whose subject, teacher and classroom cells are already trimmed yields them as
      they stand. */
  lemma GroupCellFilled(name: String, g: nat, row: Row, times: (String, String), day: String)
    requires 1 + 4 * g + 3 < |row| && row[1 + 4 * g] != []
    requires IsTrimmed(row[1 + 4 * g]) && IsTrimmed(row[3 + 4 * g]) && IsTrimmed(row[4 + 4 * g])
    ensures GroupCell(name, g, row, times, day)
            == [ScheduleRecord(name, row[1 + 4 * g], row[3 + 4 * g], row[4 + 4 * g], times.0, times.1, day)]
  {
    TrimSpaceOfTrimmed(row[1 + 4 * g]);
    TrimSpaceOfTrimmed(row[3 + 4 * g]);
    TrimSpaceOfTrimmed(row[4 + 4 * g]);
  }
}
