/** The CSV export client of package gsheet: the sheet URL -> export URL rewrite, and the
    header keyed timetable parser (one header row naming the seven columns, then one lesson
    per row). The parser is textually the same in package gsheetapi, which shares it. */
module GSheet {
  import opened Text
  import opened Convert
  import opened Sheets
  import GSheets

  /** The query every export URL ends with. */
  const ExportQuery: String := "?format=csv&gid=0"

  /** The path rewrite of convertToExportURL, applied after the query is cut: a trailing
      "/edit" becomes "/export"; else a path holding "/d/" gets "export" as its last
      segment, with a '/' added only when it lacks a trailing one; else nothing changes. */
  function ExportPath(base: String): (path: String)
    ensures '?' !in base ==> '?' !in path
  {
    if HasSuffix(base, "/edit") then
      assert '?' !in "/export";
      base[..|base| - 5] + "/export"
    else if Contains(base, "/d/") then
      assert '?' !in "export" && '?' !in "/";
      (if HasSuffix(base, "/") then base else base + "/") + "export"
    else base
  }

  /** convertToExportURL: drop everything from the first '?', rewrite the path, then append
      the CSV export query. */
  function ConvertToExportURL(sheetURL: String): (exportURL: String)
  {
    ExportPath(Before(sheetURL, '?')) + ExportQuery
  }

  /** The export query holds one '?', at its front. */
  lemma ExportQueryMarks()
    ensures multiset(ExportQuery)['?'] == 1
  {
    assert ExportQuery == ['?'] + ExportQuery[1..];
    assert '?' !in ExportQuery[1..];
  }

  /** The export URL is a path without '?' followed by the export query: it ends with the
      query and holds exactly one '?'. */
  lemma ExportURLQuery(sheetURL: String)
    ensures HasSuffix(ConvertToExportURL(sheetURL), ExportQuery)
    ensures multiset(ConvertToExportURL(sheetURL))['?'] == 1
  {
    var path := ExportPath(Before(sheetURL, '?'));
    assert '?' !in path;
    assert multiset(path)['?'] == 0;
    ExportQueryMarks();
    assert multiset(path + ExportQuery) == multiset(path) + multiset(ExportQuery);
  }

  /** The rewritten path of a document link ends in "/export": "/edit" is replaced, and a
      "/d/" path gains the segment after exactly one added or existing '/'. Any other path
      is kept as it is. */
  lemma ExportPathCases(base: String)
    ensures HasSuffix(base, "/edit") ==> ExportPath(base) == base[..|base| - 5] + "/export"
    ensures HasSuffix(base, "/edit") || Contains(base, "/d/") ==> HasSuffix(ExportPath(base), "/export")
    ensures !HasSuffix(base, "/edit") && Contains(base, "/d/") ==>
              ExportPath(base) == (if HasSuffix(base, "/") then base[..|base| - 1] else base) + "/export"
    ensures !HasSuffix(base, "/edit") && !Contains(base, "/d/") ==> ExportPath(base) == base
  {
    if !HasSuffix(base, "/edit") && Contains(base, "/d/") && HasSuffix(base, "/") {
      assert base == base[..|base| - 1] + "/";
      assert base + "export" == base[..|base| - 1] + "/export";
    }
  }

  /** The edit link of a document becomes its export link, which names the same
      document: the regular expression finds the same spreadsheet ID in it. */
  lemma ExportURLKeepsId(key: String, query: String)
    requires key != [] && '/' !in key && '?' !in key
    requires query == [] || query[0] == '?'
    ensures ConvertToExportURL(IdMarker + key + "/edit" + query)
            == IdMarker + key + "/export" + ExportQuery
    ensures SpreadsheetIdMatch(ConvertToExportURL(IdMarker + key + "/edit" + query)) == key
  {
    var head := IdMarker + key + "/edit";
    assert '?' !in head by {
      assert forall k :: 0 <= k < |head| ==> head[k] in IdMarker || head[k] in key || head[k] in "/edit";
    }
    BeforeAppend(head, query, '?');
    assert Before(head + query, '?') == head;
    assert HasSuffix(head, "/edit");
    assert head[..|head| - 5] == IdMarker + key;
    assert IdMarker + key + "/export" + ExportQuery == IdMarker + key + ("/export" + ExportQuery);
    GSheets.SpreadsheetIdMatchOfPath(key, "/export" + ExportQuery);
  }

  /** The seven columns the timetable sheet must name, in the order they are checked. */
  const ScheduleColumns: seq<String> :=
    [HeaderGroup, HeaderSubject, HeaderTeacher, HeaderClassroom, HeaderTimeStart, HeaderTimeEnd, HeaderDayOfWeek]

  /** One data row: skipped when shorter than the header or when the trimmed group or
      subject cell is empty, otherwise the seven trimmed cells. */
  function ScheduleRow(columns: map<String, nat>, width: nat, row: Row): (r: Option<ScheduleRecord>)
    requires Fits(columns, width)
  {
    if |row| < width then None
    else
      var record := ScheduleRecord(
        Cell(row, columns, HeaderGroup), Cell(row, columns, HeaderSubject),
        Cell(row, columns, HeaderTeacher), Cell(row, columns, HeaderClassroom),
        Cell(row, columns, HeaderTimeStart), Cell(row, columns, HeaderTimeEnd),
        Cell(row, columns, HeaderDayOfWeek));
      if record.groupName == [] || record.subject == [] then None else Some(record)
  }

  /** What each data row yields, row by row. */
  function ScheduleVerdicts(columns: map<String, nat>, width: nat, rows: seq<Row>): (vs: seq<Option<ScheduleRecord>>)
    requires Fits(columns, width)
    ensures |vs| == |rows|
    ensures forall i :: 0 <= i < |rows| ==> vs[i] == ScheduleRow(columns, width, rows[i])
  {
    seq(|rows|, i requires 0 <= i < |rows| => ScheduleRow(columns, width, rows[i]))
  }

  /** ParseScheduleRecords as a function of the grid. */
  function ParseSchedule(grid: Grid): (r: Result<seq<ScheduleRecord>>)
  {
    if |grid| < 2 then Err(TooFewRows) else ParseUnderHeader(grid[0], grid[1..])
  }

  /** The part after the row-count check: the required names, then the data rows. */
  function ParseUnderHeader(header: Row, rows: seq<Row>): (r: Result<seq<ScheduleRecord>>)
  {
    var columns := ColumnMap(header);
    var missing := FirstMissing(columns, ScheduleColumns);
    if missing.Some? then Err(MissingColumn(missing.value))
    else
      assert ScheduleColumns[0] in columns;
      ColumnMapFits(header, HeaderGroup);
      Ok(Kept(ScheduleVerdicts(columns, |header|, rows)))
  }

  /** The body of the row loop: the length check, the seven trimmed cells, the empty check. */
  method ReadScheduleRow(columns: map<String, nat>, width: nat, row: Row) returns (r: Option<ScheduleRecord>)
    requires Fits(columns, width)
    ensures r == ScheduleRow(columns, width, row)
  {
    if |row| < width {
      return None;
    }
    var record := ScheduleRecord(
      Cell(row, columns, HeaderGroup), Cell(row, columns, HeaderSubject),
      Cell(row, columns, HeaderTeacher), Cell(row, columns, HeaderClassroom),
      Cell(row, columns, HeaderTimeStart), Cell(row, columns, HeaderTimeEnd),
      Cell(row, columns, HeaderDayOfWeek));
    if record.groupName == [] || record.subject == [] {
      return None;
    }
    return Some(record);
  }

  /** The row loop over the data rows. */
  method ScanScheduleRows(columns: map<String, nat>, width: nat, rows: seq<Row>) returns (records: seq<ScheduleRecord>)
    requires Fits(columns, width)
    ensures records == Kept(ScheduleVerdicts(columns, width, rows))
  {
    ghost var vs := ScheduleVerdicts(columns, width, rows);
    records := [];
    var i := 0;
    assert vs[..0] == [];
    while i < |rows|
      invariant 0 <= i <= |rows|
      invariant records == Kept(vs[..i])
    {
      assert vs[..i + 1][..i] == vs[..i];
      var v := ReadScheduleRow(columns, width, rows[i]);
      assert vs[..i + 1][i] == v;
      if v.Some? {
        records := records + [v.value];
      }
      i := i + 1;
    }
    assert vs[..i] == vs;
  }

  /** ParseScheduleRecords: the row-count check, the header loop, the required-column
      check, then one record per complete, non-empty row, in row order. */
  method ParseScheduleRecords(csvRecords: Grid) returns (r: Result<seq<ScheduleRecord>>)
    ensures r == ParseSchedule(csvRecords)
  {
    if |csvRecords| < 2 {
      return Err(TooFewRows);
    }
    var header := csvRecords[0];
    var columns := BuildColumns(header);
    var missing := CheckRequired(columns, ScheduleColumns);
    if missing.Some? {
      return Err(MissingColumn(missing.value));
    }
    assert ScheduleColumns[0] in columns;
    ColumnMapFits(header, HeaderGroup);
    var records := ScanScheduleRows(columns, |header|, csvRecords[1..]);
    return Ok(records);
  }

  /** The parser fails exactly when there is no data row or the header lacks one of the
      seven names: the first lacking name in checking order is reported. */
  lemma ParseScheduleFailure(grid: Grid)
    ensures ParseSchedule(grid).Err? <==>
              |grid| < 2 || exists k :: 0 <= k < |ScheduleColumns| && ScheduleColumns[k] !in TrimAll(grid[0])
    ensures |grid| < 2 ==> ParseSchedule(grid) == Err(TooFewRows)
    ensures |grid| >= 2 && ParseSchedule(grid).Err? ==>
              ParseSchedule(grid).error.MissingColumn?
              && ParseSchedule(grid).error.name in ScheduleColumns
              && ParseSchedule(grid).error.name !in TrimAll(grid[0])
  {
  }

  /** A row yields a record exactly when it is as wide as the header and its trimmed group
      and subject cells are not empty; the record's fields are the trimmed cells under the
      seven names. */
  lemma ScheduleRowCases(columns: map<String, nat>, width: nat, row: Row)
    requires Fits(columns, width)
    ensures ScheduleRow(columns, width, row).Some? <==>
              |row| >= width && Cell(row, columns, HeaderGroup) != [] && Cell(row, columns, HeaderSubject) != []
    ensures ScheduleRow(columns, width, row).Some? ==>
              var r := ScheduleRow(columns, width, row).value;
              && r.groupName == Cell(row, columns, HeaderGroup) && r.subject == Cell(row, columns, HeaderSubject)
              && r.teacher == Cell(row, columns, HeaderTeacher) && r.classroom == Cell(row, columns, HeaderClassroom)
              && r.timeStart == Cell(row, columns, HeaderTimeStart) && r.timeEnd == Cell(row, columns, HeaderTimeEnd)
              && r.dayOfWeek == Cell(row, columns, HeaderDayOfWeek)
  {
  }

  /** The records are exactly those of the data rows that yield one. */
  lemma ParseScheduleRecordsFrom(grid: Grid, r: ScheduleRecord)
    requires ParseSchedule(grid).Ok?
    ensures Fits(ColumnMap(grid[0]), |grid[0]|)
    ensures r in ParseSchedule(grid).value <==>
              exists row :: row in grid[1..] && ScheduleRow(ColumnMap(grid[0]), |grid[0]|, row) == Some(r)
  {
    var columns := ColumnMap(grid[0]);
    assert ScheduleColumns[0] in columns;
    ColumnMapFits(grid[0], HeaderGroup);
    var vs := ScheduleVerdicts(columns, |grid[0]|, grid[1..]);
    KeptMember(vs, r);
    if r in ParseSchedule(grid).value {
      var i :| 0 <= i < |vs| && vs[i] == Some(r);
      assert grid[1..][i] in grid[1..];
    }
    if exists row :: row in grid[1..] && ScheduleRow(columns, |grid[0]|, row) == Some(r) {
      var row :| row in grid[1..] && ScheduleRow(columns, |grid[0]|, row) == Some(r);
      var i :| 0 <= i < |grid[1..]| && grid[1..][i] == row;
      assert vs[i] == Some(r);
    }
  }

  /** Records keep the order of their rows: parsing the data rows `xs + ys` under one header
      gives the records of `xs` followed by those of `ys`. */
  lemma ParseUnderHeaderAppend(header: Row, xs: seq<Row>, ys: seq<Row>)
    requires ParseUnderHeader(header, xs).Ok?
    ensures ParseUnderHeader(header, ys).Ok? && ParseUnderHeader(header, xs + ys).Ok?
    ensures ParseUnderHeader(header, xs + ys).value
            == ParseUnderHeader(header, xs).value + ParseUnderHeader(header, ys).value
  {
    var columns := ColumnMap(header);
    assert ScheduleColumns[0] in columns;
    ColumnMapFits(header, HeaderGroup);
    ScheduleRowsAppend(columns, |header|, xs, ys);
  }

  lemma ScheduleRowsAppend(columns: map<String, nat>, width: nat, xs: seq<Row>, ys: seq<Row>)
    requires Fits(columns, width)
    ensures Kept(ScheduleVerdicts(columns, width, xs + ys))
            == Kept(ScheduleVerdicts(columns, width, xs)) + Kept(ScheduleVerdicts(columns, width, ys))
  {
    var all, front, back := ScheduleVerdicts(columns, width, xs + ys),
                            ScheduleVerdicts(columns, width, xs), ScheduleVerdicts(columns, width, ys);
    assert all == front + back by {
      forall i | 0 <= i < |all|
        ensures all[i] == (front + back)[i]
      {
        if i < |xs| {
          assert (xs + ys)[i] == xs[i];
        } else {
          assert (xs + ys)[i] == ys[i - |xs|];
        }
      }
    }
    KeptAppend(front, back);
  }

  /** The same for whole grids: a sheet whose data rows are `xs + ys` parses to the
      records of the sheet with `xs` followed by those of the sheet with `ys`. */
  lemma ParseScheduleAppend(header: Row, xs: seq<Row>, ys: seq<Row>)
    requires xs != [] && ys != []
    requires ParseSchedule([header] + xs).Ok?
    ensures ParseSchedule([header] + ys).Ok? && ParseSchedule([header] + (xs + ys)).Ok?
    ensures ParseSchedule([header] + (xs + ys)).value
            == ParseSchedule([header] + xs).value + ParseSchedule([header] + ys).value
  {
    assert ([header] + xs)[0] == header && ([header] + xs)[1..] == xs;
    assert ([header] + ys)[0] == header && ([header] + ys)[1..] == ys;
    assert ([header] + (xs + ys))[0] == header && ([header] + (xs + ys))[1..] == xs + ys;
    ParseUnderHeaderAppend(header, xs, ys);
  }

  /** When a name heads several columns, the last of them is read. */
  lemma DuplicateHeaderLastWins(header: Row, row: Row, name: String, j: nat)
    requires j < |header| <= |row| && TrimSpace(header[j]) == name
    requires forall k :: j < k < |header| ==> TrimSpace(header[k]) != name
    ensures Fits(ColumnMap(header), |header|)
    ensures Cell(row, ColumnMap(header), name) == TrimSpace(row[j])
  {
    var m := ColumnMap(header);
    assert TrimAll(header)[j] == name;
    assert name in m;
    ColumnMapFits(header, name);
    var c := m[name];
    assert c == j;
  }
}
