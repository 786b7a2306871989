/** The Sheets-API client of package gsheetapi: the header keyed correction parser (eight
    required names, an optional original-subject column) and the spreadsheet-ID extraction.
    Its timetable parser is textually that of package gsheet (GSheet.ParseScheduleRecords). */
module GSheetApi {
  import opened Text
  import opened Convert
  import opened Sheets
  import GSheets

  /** The eight columns a correction sheet must name, in the order they are checked. */
  const ChangeColumns: seq<String> :=
    [HeaderGroup, HeaderDate, HeaderTimeStart, HeaderTimeEnd, HeaderSubject, HeaderTeacher, HeaderClassroom, HeaderChangeType]

  /** The original-subject cell: read only when the header names it and the row reaches it. */
  function OriginalSubjectCell(columns: map<String, nat>, row: Row): (cell: String)
  {
    if HeaderOriginalSubject in columns && columns[HeaderOriginalSubject] < |row| then
      TrimSpace(row[columns[HeaderOriginalSubject]])
    else []
  }

  /** One data row: skipped when shorter than the header, when its trimmed date cell is not a
      DD.MM.YYYY date, or when its trimmed group or subject cell is empty; otherwise the
      trimmed cells, the change type as written. */
  function ChangeRow(columns: map<String, nat>, width: nat, row: Row): (r: Option<ChangeRecord>)
    requires Fits(columns, width)
  {
    if |row| < width then None
    else
      match ParseDotDate(Cell(row, columns, HeaderDate))
      case None => None
      case Some(date) =>
        var record := ChangeRecord(
          Cell(row, columns, HeaderGroup), date,
          Cell(row, columns, HeaderTimeStart), Cell(row, columns, HeaderTimeEnd),
          Cell(row, columns, HeaderSubject), Cell(row, columns, HeaderTeacher),
          Cell(row, columns, HeaderClassroom), Cell(row, columns, HeaderChangeType),
          OriginalSubjectCell(columns, row));
        if record.groupName == [] || record.subject == [] then None else Some(record)
  }

  /** What each data row yields, row by row. */
  function ChangeVerdicts(columns: map<String, nat>, width: nat, rows: seq<Row>): (vs: seq<Option<ChangeRecord>>)
    requires Fits(columns, width)
    ensures |vs| == |rows|
    ensures forall i :: 0 <= i < |rows| ==> vs[i] == ChangeRow(columns, width, rows[i])
  {
    seq(|rows|, i requires 0 <= i < |rows| => ChangeRow(columns, width, rows[i]))
  }

  /** ParseChangeRecords as a function of the grid. */
  function ParseChanges(grid: Grid): (r: Result<seq<ChangeRecord>>)
  {
    if |grid| < 2 then Err(TooFewRows) else ParseUnderHeader(grid[0], grid[1..])
  }

  /** The part after the row-count check: the required names, then the data rows. */
  function ParseUnderHeader(header: Row, rows: seq<Row>): (r: Result<seq<ChangeRecord>>)
  {
    var columns := ColumnMap(header);
    var missing := FirstMissing(columns, ChangeColumns);
    if missing.Some? then Err(MissingColumn(missing.value))
    else
      assert ChangeColumns[0] in columns;
      ColumnMapFits(header, HeaderGroup);
      Ok(Kept(ChangeVerdicts(columns, |header|, rows)))
  }

  /** The body of the row loop. */
  method ReadChangeRow(columns: map<String, nat>, width: nat, row: Row) returns (r: Option<ChangeRecord>)
    requires Fits(columns, width)
    ensures r == ChangeRow(columns, width, row)
  {
    if |row| < width {
      return None;
    }
    var date := ParseDotDate(Cell(row, columns, HeaderDate));
    if date.None? {
      return None;
    }
    var record := ChangeRecord(
      Cell(row, columns, HeaderGroup), date.value,
      Cell(row, columns, HeaderTimeStart), Cell(row, columns, HeaderTimeEnd),
      Cell(row, columns, HeaderSubject), Cell(row, columns, HeaderTeacher),
      Cell(row, columns, HeaderClassroom), Cell(row, columns, HeaderChangeType), []);
    if HeaderOriginalSubject in columns && columns[HeaderOriginalSubject] < |row| {
      record := record.(originalSubject := TrimSpace(row[columns[HeaderOriginalSubject]]));
    }
    if record.groupName == [] || record.subject == [] {
      return None;
    }
    return Some(record);
  }

  /** The row loop over the data rows. */
  method ScanChangeRows(columns: map<String, nat>, width: nat, rows: seq<Row>) returns (records: seq<ChangeRecord>)
    requires Fits(columns, width)
    ensures records == Kept(ChangeVerdicts(columns, width, rows))
  {
    ghost var vs := ChangeVerdicts(columns, width, rows);
    records := [];
    var i := 0;
    assert vs[..0] == [];
    while i < |rows|
      invariant 0 <= i <= |rows|
      invariant records == Kept(vs[..i])
    {
      assert vs[..i + 1][..i] == vs[..i];
      var v := ReadChangeRow(columns, width, rows[i]);
      assert vs[..i + 1][i] == v;
      if v.Some? {
        records := records + [v.value];
      }
      i := i + 1;
    }
    assert vs[..i] == vs;
  }

  /** ParseChangeRecords: the row-count check, the header loop, the required-column check,
      then one record per complete, dated, non-empty row, in row order. */
  method ParseChangeRecords(csvRecords: Grid) returns (r: Result<seq<ChangeRecord>>)
    ensures r == ParseChanges(csvRecords)
  {
    if |csvRecords| < 2 {
      return Err(TooFewRows);
    }
    var header := csvRecords[0];
    var columns := BuildColumns(header);
    var missing := CheckRequired(columns, ChangeColumns);
    if missing.Some? {
      return Err(MissingColumn(missing.value));
    }
    assert ChangeColumns[0] in columns;
    ColumnMapFits(header, HeaderGroup);
    var records := ScanChangeRows(columns, |header|, csvRecords[1..]);
    return Ok(records);
  }

  /** The parser fails exactly when there is no data row or the header lacks one of the
      eight names, teacher and classroom included. */
  lemma ParseChangesFailure(grid: Grid)
    ensures ParseChanges(grid).Err? <==>
              |grid| < 2 || exists k :: 0 <= k < |ChangeColumns| && ChangeColumns[k] !in TrimAll(grid[0])
    ensures |grid| < 2 ==> ParseChanges(grid) == Err(TooFewRows)
    ensures |grid| >= 2 && ParseChanges(grid).Err? ==>
              ParseChanges(grid).error.MissingColumn?
              && ParseChanges(grid).error.name in ChangeColumns
              && ParseChanges(grid).error.name !in TrimAll(grid[0])
  {
  }

  /** A row yields a record exactly when it is as wide as the header, its date cell parses
      and its group and subject cells are not empty. */
  lemma ChangeRowSkips(columns: map<String, nat>, width: nat, row: Row)
    requires Fits(columns, width)
    ensures ChangeRow(columns, width, row).Some? <==>
              && |row| >= width
              && ParseDotDate(Cell(row, columns, HeaderDate)).Some?
              && Cell(row, columns, HeaderGroup) != [] && Cell(row, columns, HeaderSubject) != []
  {
  }

  /** The record of a row holds its trimmed cells and its parsed date; the change type is the
      trimmed cell as written, the original subject its cell when the header names it, else empty. */
  lemma ChangeRowFields(columns: map<String, nat>, width: nat, row: Row)
    requires Fits(columns, width) && ChangeRow(columns, width, row).Some?
    ensures |row| >= width
    ensures var r := ChangeRow(columns, width, row).value;
              && r.groupName == Cell(row, columns, HeaderGroup)
              && r.date == ParseDotDate(Cell(row, columns, HeaderDate)).value
              && r.timeStart == Cell(row, columns, HeaderTimeStart) && r.timeEnd == Cell(row, columns, HeaderTimeEnd)
              && r.subject == Cell(row, columns, HeaderSubject) && r.teacher == Cell(row, columns, HeaderTeacher)
              && r.classroom == Cell(row, columns, HeaderClassroom) && r.changeType == Cell(row, columns, HeaderChangeType)
              && (HeaderOriginalSubject in columns ==> r.originalSubject == Cell(row, columns, HeaderOriginalSubject))
              && (HeaderOriginalSubject !in columns ==> r.originalSubject == [])
  {
  }

  /** The records are exactly those of the data rows that yield one. */
  lemma ParseChangesRecordsFrom(grid: Grid, r: ChangeRecord)
    requires ParseChanges(grid).Ok?
    ensures Fits(ColumnMap(grid[0]), |grid[0]|)
    ensures r in ParseChanges(grid).value <==>
              exists row :: row in grid[1..] && ChangeRow(ColumnMap(grid[0]), |grid[0]|, row) == Some(r)
  {
    var columns := ColumnMap(grid[0]);
    assert ChangeColumns[0] in columns;
    ColumnMapFits(grid[0], HeaderGroup);
    var vs := ChangeVerdicts(columns, |grid[0]|, grid[1..]);
    KeptMember(vs, r);
    if r in ParseChanges(grid).value {
      var i :| 0 <= i < |vs| && vs[i] == Some(r);
      assert grid[1..][i] in grid[1..];
    }
    if exists row :: row in grid[1..] && ChangeRow(columns, |grid[0]|, row) == Some(r) {
      var row :| row in grid[1..] && ChangeRow(columns, |grid[0]|, row) == Some(r);
      var i :| 0 <= i < |grid[1..]| && grid[1..][i] == row;
      assert vs[i] == Some(r);
    }
  }

  lemma ChangeRowsAppend(columns: map<String, nat>, width: nat, xs: seq<Row>, ys: seq<Row>)
    requires Fits(columns, width)
    ensures Kept(ChangeVerdicts(columns, width, xs + ys))
            == Kept(ChangeVerdicts(columns, width, xs)) + Kept(ChangeVerdicts(columns, width, ys))
  {
    var all, front, back := ChangeVerdicts(columns, width, xs + ys),
                            ChangeVerdicts(columns, width, xs), ChangeVerdicts(columns, width, ys);
    assert all == front + back by {
      forall i | 0 <= i < |all|
        ensures all[i] == (front + back)[i]
      {
        if i < |xs| {
          assert (xs + ys)[i] == xs[i];
        } else {
          assert (xs + ys)[i] == ys[i - |xs|];
        }
      }
    }
    KeptAppend(front, back);
  }

  /** Records keep the order of their rows: a sheet whose data rows are `xs + ys` parses to
      the records of the sheet with `xs` followed by those of the sheet with `ys`. */
  lemma ParseChangesAppend(header: Row, xs: seq<Row>, ys: seq<Row>)
    requires xs != [] && ys != []
    requires ParseChanges([header] + xs).Ok?
    ensures ParseChanges([header] + ys).Ok? && ParseChanges([header] + (xs + ys)).Ok?
    ensures ParseChanges([header] + (xs + ys)).value
            == ParseChanges([header] + xs).value + ParseChanges([header] + ys).value
  {
    assert ([header] + xs)[0] == header && ([header] + xs)[1..] == xs;
    assert ([header] + ys)[0] == header && ([header] + ys)[1..] == ys;
    assert ([header] + (xs + ys))[0] == header && ([header] + (xs + ys))[1..] == xs + ys;
    var columns := ColumnMap(header);
    assert ChangeColumns[0] in columns;
    ColumnMapFits(header, HeaderGroup);
    ChangeRowsAppend(columns, |header|, xs, ys);
  }

  /** extractSpreadsheetID: cut the URL at its first '?' only, then take the regular
      expression's capture, or "" without a match. */
  function ExtractSpreadsheetID(sheetURL: String): (id: String)
    ensures '/' !in id && '?' !in id
    ensures id == [] <==> forall i :: 0 <= i <= |Before(sheetURL, '?')| ==> !IdMatchAt(Before(sheetURL, '?'), i)
  {
    var id := SpreadsheetIdMatch(Before(sheetURL, '?'));
    assert forall k :: 0 <= k < |id| ==> id[k] != '?';
    id
  }

  /** The ID of a document link is the path segment after the marker. */
  lemma ExtractSpreadsheetIDOfPath(key: String, tail: String)
    requires key != [] && '/' !in key && '?' !in key
    requires tail == [] || tail[0] == '/' || tail[0] == '?'
    ensures ExtractSpreadsheetID(IdMarker + key + tail) == key
  {
    var head := IdMarker + key;
    assert '?' !in head by {
      assert forall k :: 0 <= k < |head| ==> head[k] in IdMarker || head[k] in key;
    }
    var rest := if tail != [] && tail[0] == '?' then [] else Before(tail, '?');
    assert Before(tail, '?') == rest;
    BeforeAppend(head, tail, '?');
    assert head + tail == IdMarker + key + tail;
    GSheets.SpreadsheetIdMatchOfPath(key, rest);
  }

  /** Only the query is cut: a fragment after the ID stays in it, where the gsheets client
      (which also cuts at '#') returns the bare ID. */
  lemma FragmentStaysInId(key: String)
    requires key != [] && '/' !in key && '?' !in key && '#' !in key
    ensures ExtractSpreadsheetID(IdMarker + key + "#gid=0") == key + "#gid=0"
    ensures GSheets.ExtractSpreadsheetID(IdMarker + key + "#gid=0") == key
  {
    assert '/' !in key + "#gid=0" && '?' !in key + "#gid=0";
    assert IdMarker + key + "#gid=0" == IdMarker + (key + "#gid=0") + [];
    ExtractSpreadsheetIDOfPath(key + "#gid=0", []);
    GSheets.ExtractSpreadsheetIDOfPath(key, "#gid=0");
  }
}
