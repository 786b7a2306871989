/** The scraper service of package scraper: its own header keyed correction parser, the
    hash gate and create/notify loop of ScrapeScheduleChanges, and the grouping of timetable
    records into the JSON timetable (convertToScheduleData). */
module Scraper {
  import opened Text
  import opened Convert
  import opened Sheets
  import opened Schedule

  // ---------------------------------------------------------------------------------------
  // parseChangeRecords

  /** The six columns a correction sheet must name, in the order they are checked. Teacher,
      classroom and original subject are not among them. */
  const RequiredChangeColumns: seq<String> :=
    [HeaderGroup, HeaderDate, HeaderTimeStart, HeaderTimeEnd, HeaderSubject, HeaderChangeType]

  /** One data row: skipped when shorter than the header, when its trimmed date cell is not a
      DD.MM.YYYY date, or when its trimmed group or subject cell is empty; otherwise the
      trimmed cells. Every cell goes through Go's map lookup, so a name the header lacks
      reads column 0. */
  function ChangeRow(columns: map<String, nat>, width: nat, row: Row): (r: Option<ChangeRecord>)
    requires Fits(columns, width)
  {
    if |row| < width then None
    else
      match ParseDotDate(Cell(row, columns, HeaderDate))
      case None => None
      case Some(date) =>
        var record := ChangeRecord(
          Cell(row, columns, HeaderGroup), date,
          Cell(row, columns, HeaderTimeStart), Cell(row, columns, HeaderTimeEnd),
          Cell(row, columns, HeaderSubject), Cell(row, columns, HeaderTeacher),
          Cell(row, columns, HeaderClassroom), Cell(row, columns, HeaderChangeType),
          Cell(row, columns, HeaderOriginalSubject));
        if record.groupName == [] || record.subject == [] then None else Some(record)
  }

  /** What each data row yields, row by row. */
  function ChangeVerdicts(columns: map<String, nat>, width: nat, rows: seq<Row>): (vs: seq<Option<ChangeRecord>>)
    requires Fits(columns, width)
    ensures |vs| == |rows|
    ensures forall i :: 0 <= i < |rows| ==> vs[i] == ChangeRow(columns, width, rows[i])
  {
    seq(|rows|, i requires 0 <= i < |rows| => ChangeRow(columns, width, rows[i]))
  }

  /** parseChangeRecords as a function of the grid. */
  function ParseChanges(grid: Grid): (r: Result<seq<ChangeRecord>>)
  {
    if |grid| < 2 then Err(TooFewRows) else ParseUnderHeader(grid[0], grid[1..])
  }

  /** The part after the row-count check: the required names, then the data rows. */
  function ParseUnderHeader(header: Row, rows: seq<Row>): (r: Result<seq<ChangeRecord>>)
  {
    var columns := ColumnMap(header);
    var missing := FirstMissing(columns, RequiredChangeColumns);
    if missing.Some? then Err(MissingColumn(missing.value))
    else
      assert RequiredChangeColumns[0] in columns;
      ColumnMapFits(header, HeaderGroup);
      Ok(Kept(ChangeVerdicts(columns, |header|, rows)))
  }

  /** The body of the row loop. */
  method ReadChangeRow(columns: map<String, nat>, width: nat, row: Row) returns (r: Option<ChangeRecord>)
    requires Fits(columns, width)
    ensures r == ChangeRow(columns, width, row)
  {
    if |row| < width {
      return None;
    }
    var date := ParseDotDate(Cell(row, columns, HeaderDate));
    if date.None? {
      return None;
    }
    var record := ChangeRecord(
      Cell(row, columns, HeaderGroup), date.value,
      Cell(row, columns, HeaderTimeStart), Cell(row, columns, HeaderTimeEnd),
      Cell(row, columns, HeaderSubject), Cell(row, columns, HeaderTeacher),
      Cell(row, columns, HeaderClassroom), Cell(row, columns, HeaderChangeType),
      Cell(row, columns, HeaderOriginalSubject));
    if record.groupName == [] || record.subject == [] {
      return None;
    }
    return Some(record);
  }

  /** The row loop over the data rows. */
  method ScanChangeRows(columns: map<String, nat>, width: nat, rows: seq<Row>) returns (records: seq<ChangeRecord>)
    requires Fits(columns, width)
    ensures records == Kept(ChangeVerdicts(columns, width, rows))
  {
    ghost var vs := ChangeVerdicts(columns, width, rows);
    records := [];
    var i := 0;
    assert vs[..0] == [];
    while i < |rows|
      invariant 0 <= i <= |rows|
      invariant records == Kept(vs[..i])
    {
      assert vs[..i + 1][..i] == vs[..i];
      var v := ReadChangeRow(columns, width, rows[i]);
      assert vs[..i + 1][i] == v;
      if v.Some? {
        records := records + [v.value];
      }
      i := i + 1;
    }
    assert vs[..i] == vs;
  }

  /** parseChangeRecords: the row-count check, the header loop, the required-column check,
      then one record per complete, dated, non-empty row, in row order. */
  method ParseChangeRecords(csvRecords: Grid) returns (r: Result<seq<ChangeRecord>>)
    ensures r == ParseChanges(csvRecords)
  {
    if |csvRecords| < 2 {
      return Err(TooFewRows);
    }
    var header := csvRecords[0];
    var columns := BuildColumns(header);
    var missing := CheckRequired(columns, RequiredChangeColumns);
    if missing.Some? {
      return Err(MissingColumn(missing.value));
    }
    assert RequiredChangeColumns[0] in columns;
    ColumnMapFits(header, HeaderGroup);
    var records := ScanChangeRows(columns, |header|, csvRecords[1..]);
    return Ok(records);
  }

  /** The parser fails exactly when there is no data row or the header lacks one of the six
      required names; a header without teacher, classroom or original subject is accepted. */
  lemma ParseChangesFailure(grid: Grid)
    ensures ParseChanges(grid).Err? <==>
              |grid| < 2 || exists k :: 0 <= k < |RequiredChangeColumns| && RequiredChangeColumns[k] !in TrimAll(grid[0])
    ensures |grid| < 2 ==> ParseChanges(grid) == Err(TooFewRows)
    ensures |grid| >= 2 && ParseChanges(grid).Err? ==>
              ParseChanges(grid).error.MissingColumn?
              && ParseChanges(grid).error.name in RequiredChangeColumns
              && ParseChanges(grid).error.name !in TrimAll(grid[0])
  {
  }

  /** A row yields a record exactly when it is as wide as the header, its date cell parses
      and its group and subject cells are not empty. */
  lemma ChangeRowSkips(columns: map<String, nat>, width: nat, row: Row)
    requires Fits(columns, width)
    ensures ChangeRow(columns, width, row).Some? <==>
              && |row| >= width
              && ParseDotDate(Cell(row, columns, HeaderDate)).Some?
              && Cell(row, columns, HeaderGroup) != [] && Cell(row, columns, HeaderSubject) != []
  {
  }

  /** The record of a row holds its trimmed cells and its parsed date. */
  lemma ChangeRowFields(columns: map<String, nat>, width: nat, row: Row)
    requires Fits(columns, width) && ChangeRow(columns, width, row).Some?
    ensures |row| >= width
    ensures var r := ChangeRow(columns, width, row).value;
              && r.groupName == Cell(row, columns, HeaderGroup)
              && r.date == ParseDotDate(Cell(row, columns, HeaderDate)).value
              && r.timeStart == Cell(row, columns, HeaderTimeStart) && r.timeEnd == Cell(row, columns, HeaderTimeEnd)
              && r.subject == Cell(row, columns, HeaderSubject) && r.teacher == Cell(row, columns, HeaderTeacher)
              && r.classroom == Cell(row, columns, HeaderClassroom) && r.changeType == Cell(row, columns, HeaderChangeType)
              && r.originalSubject == Cell(row, columns, HeaderOriginalSubject)
  {
  }

  /** The records are exactly those of the data rows that yield one. */
  lemma ParseChangesRecordsFrom(grid: Grid, r: ChangeRecord)
    requires ParseChanges(grid).Ok?
    ensures Fits(ColumnMap(grid[0]), |grid[0]|)
    ensures r in ParseChanges(grid).value <==>
              exists row :: row in grid[1..] && ChangeRow(ColumnMap(grid[0]), |grid[0]|, row) == Some(r)
  {
    var columns := ColumnMap(grid[0]);
    assert RequiredChangeColumns[0] in columns;
    ColumnMapFits(grid[0], HeaderGroup);
    var vs := ChangeVerdicts(columns, |grid[0]|, grid[1..]);
    KeptMember(vs, r);
    if r in ParseChanges(grid).value {
      var i :| 0 <= i < |vs| && vs[i] == Some(r);
      assert grid[1..][i] in grid[1..];
    }
    if exists row :: row in grid[1..] && ChangeRow(columns, |grid[0]|, row) == Some(r) {
      var row :| row in grid[1..] && ChangeRow(columns, |grid[0]|, row) == Some(r);
      var i :| 0 <= i < |grid[1..]| && grid[1..][i] == row;
      assert vs[i] == Some(r);
    }
  }

  lemma ChangeRowsAppend(columns: map<String, nat>, width: nat, xs: seq<Row>, ys: seq<Row>)
    requires Fits(columns, width)
    ensures Kept(ChangeVerdicts(columns, width, xs + ys))
            == Kept(ChangeVerdicts(columns, width, xs)) + Kept(ChangeVerdicts(columns, width, ys))
  {
    var all, front, back := ChangeVerdicts(columns, width, xs + ys),
                            ChangeVerdicts(columns, width, xs), ChangeVerdicts(columns, width, ys);
    assert all == front + back by {
      forall i | 0 <= i < |all|
        ensures all[i] == (front + back)[i]
      {
        if i < |xs| {
          assert (xs + ys)[i] == xs[i];
        } else {
          assert (xs + ys)[i] == ys[i - |xs|];
        }
      }
    }
    KeptAppend(front, back);
  }

  /** Records keep the order of their rows: a sheet whose data rows are `xs + ys` parses to
      the records of the sheet with `xs` followed by those of the sheet with `ys`. */
  lemma ParseChangesAppend(header: Row, xs: seq<Row>, ys: seq<Row>)
    requires xs != [] && ys != []
    requires ParseChanges([header] + xs).Ok?
    ensures ParseChanges([header] + ys).Ok? && ParseChanges([header] + (xs + ys)).Ok?
    ensures ParseChanges([header] + (xs + ys)).value
            == ParseChanges([header] + xs).value + ParseChanges([header] + ys).value
  {
    assert ([header] + xs)[0] == header && ([header] + xs)[1..] == xs;
    assert ([header] + ys)[0] == header && ([header] + ys)[1..] == ys;
    assert ([header] + (xs + ys))[0] == header && ([header] + (xs + ys))[1..] == xs + ys;
    var columns := ColumnMap(header);
    assert RequiredChangeColumns[0] in columns;
    ColumnMapFits(header, HeaderGroup);
    ChangeRowsAppend(columns, |header|, xs, ys);
  }

  /** As written, an optional name the header lacks reads column 0: when the group is the
      first column and the sheet has no original-subject column, every record's original
      subject is its group name rather than empty. */
  lemma AbsentOriginalSubjectCopiesGroup(columns: map<String, nat>, width: nat, row: Row)
    requires Fits(columns, width)
    requires HeaderOriginalSubject !in columns && HeaderGroup in columns && columns[HeaderGroup] == 0
    requires ChangeRow(columns, width, row).Some?
    ensures ChangeRow(columns, width, row).value.originalSubject == ChangeRow(columns, width, row).value.groupName
    ensures ChangeRow(columns, width, row).value.originalSubject != []
  {
  }

  /** An optional cell as the gsheetapi parser reads it: empty when the header lacks the name. */
  function OptionalCell(row: Row, columns: map<String, nat>, name: String): (cell: String)
    requires ColumnOr0(columns, name) < |row|
    ensures name !in columns ==> cell == []
    ensures name in columns ==> cell == Cell(row, columns, name)
  {
    if name in columns then Cell(row, columns, name) else []
  }

  /** The row reader with teacher, classroom and original subject optional. */
  function ChangeRowOptional(columns: map<String, nat>, width: nat, row: Row): (r: Option<ChangeRecord>)
    requires Fits(columns, width)
  {
    match ChangeRow(columns, width, row)
    case None => None
    case Some(record) =>
      Some(record.(teacher := OptionalCell(row, columns, HeaderTeacher),
                   classroom := OptionalCell(row, columns, HeaderClassroom),
                   originalSubject := OptionalCell(row, columns, HeaderOriginalSubject)))
  }

  /** The corrected reader keeps exactly the rows the original keeps, agrees with it on every
      field whose name the header carries, and leaves the others empty. */
  lemma ChangeRowOptionalCorrect(columns: map<String, nat>, width: nat, row: Row)
    requires Fits(columns, width)
    ensures ChangeRowOptional(columns, width, row).Some? <==> ChangeRow(columns, width, row).Some?
    ensures ChangeRowOptional(columns, width, row).Some? ==>
              var r, o := ChangeRowOptional(columns, width, row).value, ChangeRow(columns, width, row).value;
              && r.(teacher := o.teacher, classroom := o.classroom, originalSubject := o.originalSubject) == o
              && (HeaderTeacher in columns ==> r.teacher == o.teacher)
              && (HeaderTeacher !in columns ==> r.teacher == [])
              && (HeaderClassroom in columns ==> r.classroom == o.classroom)
              && (HeaderClassroom !in columns ==> r.classroom == [])
              && (HeaderOriginalSubject in columns ==> r.originalSubject == o.originalSubject)
              && (HeaderOriginalSubject !in columns ==> r.originalSubject == [])
  {
  }

  // ---------------------------------------------------------------------------------------
  // ScrapeScheduleChanges

  /** The change the loop builds from a parsed record: the id uuid.New returned, the record's
      fields, active, no snapshot and the zero creation time. */
  function ChangeOf(record: ChangeRecord, id: Uuid): (c: ScheduleChange)
  {
    ScheduleChange(id, None, record.groupName, record.date, record.timeStart, record.timeEnd,
                   record.subject, record.teacher, record.classroom, record.changeType,
                   record.originalSubject, ZeroTime, true)
  }

  /** The record a change carries. */
  function RecordOf(c: ScheduleChange): ChangeRecord {
    ChangeRecord(c.groupName, c.date, c.timeStart, c.timeEnd, c.subject, c.teacher,
                 c.classroom, c.changeType, c.originalSubject)
  }

  /** Building a change loses nothing of the record, and the stored creation time does not
      touch it either. */
  lemma RecordOfChangeOf(record: ChangeRecord, id: Uuid, now: Instant)
    ensures RecordOf(ChangeOf(record, id)) == record
    ensures RecordOf(ChangeOf(record, id).(createdAt := now)) == record
    ensures ChangeOf(record, id).id == id && ChangeOf(record, id).isActive && ChangeOf(record, id).snapshotId.None?
  {
  }

  /** The schedule_changes table and the changes created so far. */
  datatype Batch = Batch(table: seq<ScheduleChange>, created: seq<ScheduleChange>)

  /** The first n iterations of the create loop: the k-th record gets id `newId(k)`; its
      insert fails when `faults(k)` holds or the id is taken, and is then skipped; a stored
      change carries the database time `nows(k)`. */
  function CreatePrefix(table: seq<ScheduleChange>, records: seq<ChangeRecord>, newId: nat -> Uuid,
                        faults: nat -> bool, nows: nat -> Instant, n: nat): (b: Batch)
    requires n <= |records|
  {
    if n == 0 then Batch(table, [])
    else
      var prev := CreatePrefix(table, records, newId, faults, nows, n - 1);
      var change := ChangeOf(records[n - 1], newId(n - 1));
      if faults(n - 1) || change.id in ChangeIds(prev.table) then prev
      else
        var stored := change.(createdAt := nows(n - 1));
        Batch(prev.table + [stored], prev.created + [stored])
  }

  function CreateAll(table: seq<ScheduleChange>, records: seq<ChangeRecord>, newId: nat -> Uuid,
                     faults: nat -> bool, nows: nat -> Instant): Batch
  {
    CreatePrefix(table, records, newId, faults, nows, |records|)
  }

  /** Change `j` was stored from record `k` with that record's id and time. */
  predicate StoredFrom(c: ScheduleChange, records: seq<ChangeRecord>, newId: nat -> Uuid, nows: nat -> Instant, k: nat)
    requires k < |records|
  {
    c == ChangeOf(records[k], newId(k)).(createdAt := nows(k))
  }

  /** The loop only appends: the table is the old table followed by the created changes,
      each of which was stored from one of the records, later changes from later records. */
  lemma {:induction false} CreatePrefixAppends(table: seq<ScheduleChange>, records: seq<ChangeRecord>, newId: nat -> Uuid,
                                               faults: nat -> bool, nows: nat -> Instant, n: nat)
    requires n <= |records|
    ensures var b := CreatePrefix(table, records, newId, faults, nows, n);
            && b.table == table + b.created
            && |b.created| <= n
            && forall j :: 0 <= j < |b.created| ==>
                 exists k :: 0 <= k < n && StoredFrom(b.created[j], records, newId, nows, k) && !faults(k)
  {
    if n > 0 {
      CreatePrefixAppends(table, records, newId, faults, nows, n - 1);
      var prev := CreatePrefix(table, records, newId, faults, nows, n - 1);
      var b := CreatePrefix(table, records, newId, faults, nows, n);
      CreatePrefixStep(table, records, newId, faults, nows, n);
      if b != prev {
        var stored := b.created[|prev.created|];
        forall j | 0 <= j < |b.created|
          ensures exists k :: 0 <= k < n && StoredFrom(b.created[j], records, newId, nows, k) && !faults(k)
        {
          if j < |prev.created| {
            assert b.created[j] == prev.created[j];
          } else {
            assert StoredFrom(b.created[j], records, newId, nows, n - 1);
          }
        }
      }
    }
  }

  /** One record either leaves the batch as it was or appends one change, stored from that
      record, to both the table and the created list. */
  lemma CreatePrefixStep(table: seq<ScheduleChange>, records: seq<ChangeRecord>, newId: nat -> Uuid,
                         faults: nat -> bool, nows: nat -> Instant, n: nat)
    requires 0 < n <= |records|
    ensures var prev := CreatePrefix(table, records, newId, faults, nows, n - 1);
            var b := CreatePrefix(table, records, newId, faults, nows, n);
            || b == prev
            || (&& !faults(n - 1)
                && |b.created| == |prev.created| + 1
                && b.table == prev.table + [b.created[|prev.created|]]
                && b.created == prev.created + [b.created[|prev.created|]]
                && StoredFrom(b.created[|prev.created|], records, newId, nows, n - 1))
  {
  }

  /** Every one of the first n ids is unused in the table and unlike the others. */
  predicate FreshIds(table: seq<ScheduleChange>, newId: nat -> Uuid, n: nat) {
    && (forall k :: 0 <= k < n ==> newId(k) !in ChangeIds(table))
    && (forall j, k :: 0 <= j < k < n ==> newId(j) != newId(k))
  }

  /** The id of the n-th record is free once the first n - 1 records took theirs. */
  lemma NextIdFree(table: seq<ScheduleChange>, created: seq<ScheduleChange>, newId: nat -> Uuid, n: nat)
    requires 0 < n && |created| == n - 1
    requires FreshIds(table, newId, n)
    requires forall k :: 0 <= k < n - 1 ==> created[k].id == newId(k)
    ensures newId(n - 1) !in ChangeIds(table + created)
  {
    forall c | c in table + created
      ensures c.id != newId(n - 1)
    {
      if c in table {
        assert c.id in ChangeIds(table);
      } else {
        var j :| 0 <= j < |created| && created[j] == c;
      }
    }
  }

  /** With fresh ids and no storage errors, every record becomes a change, in record order. */
  lemma {:induction false} CreatePrefixAll(table: seq<ScheduleChange>, records: seq<ChangeRecord>, newId: nat -> Uuid,
                                           faults: nat -> bool, nows: nat -> Instant, n: nat)
    requires n <= |records|
    requires FreshIds(table, newId, n)
    requires forall k :: 0 <= k < n ==> !faults(k)
    ensures var b := CreatePrefix(table, records, newId, faults, nows, n);
            && |b.created| == n
            && b.table == table + b.created
            && forall k :: 0 <= k < n ==> StoredFrom(b.created[k], records, newId, nows, k)
  {
    if n > 0 {
      assert FreshIds(table, newId, n - 1);
      CreatePrefixAll(table, records, newId, faults, nows, n - 1);
      CreateStep(table, records, newId, faults, nows, n);
    }
  }

  /** The induction step of CreatePrefixAll. */
  lemma CreateStep(table: seq<ScheduleChange>, records: seq<ChangeRecord>, newId: nat -> Uuid,
                   faults: nat -> bool, nows: nat -> Instant, n: nat)
    requires 0 < n <= |records|
    requires FreshIds(table, newId, n) && !faults(n - 1)
    requires var b := CreatePrefix(table, records, newId, faults, nows, n - 1);
             && |b.created| == n - 1
             && b.table == table + b.created
             && forall k :: 0 <= k < n - 1 ==> StoredFrom(b.created[k], records, newId, nows, k)
    ensures var b := CreatePrefix(table, records, newId, faults, nows, n);
            && |b.created| == n
            && b.table == table + b.created
            && forall k :: 0 <= k < n ==> StoredFrom(b.created[k], records, newId, nows, k)
  {
    var prev := CreatePrefix(table, records, newId, faults, nows, n - 1);
    assert newId(n - 1) !in ChangeIds(prev.table) by {
      forall k | 0 <= k < n - 1 ensures prev.created[k].id == newId(k) {
        assert StoredFrom(prev.created[k], records, newId, nows, k);
      }
      NextIdFree(table, prev.created, newId, n);
    }
    var b := CreatePrefix(table, records, newId, faults, nows, n);
    assert b.created == prev.created + [ChangeOf(records[n - 1], newId(n - 1)).(createdAt := nows(n - 1))];
  }

  /** What ScrapeScheduleChanges reports: the sheet failed (logged, nil), the parse failed
      (an error), the data hash matched the last one (nil, nothing written), or the changes
      that were created. */
  datatype ScrapeOutcome = ExportSkipped | ParseFailed(error: ParseError) | Unchanged | Processed(created: seq<ScheduleChange>)

  /** The state one scrape reads and writes: the remembered hash, the schedule_changes
      table and the notifications sent so far. */
  datatype ScraperState = ScraperState(lastHash: String, changes: seq<ScheduleChange>, notified: seq<ScheduleChange>)

  datatype Scrape = Scrape(state: ScraperState, outcome: ScrapeOutcome)

  /** One call of ScrapeScheduleChanges. `sheet` is the exported sheet (None when the export
      failed) and `hash` stands for calculateDataHash. */
  function ScrapeStep(s: ScraperState, sheet: Option<Grid>, hash: seq<ChangeRecord> -> String,
                      newId: nat -> Uuid, faults: nat -> bool, nows: nat -> Instant): (r: Scrape)
  {
    if sheet.None? then Scrape(s, ExportSkipped)
    else ScrapeParsed(s, ParseChanges(sheet.value), hash, newId, faults, nows)
  }

  /** The call after the parse: a parse error is returned, an unchanged hash ends the call,
      and a new one is remembered before the changes are created and notified. */
  function ScrapeParsed(s: ScraperState, parsed: Result<seq<ChangeRecord>>, hash: seq<ChangeRecord> -> String,
                        newId: nat -> Uuid, faults: nat -> bool, nows: nat -> Instant): (r: Scrape)
  {
    match parsed
    case Err(e) => Scrape(s, ParseFailed(e))
    case Ok(records) =>
      if hash(records) == s.lastHash then Scrape(s, Unchanged)
      else
        var b := CreateAll(s.changes, records, newId, faults, nows);
        Scrape(ScraperState(hash(records), b.table, s.notified + b.created), Processed(b.created))
  }

  /** A call writes something only when the sheet was parsed and its hash differs from the
      remembered one; then it remembers the new hash, appends the changes the create loop
      stored to the table and sends one notification for each of them, in order. */
  lemma ScrapeParsedEffect(s: ScraperState, parsed: Result<seq<ChangeRecord>>, hash: seq<ChangeRecord> -> String,
                           newId: nat -> Uuid, faults: nat -> bool, nows: nat -> Instant)
    ensures var r := ScrapeParsed(s, parsed, hash, newId, faults, nows);
            && (r.outcome.Processed? <==> parsed.Ok? && hash(parsed.value) != s.lastHash)
            && (!r.outcome.Processed? ==> r.state == s)
            && (parsed.Err? ==> r.outcome == ParseFailed(parsed.error))
            && (parsed.Ok? && hash(parsed.value) == s.lastHash ==> r.outcome == Unchanged)
            && (r.outcome.Processed? ==>
                  && r.state.lastHash == hash(parsed.value)
                  && r.state.changes == s.changes + r.outcome.created
                  && r.state.notified == s.notified + r.outcome.created
                  && r.outcome.created == CreateAll(s.changes, parsed.value, newId, faults, nows).created)
  {
    if parsed.Ok? && hash(parsed.value) != s.lastHash {
      var records := parsed.value;
      CreatePrefixAppends(s.changes, records, newId, faults, nows, |records|);
    }
  }

  /** The hash gate makes a call idempotent: called again on the same sheet, whatever ids,
      faults and times it meets, the scraper writes and sends nothing. */
  lemma ScrapeStepTwice(s: ScraperState, sheet: Option<Grid>, hash: seq<ChangeRecord> -> String,
                        newId1: nat -> Uuid, faults1: nat -> bool, nows1: nat -> Instant,
                        newId2: nat -> Uuid, faults2: nat -> bool, nows2: nat -> Instant)
    ensures var once := ScrapeStep(s, sheet, hash, newId1, faults1, nows1);
            var twice := ScrapeStep(once.state, sheet, hash, newId2, faults2, nows2);
            twice.state == once.state && !twice.outcome.Processed?
  {
    if sheet.Some? {
      var p := ParseChanges(sheet.value);
      ScrapeParsedEffect(s, p, hash, newId1, faults1, nows1);
      var once := ScrapeParsed(s, p, hash, newId1, faults1, nows1);
      ScrapeParsedEffect(once.state, p, hash, newId2, faults2, nows2);
    }
  }

  /** With fresh ids and no storage errors, changed data creates one active change per
      parsed record, carrying that record, and notifies each. */
  lemma ScrapeParsedCreatesAll(s: ScraperState, records: seq<ChangeRecord>, hash: seq<ChangeRecord> -> String,
                               newId: nat -> Uuid, faults: nat -> bool, nows: nat -> Instant)
    requires hash(records) != s.lastHash
    requires FreshIds(s.changes, newId, |records|)
    requires forall k :: 0 <= k < |records| ==> !faults(k)
    ensures var r := ScrapeParsed(s, Ok(records), hash, newId, faults, nows);
            && r.outcome.Processed?
            && |r.outcome.created| == |records|
            && forall k :: 0 <= k < |records| ==>
                 && RecordOf(r.outcome.created[k]) == records[k]
                 && r.outcome.created[k].id == newId(k)
                 && r.outcome.created[k].isActive
                 && r.state.notified[|s.notified| + k] == r.outcome.created[k]
  {
    CreatePrefixAll(s.changes, records, newId, faults, nows, |records|);
    var created := CreateAll(s.changes, records, newId, faults, nows).created;
    forall k | 0 <= k < |records|
      ensures RecordOf(created[k]) == records[k] && created[k].id == newId(k) && created[k].isActive
    {
      assert StoredFrom(created[k], records, newId, nows, k);
      RecordOfChangeOf(records[k], newId(k), nows(k));
    }
  }

  /** The scraper service, with the state ScrapeScheduleChanges keeps: the hash of the last
      correction data it processed, and the notifications SendScheduleChangeNotification
      was asked to send. */
  class ChangeScraper {
    const repo: Repository
    var lastChangeHash: String
    var notified: seq<ScheduleChange>

    constructor(repo: Repository)
      ensures this.repo == repo && lastChangeHash == [] && notified == []
    {
      this.repo := repo;
      lastChangeHash := [];
      notified := [];
    }

    /** The create loop: one change per record through Repository.CreateChange; a failed
        insert is skipped. */
    method CreateChanges(records: seq<ChangeRecord>, newId: nat -> Uuid, faults: nat -> bool, nows: nat -> Instant)
      returns (created: seq<ScheduleChange>)
      requires repo.Valid()
      modifies repo
      ensures repo.Valid()
      ensures CreateAll(old(repo.scheduleChanges), records, newId, faults, nows) == Batch(repo.scheduleChanges, created)
      ensures repo.currentSchedule == old(repo.currentSchedule)
    {
      ghost var base := repo.scheduleChanges;
      created := [];
      var i := 0;
      while i < |records|
        invariant 0 <= i <= |records|
        invariant repo.Valid()
        invariant CreatePrefix(base, records, newId, faults, nows, i) == Batch(repo.scheduleChanges, created)
        invariant repo.currentSchedule == old(repo.currentSchedule)
      {
        var change := ChangeOf(records[i], newId(i));
        var ok, stored := repo.CreateChange(change, faults(i), nows(i));
        if ok {
          created := created + [stored];
        }
        i := i + 1;
      }
    }

    /** The notification loop: one notification per created change, in order; a failed
        send is only logged. */
    method Notify(created: seq<ScheduleChange>)
      modifies this
      ensures notified == old(notified) + created
      ensures lastChangeHash == old(lastChangeHash)
    {
      var k := 0;
      while k < |created|
        invariant 0 <= k <= |created|
        invariant notified == old(notified) + created[..k]
        invariant lastChangeHash == old(lastChangeHash)
      {
        notified := notified + [created[k]];
        k := k + 1;
      }
      assert created[..k] == created;
    }

    /** ScrapeScheduleChanges: sheet, parse, compare the hash with the last one, and on a
        change remember it, create the changes and notify. */
    method ScrapeScheduleChanges(sheet: Option<Grid>, hash: seq<ChangeRecord> -> String,
                                 newId: nat -> Uuid, faults: nat -> bool, nows: nat -> Instant)
      returns (outcome: ScrapeOutcome)
      requires repo.Valid()
      modifies this, repo
      ensures repo.Valid()
      ensures ScrapeStep(ScraperState(old(lastChangeHash), old(repo.scheduleChanges), old(notified)),
                         sheet, hash, newId, faults, nows)
              == Scrape(ScraperState(lastChangeHash, repo.scheduleChanges, notified), outcome)
      ensures repo.currentSchedule == old(repo.currentSchedule)
    {
      if sheet.None? {
        return ExportSkipped;
      }
      var parsed := ParseChangeRecords(sheet.value);
      if parsed.Err? {
        return ParseFailed(parsed.error);
      }
      var records := parsed.value;
      var currentHash := hash(records);
      if currentHash == lastChangeHash {
        return Unchanged;
      }
      lastChangeHash := currentHash;
      var created := CreateChanges(records, newId, faults, nows);
      Notify(created);
      return Processed(created);
    }
  }

  // ---------------------------------------------------------------------------------------
  // convertToScheduleData

  /** The period convertToScheduleData writes. */
  const Period: String := "TODO: определить период"

  /** The records grouped as the first loop groups them: by group, then by day of week, each
      bucket in record order. */
  function Buckets(records: seq<ScheduleRecord>): map<String, map<String, seq<ScheduleRecord>>>
  {
    if records == [] then map[]
    else
      var groups := Buckets(records[..|records| - 1]);
      AddRecord(groups, records[|records| - 1])
  }

  /** One iteration of the grouping loop. */
  function AddRecord(groups: map<String, map<String, seq<ScheduleRecord>>>, record: ScheduleRecord)
    : map<String, map<String, seq<ScheduleRecord>>>
  {
    var days := if record.groupName in groups then groups[record.groupName] else map[];
    var bucket := if record.dayOfWeek in days then days[record.dayOfWeek] else [];
    groups[record.groupName := days[record.dayOfWeek := bucket + [record]]]
  }

  /** The records of one group and one day, in order. */
  function Filter(records: seq<ScheduleRecord>, groupName: String, day: String): (r: seq<ScheduleRecord>)
    ensures forall x :: x in r <==> x in records && x.groupName == groupName && x.dayOfWeek == day
  {
    if records == [] then []
    else
      var init := Filter(records[..|records| - 1], groupName, day);
      var last := records[|records| - 1];
      assert forall x :: x in records <==> x in records[..|records| - 1] || x == last;
      if last.groupName == groupName && last.dayOfWeek == day then init + [last] else init
  }

  /** Some record has this group. */
  predicate HasGroup(records: seq<ScheduleRecord>, groupName: String) {
    exists i :: 0 <= i < |records| && records[i].groupName == groupName
  }

  /** Some record has this group and this day. */
  predicate HasDay(records: seq<ScheduleRecord>, groupName: String, day: String) {
    exists i :: 0 <= i < |records| && records[i].groupName == groupName && records[i].dayOfWeek == day
  }

  /** The grouping holds what the reference says for `records`: a group has an entry exactly
      when some record has it, a day exactly when some record has that group and day, and
      each bucket holds the group's records of that day, in record order. */
  ghost predicate GroupsAgree(records: seq<ScheduleRecord>, groups: map<String, map<String, seq<ScheduleRecord>>>) {
    && (forall g :: g in groups <==> HasGroup(records, g))
    && (forall g, d :: g in groups ==> (d in groups[g] <==> HasDay(records, g, d)))
    && (forall g, d :: g in groups && d in groups[g] ==> groups[g][d] == Filter(records, g, d))
  }

  /** A record appended to the input adds its group and nothing else. */
  lemma HasGroupSnoc(init: seq<ScheduleRecord>, last: ScheduleRecord, g: String)
    ensures HasGroup(init + [last], g) <==> HasGroup(init, g) || last.groupName == g
  {
    var records := init + [last];
    if HasGroup(init, g) {
      var i :| 0 <= i < |init| && init[i].groupName == g;
      assert records[i] == init[i];
    }
    if HasGroup(records, g) && last.groupName != g {
      var i :| 0 <= i < |records| && records[i].groupName == g;
      assert i < |init| && records[i] == init[i];
    }
    assert records[|records| - 1] == last;
  }

  /** A record appended to the input adds its group and day and nothing else. */
  lemma HasDaySnoc(init: seq<ScheduleRecord>, last: ScheduleRecord, g: String, d: String)
    ensures HasDay(init + [last], g, d) <==> HasDay(init, g, d) || (last.groupName == g && last.dayOfWeek == d)
  {
    var records := init + [last];
    if HasDay(init, g, d) {
      var i :| 0 <= i < |init| && init[i].groupName == g && init[i].dayOfWeek == d;
      assert records[i] == init[i];
    }
    if HasDay(records, g, d) && !(last.groupName == g && last.dayOfWeek == d) {
      var i :| 0 <= i < |records| && records[i].groupName == g && records[i].dayOfWeek == d;
      assert i < |init| && records[i] == init[i];
    }
    assert records[|records| - 1] == last;
  }

  /** The reference of a longer input: the appended record joins its own bucket. */
  lemma FilterSnoc(init: seq<ScheduleRecord>, last: ScheduleRecord, g: String, d: String)
    ensures Filter(init + [last], g, d) == Filter(init, g, d) + (if last.groupName == g && last.dayOfWeek == d then [last] else [])
    ensures !HasDay(init, g, d) ==> Filter(init, g, d) == []
  {
    var records := init + [last];
    assert records[..|records| - 1] == init && records[|records| - 1] == last;
    if Filter(init, g, d) != [] {
      var x := Filter(init, g, d)[0];
      assert x in Filter(init, g, d);
      var i :| 0 <= i < |init| && init[i] == x;
      assert HasDay(init, g, d);
    }
  }

  /** One iteration keeps the grouping in agreement with the reference. */
  lemma AddRecordAgrees(init: seq<ScheduleRecord>, last: ScheduleRecord, groups: map<String, map<String, seq<ScheduleRecord>>>)
    requires GroupsAgree(init, groups)
    ensures GroupsAgree(init + [last], AddRecord(groups, last))
  {
    var records := init + [last];
    var next := AddRecord(groups, last);
    forall g
      ensures g in next <==> HasGroup(records, g)
    {
      HasGroupSnoc(init, last, g);
    }
    forall g, d | g in next
      ensures d in next[g] <==> HasDay(records, g, d)
    {
      HasDaySnoc(init, last, g, d);
    }
    forall g, d | g in next && d in next[g]
      ensures next[g][d] == Filter(records, g, d)
    {
      FilterSnoc(init, last, g, d);
      if g == last.groupName && d == last.dayOfWeek {
        assert next[g][d] == (if g in groups && d in groups[g] then groups[g][d] else []) + [last];
      } else {
        assert next[g][d] == groups[g][d];
      }
    }
  }

  /** The grouping against its reference. */
  lemma {:induction false} BucketsAreFilters(records: seq<ScheduleRecord>)
    ensures GroupsAgree(records, Buckets(records))
  {
    if records != [] {
      var init := records[..|records| - 1];
      BucketsAreFilters(init);
      assert records == init + [records[|records| - 1]];
      AddRecordAgrees(init, records[|records| - 1], Buckets(init));
    }
  }

  /** The lesson a record becomes: the same seven fields. */
  function LessonOf(r: ScheduleRecord): Lesson {
    Lesson(r.groupName, r.subject, r.teacher, r.classroom, r.timeStart, r.timeEnd, r.dayOfWeek)
  }

  function Lessons(rs: seq<ScheduleRecord>): (ls: seq<Lesson>)
    ensures |ls| == |rs|
    ensures forall i :: 0 <= i < |rs| ==> ls[i] == LessonOf(rs[i])
  {
    seq(|rs|, i requires 0 <= i < |rs| => LessonOf(rs[i]))
  }

  function DayLessons(days: map<String, seq<ScheduleRecord>>): map<String, seq<Lesson>> {
    map d | d in days :: Lessons(days[d])
  }

  /** The timetable of the records: the fixed period, and every bucket as lessons. */
  function ScheduleDataOf(records: seq<ScheduleRecord>): ScheduleData {
    var b := Buckets(records);
    ScheduleData(Period, map g | g in b :: DayLessons(b[g]))
  }

  /** What the timetable holds: a group exactly when some record has it, a day of a group
      exactly when some record has both, and for each the lessons of those records in
      record order. */
  lemma ScheduleDataOfContents(records: seq<ScheduleRecord>)
    ensures ScheduleDataOf(records).period == Period
    ensures forall g :: g in ScheduleDataOf(records).groups <==> HasGroup(records, g)
    ensures forall g, d :: g in ScheduleDataOf(records).groups ==>
              (d in ScheduleDataOf(records).groups[g] <==> HasDay(records, g, d))
    ensures forall g, d :: g in ScheduleDataOf(records).groups && d in ScheduleDataOf(records).groups[g] ==>
              ScheduleDataOf(records).groups[g][d] == Lessons(Filter(records, g, d))
  {
    BucketsAreFilters(records);
  }

  /** The innermost loop: one lesson per record of a bucket. */
  method ConvertLessons(dayRecords: seq<ScheduleRecord>) returns (lessons: seq<Lesson>)
    ensures lessons == Lessons(dayRecords)
  {
    lessons := [];
    var i := 0;
    while i < |dayRecords|
      invariant 0 <= i <= |dayRecords|
      invariant lessons == Lessons(dayRecords[..i])
    {
      lessons := lessons + [LessonOf(dayRecords[i])];
      i := i + 1;
    }
    assert dayRecords[..i] == dayRecords;
  }

  /** The loop over the days of one group, in whatever order the map yields them. */
  method ConvertDays(days: map<String, seq<ScheduleRecord>>) returns (out: map<String, seq<Lesson>>)
    ensures out == DayLessons(days)
  {
    out := map[];
    var pending := days.Keys;
    while pending != {}
      invariant pending <= days.Keys
      invariant out.Keys == days.Keys - pending
      invariant forall d :: d in out ==> out[d] == Lessons(days[d])
      decreases pending
    {
      var d :| d in pending;
      var lessons := ConvertLessons(days[d]);
      out := out[d := lessons];
      pending := pending - {d};
    }
  }

  /** The first loop of convertToScheduleData: each record appended to the bucket of its
      group and day, the map entries created on first use. */
  method GroupRecords(records: seq<ScheduleRecord>) returns (groups: map<String, map<String, seq<ScheduleRecord>>>)
    ensures groups == Buckets(records)
  {
    groups := map[];
    var i := 0;
    while i < |records|
      invariant 0 <= i <= |records|
      invariant groups == Buckets(records[..i])
    {
      assert records[..i + 1][..i] == records[..i];
      var record := records[i];
      ghost var before := groups;
      if record.groupName !in groups {
        groups := groups[record.groupName := map[]];
      }
      if record.dayOfWeek !in groups[record.groupName] {
        groups := groups[record.groupName := groups[record.groupName][record.dayOfWeek := []]];
      }
      groups := groups[record.groupName := groups[record.groupName][record.dayOfWeek := groups[record.groupName][record.dayOfWeek] + [record]]];
      assert groups == AddRecord(before, record) by {
        var days := if record.groupName in before then before[record.groupName] else map[];
        var bucket := if record.dayOfWeek in days then days[record.dayOfWeek] else [];
        assert groups[record.groupName] == days[record.dayOfWeek := bucket + [record]];
      }
      i := i + 1;
    }
    assert records[..i] == records;
  }

  /** convertToScheduleData: group the records, then turn every bucket into lessons. */
  method ConvertToScheduleData(records: seq<ScheduleRecord>) returns (data: ScheduleData)
    ensures data == ScheduleDataOf(records)
  {
    var groups := GroupRecords(records);
    var out: map<String, map<String, seq<Lesson>>> := map[];
    var pending := groups.Keys;
    while pending != {}
      invariant pending <= groups.Keys
      invariant out.Keys == groups.Keys - pending
      invariant forall g :: g in out ==> out[g] == DayLessons(groups[g])
      decreases pending
    {
      var g :| g in pending;
      var daySchedules := ConvertDays(groups[g]);
      out := out[g := daySchedules];
      pending := pending - {g};
    }
    data := ScheduleData(Period, out);
  }
}
