/** The corrections parser of the Google Sheets client (ParseChangeRecords in
    backend/internal/scraper/gsheets/client.go): a header row whose lower-cased, trimmed names
    locate the columns, then one ChangeRecord per usable row. Six of the nine columns are
    required; the teacher and classroom columns are not, yet every row that gets as far as
    building its record indexes them, which panics in Go when they are absent. */
module GSheetsChanges {
  import opened Text
  import opened Convert
  import opened Sheets
  import opened GSheets

  const KeyGroup: String := "группа"
  const KeyDate: String := "дата"
  const KeyTimeStart: String := "время начала"
  const KeyTimeEnd: String := "время окончания"
  const KeySubject: String := "предмет"
  const KeyTeacher: String := "преподаватель"
  const KeyClassroom: String := "аудитория"
  const KeyChangeType: String := "тип изменения"
  const KeyOriginalSubject: String := "оригинальный предмет"

  /** The nine column indexes, -1 where the header lacks the name. */
  datatype ChangeColumns = ChangeColumns(
    group: int, date: int, timeStart: int, timeEnd: int, subject: int,
    teacher: int, classroom: int, changeType: int, originalSubject: int)

  const NoColumns := ChangeColumns(-1, -1, -1, -1, -1, -1, -1, -1, -1)

  /** The header names as the switch compares them: lower-cased, then trimmed. */
  function HeaderNames(header: Row): (names: seq<String>)
    ensures |names| == |header|
    ensures forall i :: 0 <= i < |header| ==> names[i] == TrimSpace(ToLower(header[i]))
  {
    seq(|header|, i requires 0 <= i < |header| => TrimSpace(ToLower(header[i])))
  }

  /** The column the header loop settles on for `key` (see ColumnOfLast). */
  function ColumnOf(names: seq<String>, key: String): int {
    var m := LastIndex(names);
    if key in m then m[key] else -1
  }

  /** The column for `key` is -1 exactly when no header has that name, and otherwise the LAST
      position that has it: a later duplicate header overrides an earlier one. */
  lemma ColumnOfLast(names: seq<String>, key: String)
    ensures ColumnOf(names, key) == -1 <==> key !in names
    ensures ColumnOf(names, key) != -1 ==> 0 <= ColumnOf(names, key) < |names| && names[ColumnOf(names, key)] == key
    ensures forall j :: ColumnOf(names, key) < j < |names| ==> names[j] != key
  {
  }

  /** All nine columns of a header. */
  function ResolveColumns(names: seq<String>): ChangeColumns {
    ChangeColumns(
      ColumnOf(names, KeyGroup), ColumnOf(names, KeyDate), ColumnOf(names, KeyTimeStart),
      ColumnOf(names, KeyTimeEnd), ColumnOf(names, KeySubject), ColumnOf(names, KeyTeacher),
      ColumnOf(names, KeyClassroom), ColumnOf(names, KeyChangeType), ColumnOf(names, KeyOriginalSubject))
  }

  /** One more header name moves the column of that name, and only that one, to its position. */
  lemma ColumnOfSnoc(names: seq<String>, i: nat, key: String)
    requires i < |names|
    ensures ColumnOf(names[..i + 1], key) == if names[i] == key then i else ColumnOf(names[..i], key)
  {
    assert names[..i + 1][..i] == names[..i];
  }

  /** The six columns the parser refuses to do without. */
  predicate HasRequired(c: ChangeColumns) {
    c.group != -1 && c.date != -1 && c.timeStart != -1 && c.timeEnd != -1 && c.subject != -1 && c.changeType != -1
  }

  /** What a header can produce: every index -1 or a position. */
  predicate InRange(c: ChangeColumns) {
    c.group >= -1 && c.date >= -1 && c.timeStart >= -1 && c.timeEnd >= -1 && c.subject >= -1
    && c.teacher >= -1 && c.classroom >= -1 && c.changeType >= -1 && c.originalSubject >= -1
  }

  lemma ResolveColumnsInRange(names: seq<String>)
    ensures InRange(ResolveColumns(names))
  {
    forall key {
      ColumnOfLast(names, key);
    }
  }

  /** The switch of the header loop: the column that a header name selects takes position `i`. */
  function AssignColumn(c: ChangeColumns, name: String, i: int): ChangeColumns {
    if name == KeyGroup then c.(group := i)
    else if name == KeyDate then c.(date := i)
    else if name == KeyTimeStart then c.(timeStart := i)
    else if name == KeyTimeEnd then c.(timeEnd := i)
    else if name == KeySubject then c.(subject := i)
    else if name == KeyTeacher then c.(teacher := i)
    else if name == KeyClassroom then c.(classroom := i)
    else if name == KeyChangeType then c.(changeType := i)
    else if name == KeyOriginalSubject then c.(originalSubject := i)
    else c
  }

  /** The nine names are distinct: all lengths differ except for two names that differ in
      their first letter. */
  lemma KeysDistinct()
    ensures |KeyGroup| == 6 && |KeyDate| == 4 && |KeyTimeStart| == 12 && |KeyTimeEnd| == 15
    ensures |KeySubject| == 7 && |KeyTeacher| == 13 && |KeyClassroom| == 9
    ensures |KeyChangeType| == 13 && |KeyOriginalSubject| == 20
    ensures KeyTeacher != KeyChangeType
  {
    assert KeyTeacher[0] != KeyChangeType[0];
  }

  /** The switch applied to one more header name agrees with the last-position map. */
  lemma ResolveColumnsSnoc(names: seq<String>, i: nat)
    requires i < |names|
    ensures ResolveColumns(names[..i + 1]) == AssignColumn(ResolveColumns(names[..i]), names[i], i)
  {
    KeysDistinct();
    forall key | true
      ensures ColumnOf(names[..i + 1], key) == if names[i] == key then i else ColumnOf(names[..i], key)
    {
      ColumnOfSnoc(names, i, key);
    }
  }

  /** The header loop with its switch on the normalised name. */
  method FindColumns(header: Row) returns (c: ChangeColumns)
    ensures c == ResolveColumns(HeaderNames(header))
  {
    ghost var names := HeaderNames(header);
    c := NoColumns;
    var i := 0;
    assert names[..0] == [];
    while i < |header|
      invariant 0 <= i <= |header|
      invariant c == ResolveColumns(names[..i])
    {
      var headerStr := TrimSpace(ToLower(header[i]));
      ResolveColumnsSnoc(names, i);
      if headerStr == KeyGroup {
        c := c.(group := i);
      } else if headerStr == KeyDate {
        c := c.(date := i);
      } else if headerStr == KeyTimeStart {
        c := c.(timeStart := i);
      } else if headerStr == KeyTimeEnd {
        c := c.(timeEnd := i);
      } else if headerStr == KeySubject {
        c := c.(subject := i);
      } else if headerStr == KeyTeacher {
        c := c.(teacher := i);
      } else if headerStr == KeyClassroom {
        c := c.(classroom := i);
      } else if headerStr == KeyChangeType {
        c := c.(changeType := i);
      } else if headerStr == KeyOriginalSubject {
        c := c.(originalSubject := i);
      }
      i := i + 1;
    }
    assert names[..i] == names;
  }

  /** The change kinds the sheet may name, and the English words the records carry. */
  const Replacement: String := "replacement"
  const Cancellation: String := "cancellation"
  const Addition: String := "addition"

  /** The switch on the lower-cased, trimmed kind cell; None for an unknown kind. */
  function ChangeKind(cell: String): (kind: Option<String>)
    ensures kind.Some? ==> kind.value == Replacement || kind.value == Cancellation || kind.value == Addition
  {
    if cell == "замена" then Some(Replacement)
    else if cell == "отмена" then Some(Cancellation)
    else if cell == "добавление" then Some(Addition)
    else None
  }

  /** The `max(...)` over all nine indexes that the length check compares with: a row longer
      than this holds every index that is not -1. */
  function MaxColumn(c: ChangeColumns): (m: int)
    ensures c.group <= m && c.date <= m && c.timeStart <= m && c.timeEnd <= m && c.subject <= m
    ensures c.teacher <= m && c.classroom <= m && c.changeType <= m && c.originalSubject <= m
    ensures m == c.group || m == c.date || m == c.timeStart || m == c.timeEnd || m == c.subject
            || m == c.teacher || m == c.classroom || m == c.changeType || m == c.originalSubject
  {
    var vs := [c.group, c.date, c.timeStart, c.timeEnd, c.subject, c.teacher, c.classroom, c.changeType, c.originalSubject];
    assert vs[0] in vs && vs[1] in vs && vs[2] in vs && vs[3] in vs && vs[4] in vs;
    assert vs[5] in vs && vs[6] in vs && vs[7] in vs && vs[8] in vs;
    MaxOf(vs)
  }

  /** What the loop does with one data row: skip it, keep its record, or panic on the
      index -1 of an absent teacher or classroom column. */
  datatype Verdict = Skip | Keep(record: ChangeRecord) | Panic

  /** The row reaches the statement that builds its record: long enough, with a date that
      parses and a kind the switch knows. */
  predicate Reaches(c: ChangeColumns, row: Row)
    requires HasRequired(c) && InRange(c)
  {
    |row| > MaxColumn(c)
    && ParseDotDate(TrimSpace(row[c.date])).Some?
    && ChangeKind(TrimSpace(ToLower(row[c.changeType]))).Some?
  }

  /** One data row, in the order the loop body tests it. */
  function RowVerdict(c: ChangeColumns, row: Row): Verdict
    requires HasRequired(c) && InRange(c)
  {
    if |row| <= MaxColumn(c) then Skip
    else
      var date := ParseDotDate(TrimSpace(row[c.date]));
      if date.None? then Skip
      else
        var kind := ChangeKind(TrimSpace(ToLower(row[c.changeType])));
        if kind.None? then Skip
        else if c.teacher == -1 || c.classroom == -1 then Panic
        else
          var original := if c.originalSubject != -1 && c.originalSubject < |row| then TrimSpace(row[c.originalSubject]) else "";
          var r := ChangeRecord(
            TrimSpace(row[c.group]), date.value, TrimSpace(row[c.timeStart]), TrimSpace(row[c.timeEnd]),
            TrimSpace(row[c.subject]), TrimSpace(row[c.teacher]), TrimSpace(row[c.classroom]),
            kind.value, original);
          if r.groupName == [] || r.subject == [] then Skip else Keep(r)
  }

  /** The records of the rows so far, or the panic that ended the loop. */
  datatype Scanned = Scanned(records: seq<ChangeRecord>) | Panicked

  /** One iteration's effect on what the loop has so far. */
  function Absorb(prev: Scanned, v: Verdict): Scanned {
    if prev.Panicked? then Panicked
    else match v
      case Skip => prev
      case Keep(r) => Scanned(prev.records + [r])
      case Panic => Panicked
  }

  /** The data-row loop over the rows' verdicts, as a left fold. */
  function Collect(vs: seq<Verdict>): Scanned {
    if vs == [] then Scanned([]) else Absorb(Collect(vs[..|vs| - 1]), vs[|vs| - 1])
  }

  /** One more verdict is absorbed into what the loop had. */
  lemma CollectNext(vs: seq<Verdict>, i: nat)
    requires i < |vs|
    ensures Collect(vs[..i + 1]) == Absorb(Collect(vs[..i]), vs[i])
  {
    assert vs[..i + 1][..i] == vs[..i];
  }

  /** The verdict of every data row. */
  function Verdicts(c: ChangeColumns, rows: seq<Row>): (vs: seq<Verdict>)
    requires HasRequired(c) && InRange(c)
    ensures |vs| == |rows|
    ensures forall i :: 0 <= i < |rows| ==> vs[i] == RowVerdict(c, rows[i])
  {
    seq(|rows|, i requires 0 <= i < |rows| => RowVerdict(c, rows[i]))
  }

  /** How a call ends: records, an error value, or a run-time panic. */
  datatype ChangesOutcome = Parsed(records: seq<ChangeRecord>) | Failed(error: ParseError) | IndexPanic

  /** The columns a header row locates. */
  function HeaderColumns(header: Row): (c: ChangeColumns)
    ensures InRange(c)
  {
    ResolveColumnsInRange(HeaderNames(header));
    ResolveColumns(HeaderNames(header))
  }

  /** What follows the header loop: the required-column check, then the data rows. */
  function ParseRows(c: ChangeColumns, rows: seq<Row>): ChangesOutcome
    requires InRange(c)
  {
    if !HasRequired(c) then Failed(MissingColumns)
    else match Collect(Verdicts(c, rows))
      case Scanned(rs) => Parsed(rs)
      case Panicked => IndexPanic
  }

  /** ParseChangeRecords as a function of the sheet's cells. */
  function ParseChanges(grid: Grid): ChangesOutcome {
    if |grid| < 2 then Failed(TooFewRows) else ParseRows(HeaderColumns(grid[0]), grid[1..])
  }

  /** The loop body for one data row. */
  method ReadChangeRow(c: ChangeColumns, row: Row) returns (v: Verdict)
    requires HasRequired(c) && InRange(c)
    ensures v == RowVerdict(c, row)
  {
    var maxCol := Max([c.group, c.date, c.timeStart, c.timeEnd, c.subject, c.teacher, c.classroom, c.changeType, c.originalSubject]);
    assert maxCol == MaxColumn(c);
    if |row| <= maxCol {
      return Skip;
    }
    var dateStr := TrimSpace(row[c.date]);
    var parsedDate := ParseDotDate(dateStr);
    if parsedDate.None? {
      return Skip;
    }
    var changeType := ChangeKind(TrimSpace(ToLower(row[c.changeType])));
    if changeType.None? {
      return Skip;
    }
    if c.teacher == -1 || c.classroom == -1 {
      return Panic;
    }
    var record := ChangeRecord(
      TrimSpace(row[c.group]), parsedDate.value, TrimSpace(row[c.timeStart]), TrimSpace(row[c.timeEnd]),
      TrimSpace(row[c.subject]), TrimSpace(row[c.teacher]), TrimSpace(row[c.classroom]),
      changeType.value, "");
    if c.originalSubject != -1 && c.originalSubject < |row| {
      record := record.(originalSubject := TrimSpace(row[c.originalSubject]));
    }
    if record.groupName == [] || record.subject == [] {
      return Skip;
    }
    return Keep(record);
  }

  /** Once the loop has panicked, later verdicts change nothing. */
  lemma {:induction false} PanicPersists(vs: seq<Verdict>, i: nat)
    requires i <= |vs| && Collect(vs[..i]).Panicked?
    ensures Collect(vs).Panicked?
    decreases |vs|
  {
    if i < |vs| {
      var init := vs[..|vs| - 1];
      assert init[..i] == vs[..i];
      PanicPersists(init, i);
    } else {
      assert vs[..i] == vs;
    }
  }

  /** The data-row loop. */
  method ScanChangeRows(c: ChangeColumns, rows: seq<Row>) returns (scanned: Scanned)
    requires HasRequired(c) && InRange(c)
    ensures scanned == Collect(Verdicts(c, rows))
  {
    ghost var vs := Verdicts(c, rows);
    var records: seq<ChangeRecord> := [];
    var i := 0;
    assert vs[..0] == [];
    while i < |rows|
      invariant 0 <= i <= |rows|
      invariant Collect(vs[..i]) == Scanned(records)
    {
      var v := ReadChangeRow(c, rows[i]);
      CollectNext(vs, i);
      if v.Panic? {
        PanicPersists(vs, i + 1);
        return Panicked;
      }
      if v.Keep? {
        records := records + [v.record];
      }
      i := i + 1;
    }
    assert vs[..i] == vs;
    return Scanned(records);
  }

  /** ParseChangeRecords: the row-count check, the header loop, the required-column check,
      then the data rows in order; a panic ends the call with no result. */
  method ParseChangeRecords(csvRecords: Grid) returns (outcome: ChangesOutcome)
    ensures outcome == ParseChanges(csvRecords)
  {
    if |csvRecords| < 2 {
      return Failed(TooFewRows);
    }
    var c := FindColumns(csvRecords[0]);
    ResolveColumnsInRange(HeaderNames(csvRecords[0]));
    assert c == HeaderColumns(csvRecords[0]);
    if c.group == -1 || c.date == -1 || c.timeStart == -1 || c.timeEnd == -1 || c.subject == -1 || c.changeType == -1 {
      return Failed(MissingColumns);
    }
    var scanned := ScanChangeRows(c, csvRecords[1..]);
    if scanned.Panicked? {
      return IndexPanic;
    }
    return Parsed(scanned.records);
  }

  /** The call fails exactly when the sheet has fewer than two rows or its header lacks one
      of the six required names. */
  lemma ParseChangesFailure(grid: Grid)
    ensures ParseChanges(grid).Failed?
            <==> |grid| < 2
                 || (var names := HeaderNames(grid[0]);
                     KeyGroup !in names || KeyDate !in names || KeyTimeStart !in names
                     || KeyTimeEnd !in names || KeySubject !in names || KeyChangeType !in names)
  {
    if |grid| >= 2 {
      ParseRowsFailure(HeaderColumns(grid[0]), grid[1..]);
      HeaderHasRequired(grid[0]);
    }
  }

  /** After the header, the only failure is a missing required column. */
  lemma ParseRowsFailure(c: ChangeColumns, rows: seq<Row>)
    requires InRange(c)
    ensures ParseRows(c, rows).Failed? <==> !HasRequired(c)
  {
  }

  /** The six required columns are found exactly when the header names all six. */
  lemma HeaderHasRequired(header: Row)
    ensures HasRequired(HeaderColumns(header))
            <==> (var names := HeaderNames(header);
                  KeyGroup in names && KeyDate in names && KeyTimeStart in names
                  && KeyTimeEnd in names && KeySubject in names && KeyChangeType in names)
  {
    forall key {
      ColumnOfLast(HeaderNames(header), key);
    }
  }

  /** A row's verdict, spelled out: it panics exactly when it gets as far as building its
      record and the teacher or classroom column is absent, and it is kept exactly when it gets
      that far with both present and a non-blank group and subject. The time cells play no
      part in either. */
  lemma RowVerdictCases(c: ChangeColumns, row: Row)
    requires HasRequired(c) && InRange(c)
    ensures RowVerdict(c, row).Panic? <==> Reaches(c, row) && (c.teacher == -1 || c.classroom == -1)
    ensures RowVerdict(c, row).Keep?
            <==> Reaches(c, row) && c.teacher != -1 && c.classroom != -1
                 && TrimSpace(row[c.group]) != [] && TrimSpace(row[c.subject]) != []
  {
  }

  /** What a kept record holds: each field from its own column, trimmed; the date that the date
      cell parses to; the English word for the kind; the original subject exactly when that
      column exists. */
  lemma KeptRecord(c: ChangeColumns, row: Row)
    requires HasRequired(c) && InRange(c) && RowVerdict(c, row).Keep?
    ensures var r := RowVerdict(c, row).record;
            && 0 <= c.teacher < |row| && 0 <= c.classroom < |row| && c.subject < |row| && c.group < |row|
            && c.timeStart < |row| && c.timeEnd < |row| && c.date < |row| && c.changeType < |row|
            && r.groupName == TrimSpace(row[c.group]) && r.groupName != []
            && r.subject == TrimSpace(row[c.subject]) && r.subject != []
            && r.teacher == TrimSpace(row[c.teacher]) && r.classroom == TrimSpace(row[c.classroom])
            && r.timeStart == TrimSpace(row[c.timeStart]) && r.timeEnd == TrimSpace(row[c.timeEnd])
            && Some(r.date) == ParseDotDate(TrimSpace(row[c.date])) && ValidDate(r.date)
            && Some(r.changeType) == ChangeKind(TrimSpace(ToLower(row[c.changeType])))
            && r.originalSubject == (if c.originalSubject == -1 then [] else TrimSpace(row[c.originalSubject]))
  {
  }

  /** The verdicts of a concatenation are the verdicts of its parts. */
  lemma VerdictsAppend(c: ChangeColumns, xs: seq<Row>, ys: seq<Row>)
    requires HasRequired(c) && InRange(c)
    ensures Verdicts(c, xs + ys) == Verdicts(c, xs) + Verdicts(c, ys)
  {
  }

  /** The loop over a concatenation is the loop over the first part followed by the loop over
      the second: records keep the order of their rows. */
  lemma {:induction false} CollectAppend(xs: seq<Verdict>, ys: seq<Verdict>)
    ensures Collect(xs + ys)
            == match (Collect(xs), Collect(ys))
                 case (Scanned(a), Scanned(b)) => Scanned(a + b)
                 case _ => Panicked
    decreases |ys|
  {
    if ys == [] {
      assert xs + ys == xs;
    } else {
      var init := ys[..|ys| - 1];
      assert (xs + ys)[..|xs + ys| - 1] == xs + init;
      CollectAppend(xs, init);
      if Collect(xs).Scanned? && Collect(init).Scanned? {
        var a, b := Collect(xs).records, Collect(init).records;
        assert forall r: ChangeRecord :: a + b + [r] == a + (b + [r]);
      }
    }
  }

  /** The loop panics exactly when some verdict is a panic. */
  lemma {:induction false} CollectPanics(vs: seq<Verdict>)
    ensures Collect(vs).Panicked? <==> exists i :: 0 <= i < |vs| && vs[i].Panic?
  {
    if vs != [] {
      var init := vs[..|vs| - 1];
      CollectPanics(init);
      assert forall i :: 0 <= i < |init| ==> init[i] == vs[i];
    }
  }

  /** The records of the `Keep` verdicts, first to last: the reference for what a loop that
      does not panic returns. */
  function KeptOf(vs: seq<Verdict>): (rs: seq<ChangeRecord>)
    ensures |rs| <= |vs|
  {
    if vs == [] then []
    else (if vs[0].Keep? then [vs[0].record] else []) + KeptOf(vs[1..])
  }

  lemma {:induction false} KeptOfAppend(xs: seq<Verdict>, ys: seq<Verdict>)
    ensures KeptOf(xs + ys) == KeptOf(xs) + KeptOf(ys)
    decreases |xs|
  {
    if xs != [] {
      assert (xs + ys)[0] == xs[0] && (xs + ys)[1..] == xs[1..] + ys;
      KeptOfAppend(xs[1..], ys);
    } else {
      assert xs + ys == ys;
    }
  }

  /** A record is among the kept ones exactly when some verdict keeps it. */
  lemma {:induction false} KeptOfMember(vs: seq<Verdict>, r: ChangeRecord)
    ensures r in KeptOf(vs) <==> exists i :: 0 <= i < |vs| && vs[i] == Keep(r)
    decreases |vs|
  {
    if vs != [] {
      KeptOfMember(vs[1..], r);
      assert forall i :: 1 <= i < |vs| ==> vs[i] == vs[1..][i - 1];
      if r in KeptOf(vs[1..]) {
        var i :| 0 <= i < |vs[1..]| && vs[1..][i] == Keep(r);
        assert vs[i + 1] == Keep(r);
      }
    }
  }

  /** Without a panic, the loop returns exactly the kept rows' records, in row order; so a
      record is returned exactly when some row keeps it. */
  lemma {:induction false} CollectRecords(vs: seq<Verdict>)
    requires Collect(vs).Scanned?
    ensures Collect(vs).records == KeptOf(vs)
    ensures |Collect(vs).records| <= |vs|
    ensures forall r :: r in Collect(vs).records <==> exists i :: 0 <= i < |vs| && vs[i] == Keep(r)
    decreases |vs|
  {
    if vs != [] {
      var init := vs[..|vs| - 1];
      var last := vs[|vs| - 1];
      assert Collect(init).Scanned?;
      CollectRecords(init);
      assert vs == init + [last];
      KeptOfAppend(init, [last]);
      assert KeptOf([last]) == (if last.Keep? then [last.record] else []) + KeptOf([]);
    }
    forall r {
      KeptOfMember(vs, r);
    }
  }

  /** Data rows split in two parse to the records of both parts, in order. */
  lemma ParseRowsAppend(c: ChangeColumns, xs: seq<Row>, ys: seq<Row>)
    requires InRange(c) && ParseRows(c, xs).Parsed? && ParseRows(c, ys).Parsed?
    ensures ParseRows(c, xs + ys) == Parsed(ParseRows(c, xs).records + ParseRows(c, ys).records)
  {
    VerdictsAppend(c, xs, ys);
    CollectAppend(Verdicts(c, xs), Verdicts(c, ys));
  }

  /** A sheet whose data is split in two parses to the records of both parts, in order. */
  lemma ParseChangesAppend(header: Row, xs: seq<Row>, ys: seq<Row>)
    requires ParseChanges([header] + xs).Parsed? && ParseChanges([header] + ys).Parsed?
    ensures ParseChanges([header] + (xs + ys))
            == Parsed(ParseChanges([header] + xs).records + ParseChanges([header] + ys).records)
  {
    var c := HeaderColumns(header);
    var gx, gy, gxy := [header] + xs, [header] + ys, [header] + (xs + ys);
    assert gx[0] == header && gx[1..] == xs;
    assert gy[0] == header && gy[1..] == ys;
    assert gxy[0] == header && gxy[1..] == xs + ys;
    assert |gxy| >= 2;
    assert ParseChanges(gx) == ParseRows(c, xs);
    assert ParseChanges(gy) == ParseRows(c, ys);
    assert ParseChanges(gxy) == ParseRows(c, xs + ys);
    ParseRowsAppend(c, xs, ys);
  }

  /** The data rows yield exactly the records their kept rows carry, in row order (KeptRecord
      gives each one's fields): a record is in the result exactly when some row keeps it. */
  lemma ParseRowsRecords(c: ChangeColumns, rows: seq<Row>)
    requires InRange(c) && ParseRows(c, rows).Parsed?
    ensures HasRequired(c)
    ensures ParseRows(c, rows).records == KeptOf(Verdicts(c, rows))
    ensures |ParseRows(c, rows).records| <= |rows|
    ensures forall r :: r in ParseRows(c, rows).records
                        <==> exists i :: 0 <= i < |rows| && RowVerdict(c, rows[i]) == Keep(r)
  {
    CollectRecords(Verdicts(c, rows));
  }

  /** The data rows panic exactly when the required columns are there and some row reaches its
      record while the teacher or classroom column is absent. */
  lemma ParseRowsPanics(c: ChangeColumns, rows: seq<Row>)
    requires InRange(c)
    ensures ParseRows(c, rows) == IndexPanic
            <==> HasRequired(c) && (c.teacher == -1 || c.classroom == -1)
                 && exists row :: row in rows && Reaches(c, row)
  {
    if HasRequired(c) {
      var vs := Verdicts(c, rows);
      CollectPanics(vs);
      forall i | 0 <= i < |rows|
        ensures vs[i].Panic? <==> Reaches(c, rows[i]) && (c.teacher == -1 || c.classroom == -1)
      {
        RowVerdictCases(c, rows[i]);
      }
      if exists row :: row in rows && Reaches(c, row) {
        var row :| row in rows && Reaches(c, row);
        var i :| 0 <= i < |rows| && rows[i] == row;
      }
    }
  }

  /** The whole call panics exactly when the header passes and some data row reaches its record
      while the teacher or classroom column is absent. */
  lemma ParseChangesPanics(grid: Grid)
    ensures ParseChanges(grid) == IndexPanic
            <==> |grid| >= 2
                 && (var c := HeaderColumns(grid[0]);
                     HasRequired(c) && (c.teacher == -1 || c.classroom == -1)
                     && exists row :: row in grid[1..] && Reaches(c, row))
  {
    if |grid| >= 2 {
      ParseRowsPanics(HeaderColumns(grid[0]), grid[1..]);
    }
  }

  /** A cell by a column index that may be -1 or past the row: its trimmed text, or "". */
  function CellOrEmpty(row: Row, col: int): (text: String)
    ensures 0 <= col < |row| ==> text == TrimSpace(row[col])
    ensures !(0 <= col < |row|) ==> text == []
  {
    if 0 <= col < |row| then TrimSpace(row[col]) else ""
  }

  /** The row verdict the absent optional columns evidently call for: the teacher and the
      classroom read as "" when their column is absent, as the original subject already does. */
  function TolerantVerdict(c: ChangeColumns, row: Row): (v: Verdict)
    requires HasRequired(c) && InRange(c)
    ensures !v.Panic?
  {
    if |row| <= MaxColumn(c) then Skip
    else
      var date := ParseDotDate(TrimSpace(row[c.date]));
      if date.None? then Skip
      else
        var kind := ChangeKind(TrimSpace(ToLower(row[c.changeType])));
        if kind.None? then Skip
        else
          var r := ChangeRecord(
            TrimSpace(row[c.group]), date.value, TrimSpace(row[c.timeStart]), TrimSpace(row[c.timeEnd]),
            TrimSpace(row[c.subject]), CellOrEmpty(row, c.teacher), CellOrEmpty(row, c.classroom),
            kind.value, CellOrEmpty(row, c.originalSubject));
          if r.groupName == [] || r.subject == [] then Skip else Keep(r)
  }

  /** The corrected verdict differs from the written one only where that one panics. */
  lemma TolerantVerdictAgrees(c: ChangeColumns, row: Row)
    requires HasRequired(c) && InRange(c)
    ensures !RowVerdict(c, row).Panic? ==> TolerantVerdict(c, row) == RowVerdict(c, row)
    ensures RowVerdict(c, row).Panic? ==> Reaches(c, row)
  {
  }

  function TolerantVerdicts(c: ChangeColumns, rows: seq<Row>): (vs: seq<Verdict>)
    requires HasRequired(c) && InRange(c)
    ensures |vs| == |rows|
    ensures forall i :: 0 <= i < |rows| ==> vs[i] == TolerantVerdict(c, rows[i])
  {
    seq(|rows|, i requires 0 <= i < |rows| => TolerantVerdict(c, rows[i]))
  }

  /** The corrected parser: the same checks, the tolerant row verdict. */
  function ParseRowsTolerant(c: ChangeColumns, rows: seq<Row>): ChangesOutcome
    requires InRange(c)
  {
    if !HasRequired(c) then Failed(MissingColumns)
    else match Collect(TolerantVerdicts(c, rows))
      case Scanned(rs) => Parsed(rs)
      case Panicked => IndexPanic
  }

  function ParseChangesTolerant(grid: Grid): ChangesOutcome {
    if |grid| < 2 then Failed(TooFewRows) else ParseRowsTolerant(HeaderColumns(grid[0]), grid[1..])
  }

  /** On the data rows: the corrected loop never panics, and where the written one does not
      panic the two agree. */
  lemma ParseRowsTolerantCorrect(c: ChangeColumns, rows: seq<Row>)
    requires InRange(c)
    ensures ParseRowsTolerant(c, rows) != IndexPanic
    ensures ParseRows(c, rows) != IndexPanic ==> ParseRowsTolerant(c, rows) == ParseRows(c, rows)
  {
    if HasRequired(c) {
      var tvs, vs := TolerantVerdicts(c, rows), Verdicts(c, rows);
      CollectPanics(tvs);
      CollectPanics(vs);
      if !Collect(vs).Panicked? {
        forall i | 0 <= i < |rows|
          ensures tvs[i] == vs[i]
        {
          TolerantVerdictAgrees(c, rows[i]);
        }
        assert tvs == vs;
      }
    }
  }

  /** The corrected parser never panics, and on every sheet the written one does not panic on
      it returns the same outcome. */
  lemma ParseChangesTolerantCorrect(grid: Grid)
    ensures ParseChangesTolerant(grid) != IndexPanic
    ensures ParseChanges(grid) != IndexPanic ==> ParseChangesTolerant(grid) == ParseChanges(grid)
  {
    if |grid| >= 2 {
      ParseRowsTolerantCorrect(HeaderColumns(grid[0]), grid[1..]);
    }
  }

  /** A header with the six required names, capitalised, and neither teacher nor classroom. */
  const SixHeader: Row := ["Группа", "Дата", "Время начала", "Время окончания", "Предмет", "Тип изменения"]

  /** The columns that header locates (SixHeaderColumns). */
  const RequiredOnly := ChangeColumns(0, 1, 2, 3, 4, -1, -1, 5, -1)

  /** Lower-case Cyrillic words with single inner spaces. */
  predicate LowerWords(s: String) {
    forall i :: 0 <= i < |s| ==> '\U{430}' <= s[i] <= '\U{44F}' || (s[i] == ' ' && 0 < i < |s| - 1)
  }

  /** A lower-case Cyrillic name with its first letter made a capital. */
  function Capitalised(key: String): String
    requires |key| >= 1 && '\U{430}' <= key[0] <= '\U{44F}'
  {
    [(key[0] as int - 32) as char] + key[1..]
  }

  /** The header loop reads a capitalised name as the name itself. */
  lemma CapitalisedNormal(key: String)
    requires |key| >= 1 && '\U{430}' <= key[0] <= '\U{44F}' && LowerWords(key)
    ensures TrimSpace(ToLower(Capitalised(key))) == key
  {
    assert ToLower(Capitalised(key)) == key;
    TrimSpaceOfTrimmed(key);
  }

  lemma KeysLowerWords()
    ensures LowerWords(KeyGroup) && LowerWords(KeyDate) && LowerWords(KeyTimeStart)
    ensures LowerWords(KeyTimeEnd) && LowerWords(KeySubject) && LowerWords(KeyChangeType)
  {
  }

  lemma SixHeaderCell0() ensures TrimSpace(ToLower(SixHeader[0])) == KeyGroup {
    assert Capitalised(KeyGroup) == SixHeader[0];
    KeysLowerWords();
    CapitalisedNormal(KeyGroup);
  }

  lemma SixHeaderCell1() ensures TrimSpace(ToLower(SixHeader[1])) == KeyDate {
    assert Capitalised(KeyDate) == SixHeader[1];
    KeysLowerWords();
    CapitalisedNormal(KeyDate);
  }

  lemma SixHeaderCell2() ensures TrimSpace(ToLower(SixHeader[2])) == KeyTimeStart {
    assert Capitalised(KeyTimeStart) == SixHeader[2];
    KeysLowerWords();
    CapitalisedNormal(KeyTimeStart);
  }

  lemma SixHeaderCell3() ensures TrimSpace(ToLower(SixHeader[3])) == KeyTimeEnd {
    assert Capitalised(KeyTimeEnd) == SixHeader[3];
    KeysLowerWords();
    CapitalisedNormal(KeyTimeEnd);
  }

  lemma SixHeaderCell4() ensures TrimSpace(ToLower(SixHeader[4])) == KeySubject {
    assert Capitalised(KeySubject) == SixHeader[4];
    KeysLowerWords();
    CapitalisedNormal(KeySubject);
  }

  lemma SixHeaderCell5() ensures TrimSpace(ToLower(SixHeader[5])) == KeyChangeType {
    assert Capitalised(KeyChangeType) == SixHeader[5];
    KeysLowerWords();
    CapitalisedNormal(KeyChangeType);
  }

  lemma HeaderNamesAre(header: Row, names: seq<String>)
    requires |header| == |names|
    requires forall i :: 0 <= i < |header| ==> TrimSpace(ToLower(header[i])) == names[i]
    ensures HeaderNames(header) == names
  {
  }

  /** The column of a name that occurs once, at `j`, where no other name has its length. */
  lemma ColumnAt(names: seq<String>, key: String, j: nat)
    requires j < |names| && names[j] == key
    requires forall k :: 0 <= k < |names| && k != j ==> |names[k]| != |key|
    ensures ColumnOf(names, key) == j
  {
    ColumnOfLast(names, key);
  }

  lemma ColumnAbsent(names: seq<String>, key: String)
    requires forall k :: 0 <= k < |names| ==> names[k] != key
    ensures ColumnOf(names, key) == -1
  {
    ColumnOfLast(names, key);
  }

  /** The six required names in order, and nothing else. */
  predicate SixNames(names: seq<String>) {
    |names| == 6
    && names[0] == KeyGroup && names[1] == KeyDate && names[2] == KeyTimeStart
    && names[3] == KeyTimeEnd && names[4] == KeySubject && names[5] == KeyChangeType
  }

  lemma SixNamesLengths(names: seq<String>)
    requires SixNames(names)
    ensures |names[0]| == 6 && |names[1]| == 4 && |names[2]| == 12
    ensures |names[3]| == 15 && |names[4]| == 7 && |names[5]| == 13
  {
    KeysDistinct();
  }

  lemma SixColumnsFirst(names: seq<String>)
    requires SixNames(names)
    ensures ColumnOf(names, KeyGroup) == 0 && ColumnOf(names, KeyDate) == 1 && ColumnOf(names, KeyTimeStart) == 2
  {
    SixNamesLengths(names);
    KeysDistinct();
    ColumnAt(names, KeyGroup, 0);
    ColumnAt(names, KeyDate, 1);
    ColumnAt(names, KeyTimeStart, 2);
  }

  lemma SixColumnsSecond(names: seq<String>)
    requires SixNames(names)
    ensures ColumnOf(names, KeyTimeEnd) == 3 && ColumnOf(names, KeySubject) == 4 && ColumnOf(names, KeyChangeType) == 5
  {
    SixNamesLengths(names);
    KeysDistinct();
    ColumnAt(names, KeyTimeEnd, 3);
    ColumnAt(names, KeySubject, 4);
    ColumnAt(names, KeyChangeType, 5);
  }

  lemma SixColumnsAbsent(names: seq<String>)
    requires SixNames(names)
    ensures ColumnOf(names, KeyTeacher) == -1 && ColumnOf(names, KeyClassroom) == -1
    ensures ColumnOf(names, KeyOriginalSubject) == -1
  {
    SixNamesLengths(names);
    KeysDistinct();
    ColumnAbsent(names, KeyTeacher);
    ColumnAbsent(names, KeyClassroom);
    ColumnAbsent(names, KeyOriginalSubject);
  }

  /** The six required names in order, and nothing else, resolve to RequiredOnly. */
  lemma ResolveSix(names: seq<String>)
    requires SixNames(names)
    ensures ResolveColumns(names) == RequiredOnly
  {
    SixColumnsFirst(names);
    SixColumnsSecond(names);
    SixColumnsAbsent(names);
  }

  /** The header loop locates the six columns of SixHeader at 0..5, and teacher, classroom
      and original subject nowhere. */
  lemma SixHeaderColumns()
    ensures HeaderColumns(SixHeader) == RequiredOnly
  {
    SixHeaderCell0();
    SixHeaderCell1();
    SixHeaderCell2();
    SixHeaderCell3();
    SixHeaderCell4();
    SixHeaderCell5();
    HeaderNamesAre(SixHeader, [KeyGroup, KeyDate, KeyTimeStart, KeyTimeEnd, KeySubject, KeyChangeType]);
    ResolveSix(HeaderNames(SixHeader));
  }

  /** A correction row for that header: group G1 on 23.06.2025, 08:15-09:00, Math, replacement. */
  const ReplacementRow: Row := ["G1", "23.06.2025", "08:15", "09:00", "Math", "замена"]

  lemma ReplacementRowYear()
    ensures Padded(2025, 4) == "2025"
  {
    assert Padded(2, 1) == "2";
    assert Padded(20, 2) == "20";
    assert Padded(202, 3) == "202";
  }

  lemma ReplacementRowDayMonth()
    ensures Padded(23, 2) == "23" && Padded(6, 2) == "06"
  {
    assert Padded(2, 1) == "2";
    assert Padded(0, 1) == "0";
  }

  lemma ReplacementRowDateSpelling()
    ensures FormatDotDate(Date(2025, 6, 23)) == ReplacementRow[1]
  {
    ReplacementRowDayMonth();
    ReplacementRowYear();
  }

  lemma ReplacementRowDate()
    ensures ParseDotDate(TrimSpace(ReplacementRow[1])) == Some(Date(2025, 6, 23))
  {
    assert ParseDotDate(ReplacementRow[1]) == Some(Date(2025, 6, 23)) by {
      ParseFormatDotDate(Date(2025, 6, 23));
      ReplacementRowDateSpelling();
    }
    ReplacementRowDateTrimmed();
  }

  lemma ReplacementRowDateTrimmed()
    ensures TrimSpace(ReplacementRow[1]) == ReplacementRow[1]
  {
    TrimSpaceOfTrimmed(ReplacementRow[1]);
  }

  /** Lower-case Cyrillic words, possibly with inner spaces, are their own normal form. */
  lemma NormalFormOfLowerWords(s: String)
    requires LowerWords(s)
    ensures TrimSpace(ToLower(s)) == s
  {
    assert ToLower(s) == s;
    TrimSpaceOfTrimmed(s);
  }

  lemma ReplacementRowKind()
    ensures ChangeKind(TrimSpace(ToLower(ReplacementRow[5]))) == Some(Replacement)
  {
    NormalFormOfLowerWords(ReplacementRow[5]);
  }

  lemma ReplacementRowReaches()
    ensures Reaches(RequiredOnly, ReplacementRow)
  {
    assert MaxColumn(RequiredOnly) <= 5;
    ReplacementRowDate();
    ReplacementRowKind();
  }

  /** The record the sheet evidently means by that row. */
  const ReplacementRecord := ChangeRecord("G1", Date(2025, 6, 23), "08:15", "09:00", "Math", "", "", Replacement, "")

  lemma ReplacementRowCells()
    ensures TrimSpace(ReplacementRow[0]) == "G1" && TrimSpace(ReplacementRow[2]) == "08:15"
    ensures TrimSpace(ReplacementRow[3]) == "09:00" && TrimSpace(ReplacementRow[4]) == "Math"
  {
    TrimSpaceOfTrimmed(ReplacementRow[0]);
    TrimSpaceOfTrimmed(ReplacementRow[2]);
    TrimSpaceOfTrimmed(ReplacementRow[3]);
    TrimSpaceOfTrimmed(ReplacementRow[4]);
  }

  lemma ReplacementRowTolerantVerdict()
    ensures TolerantVerdict(RequiredOnly, ReplacementRow) == Keep(ReplacementRecord)
  {
    assert MaxColumn(RequiredOnly) <= 5;
    ReplacementRowCells();
    ReplacementRowDate();
    ReplacementRowKind();
  }

  /** The corrected parser yields that row's record, with an empty teacher and classroom. */
  lemma ReplacementRowTolerant()
    ensures ParseRowsTolerant(RequiredOnly, [ReplacementRow]) == Parsed([ReplacementRecord])
  {
    ReplacementRowTolerantVerdict();
    KeptSingleRow(RequiredOnly, ReplacementRow, ReplacementRecord);
  }

  lemma KeptSingleRow(c: ChangeColumns, row: Row, r: ChangeRecord)
    requires HasRequired(c) && InRange(c) && TolerantVerdict(c, row) == Keep(r)
    ensures ParseRowsTolerant(c, [row]) == Parsed([r])
  {
    var vs := TolerantVerdicts(c, [row]);
    assert vs[0] == Keep(r) && |vs| == 1;
    assert vs[..0] == [];
    assert Collect(vs) == Absorb(Collect(vs[..0]), vs[0]);
    assert Collect(vs[..0]) == Scanned([]);
    assert [] + [r] == [r];
  }

  /** As written, that row panics the parser instead of yielding its record. */
  lemma ReplacementRowPanics()
    ensures ParseRows(RequiredOnly, [ReplacementRow]) == IndexPanic
  {
    ReplacementRowReaches();
    ParseRowsPanics(RequiredOnly, [ReplacementRow]);
  }

  /** The sheet made of SixHeader and ReplacementRow: one ordinary replacement row under a header
      without teacher and classroom columns. */
  const ReplacementSheet: Grid := [SixHeader, ReplacementRow]

  lemma ReplacementSheetRows()
    ensures |ReplacementSheet| >= 2 && ReplacementSheet[0] == SixHeader
    ensures ReplacementSheet[1..] == [ReplacementRow]
  {
  }

  /** As written, ParseChangeRecords panics on that sheet. */
  lemma ReplacementSheetPanics()
    ensures ParseChanges(ReplacementSheet) == IndexPanic
  {
    ReplacementSheetRows();
    SixHeaderColumns();
    ReplacementRowPanics();
  }

  /** The corrected parser returns that row's record for the same sheet. */
  lemma ReplacementSheetTolerant()
    ensures ParseChangesTolerant(ReplacementSheet) == Parsed([ReplacementRecord])
  {
    ReplacementSheetRows();
    SixHeaderColumns();
    ReplacementRowTolerant();
  }
}
