/** What the spreadsheet parsers share: the cell grid, the record shapes they emit
    (ScheduleRecord and ChangeRecord, identical in gsheet, gsheets, gsheetapi and the
    scraper), their layout errors, and the map from trimmed header name to column index
    that the header-keyed parsers build. */
module Sheets {
  import opened Text
  import opened Convert

  type Row = seq<String>
  type Grid = seq<Row>

  /** One lesson of one group (ScheduleRecord in the Go packages). */
  datatype ScheduleRecord = ScheduleRecord(
    groupName: String,
    subject: String,
    teacher: String,
    classroom: String,
    timeStart: String,
    timeEnd: String,
    dayOfWeek: String)

  /** One correction row (ChangeRecord in the Go packages); `date` is the parsed DD.MM.YYYY cell. */
  datatype ChangeRecord = ChangeRecord(
    groupName: String,
    date: Date,
    timeStart: String,
    timeEnd: String,
    subject: String,
    teacher: String,
    classroom: String,
    changeType: String,
    originalSubject: String)

  /** The layout errors after which a parser returns no records at all. */
  datatype ParseError =
    | TooFewRows
    | EmptyGroupRow
    | NoGroupNames
    | HeaderTooNarrow
    | MissingColumn(name: String)
    | MissingColumns

  datatype Result<T> = Ok(value: T) | Err(error: ParseError)

  /** Each key to the LAST position at which it occurs. */
  function LastIndex(keys: seq<String>): (m: map<String, nat>)
    ensures forall k :: k in m <==> k in keys
    ensures forall k :: k in m ==> m[k] < |keys| && keys[m[k]] == k
    ensures forall k, j :: k in m && m[k] < j < |keys| ==> keys[j] != k
  {
    if keys == [] then map[]
    else
      var last := |keys| - 1;
      var m0 := LastIndex(keys[..last]);
      assert forall k :: k in keys <==> k in keys[..last] || k == keys[last];
      m0[keys[last] := last]
  }

  /** The trimmed header names, column by column. */
  function TrimAll(header: Row): (names: seq<String>)
    ensures |names| == |header|
    ensures forall i :: 0 <= i < |header| ==> names[i] == TrimSpace(header[i])
  {
    seq(|header|, i requires 0 <= i < |header| => TrimSpace(header[i]))
  }

  /** The header map: every trimmed header name to the LAST column that carries it. */
  function ColumnMap(header: Row): (m: map<String, nat>)
    ensures forall k :: k in m <==> k in TrimAll(header)
    ensures forall k :: k in m ==> m[k] < |header| && TrimSpace(header[m[k]]) == k
    ensures forall k, j :: k in m && m[k] < j < |header| ==> TrimSpace(header[j]) != k
  {
    LastIndex(TrimAll(header))
  }

  /** A lookup in the header map as Go reads one: the index, or the zero value 0 when the name
      is absent. */
  function ColumnOr0(columns: map<String, nat>, name: String): nat {
    if name in columns then columns[name] else 0
  }

  /** The header loop: each column's trimmed name is mapped to its index, a later column
      overwriting an earlier one of the same name. */
  method BuildColumns(header: Row) returns (columns: map<String, nat>)
    ensures columns == ColumnMap(header)
  {
    columns := map[];
    var i := 0;
    while i < |header|
      invariant 0 <= i <= |header|
      invariant columns == LastIndex(TrimAll(header[..i]))
    {
      assert TrimAll(header[..i + 1])[..i] == TrimAll(header[..i]);
      columns := columns[TrimSpace(header[i]) := i];
      i := i + 1;
    }
    assert header[..i] == header;
  }

  /** The first name of `required` that the header map lacks, if any. */
  function FirstMissing(columns: map<String, nat>, required: seq<String>): (r: Option<String>)
    ensures r.None? <==> forall k :: 0 <= k < |required| ==> required[k] in columns
    ensures r.Some? ==> exists k :: 0 <= k < |required| && required[k] == r.value
                          && r.value !in columns && forall j :: 0 <= j < k ==> required[j] in columns
  {
    if required == [] then None
    else if required[0] !in columns then Some(required[0])
    else
      var r := FirstMissing(columns, required[1..]);
      if r.Some? then
        ghost var k :| 0 <= k < |required[1..]| && required[1..][k] == r.value
                       && r.value !in columns && forall j :: 0 <= j < k ==> required[1..][j] in columns;
        assert required[k + 1] == r.value;
        r
      else r
  }

  /** The required-column check: the names are tried in order and the first one the header map
      lacks is reported. */
  method CheckRequired(columns: map<String, nat>, required: seq<String>) returns (missing: Option<String>)
    ensures missing == FirstMissing(columns, required)
  {
    var i := 0;
    while i < |required|
      invariant 0 <= i <= |required|
      invariant FirstMissing(columns, required) == FirstMissing(columns, required[i..])
    {
      if required[i] !in columns {
        return Some(required[i]);
      }
      assert required[i..][1..] == required[i + 1..];
      i := i + 1;
    }
    return None;
  }

  /** The path marker of a Google Sheets document URL. */
  const IdMarker: String := "/spreadsheets/d/"

  /** The regular expression `/spreadsheets/d/([^/]+)` matches at position `i`: the marker,
      then at least one character other than '/'. */
  predicate IdMatchAt(s: String, i: int) {
    OccursAt(s, IdMarker, i) && i + |IdMarker| < |s| && s[i + |IdMarker|] != '/'
  }

  /** The leftmost match position at or after `from`, or -1. */
  function FirstIdMatch(s: String, from: nat): (i: int)
    requires from <= |s|
    ensures i == -1 ==> forall j :: from <= j <= |s| ==> !IdMatchAt(s, j)
    ensures i != -1 ==> from <= i < |s| && IdMatchAt(s, i) && forall j :: from <= j < i ==> !IdMatchAt(s, j)
    decreases |s| - from
  {
    if IdMatchAt(s, from) then from
    else if from == |s| then -1
    else FirstIdMatch(s, from + 1)
  }

  /** regexp.FindStringSubmatch(s)[1] for `/spreadsheets/d/([^/]+)`, or "" when there is no
      match: the greedy run of non-'/' characters after the leftmost marker that has one. */
  function SpreadsheetIdMatch(s: String): (id: String)
    ensures '/' !in id
    ensures forall k :: 0 <= k < |id| ==> id[k] in s
    ensures id == [] <==> forall i :: 0 <= i <= |s| ==> !IdMatchAt(s, i)
    ensures id != [] ==> exists i :: IdMatchAt(s, i) && (forall j :: 0 <= j < i ==> !IdMatchAt(s, j))
                              && id == Before(s[i + |IdMarker|..], '/')
  {
    var i := FirstIdMatch(s, 0);
    if i == -1 then []
    else
      var rest := s[i + |IdMarker|..];
      var id := Before(rest, '/');
      assert rest[0] != '/' && |id| >= 1;
      assert forall k :: 0 <= k < |id| ==> id[k] == s[i + |IdMarker| + k];
      id
  }

  /** The column map of a header keyed parser fits rows of width `width`: every index is
      below it, and so is column 0, the index Go reads for an absent name. */
  predicate Fits(columns: map<String, nat>, width: nat) {
    0 < width && forall k :: k in columns ==> columns[k] < width
  }

  /** The header of a grid fits every row at least as wide as the header once one
      name is present (the header is then not empty). */
  lemma ColumnMapFits(header: Row, name: String)
    requires name in ColumnMap(header)
    ensures Fits(ColumnMap(header), |header|)
  {
  }

  /** The trimmed cell of the named column, reading column 0 when the name is absent. */
  function Cell(row: Row, columns: map<String, nat>, name: String): (cell: String)
    requires ColumnOr0(columns, name) < |row|
    ensures IsTrimmed(cell)
  {
    TrimSpace(row[ColumnOr0(columns, name)])
  }

  /** The values of the `Some` entries, in order: what a loop that appends each row's record
      keeps when each row either yields a record or is skipped. */
  function Kept<T>(xs: seq<Option<T>>): (ys: seq<T>)
    ensures |ys| <= |xs|
  {
    if xs == [] then []
    else
      var init := Kept(xs[..|xs| - 1]);
      match xs[|xs| - 1]
      case Some(v) => init + [v]
      case None => init
  }

  /** Keeping distributes over concatenation: the records of two blocks of rows are the
      records of the first block followed by those of the second. */
  lemma {:induction false} KeptAppend<T>(xs: seq<Option<T>>, ys: seq<Option<T>>)
    ensures Kept(xs + ys) == Kept(xs) + Kept(ys)
    decreases |ys|
  {
    if ys == [] {
      assert xs + ys == xs;
    } else {
      var last := |ys| - 1;
      assert (xs + ys)[..|xs + ys| - 1] == xs + ys[..last];
      assert (xs + ys)[|xs + ys| - 1] == ys[last];
      KeptAppend(xs, ys[..last]);
    }
  }

  /** A value is kept exactly when some entry carries it. */
  lemma {:induction false} KeptMember<T>(xs: seq<Option<T>>, v: T)
    ensures v in Kept(xs) <==> Some(v) in xs
    decreases |xs|
  {
    if xs != [] {
      var init := xs[..|xs| - 1];
      KeptMember(init, v);
      assert xs == init + [xs[|xs| - 1]];
    }
  }

  /** Every entry is a value: nothing is dropped. */
  lemma {:induction false} KeptAll<T>(xs: seq<Option<T>>)
    requires forall i :: 0 <= i < |xs| ==> xs[i].Some?
    ensures |Kept(xs)| == |xs|
    ensures forall i :: 0 <= i < |xs| ==> Kept(xs)[i] == xs[i].value
    decreases |xs|
  {
    if xs != [] {
      KeptAll(xs[..|xs| - 1]);
    }
  }

  /** The header names the header keyed parsers look up, matched exactly after trimming. */
  const HeaderGroup: String := "Группа"
  const HeaderSubject: String := "Предмет"
  const HeaderTeacher: String := "Преподаватель"
  const HeaderClassroom: String := "Аудитория"
  const HeaderTimeStart: String := "Время начала"
  const HeaderTimeEnd: String := "Время окончания"
  const HeaderDayOfWeek: String := "День недели"
  const HeaderDate: String := "Дата"
  const HeaderChangeType: String := "Тип изменения"
  const HeaderOriginalSubject: String := "Оригинальный предмет"
}
