# Schedule ingestion of the student schedule service, in Dafny

This project models how the backend of the student schedule service brings timetable data
in from Google Sheets and keeps the database tables in step with it:

- the three sheet clients turn CSV grids into `ScheduleRecord` and `ChangeRecord` values:
  - `gsheets` reads the wide timetable, with its bell schedule, its day markers and four
    cells per group, and a header-keyed corrections sheet;
  - `gsheet` rewrites the sheet's URL and reads a header-keyed timetable;
  - `gsheetapi` reads a header-keyed timetable and a stricter corrections sheet;
- the scraper service parses a corrections sheet with its own parser. It compares the data
  hash with the last one it saw. On a change it stores one `schedule_changes` row per record
  and notifies each. It also groups timetable records into the JSON timetable;
- the change service merges changes into `current_schedule`. Each change overwrites the
  active row of its (group, date, start time) slot, or inserts a row when the slot has none;
- the schedule repository runs the SQL these steps issue.

The pure parts are Dafny functions, and each Go loop is a method proved equal to them. The
repository is a class whose two tables are `seq` fields. Each SQL statement is one update of
a field; a transaction applies its statements and then either keeps the result or restores
the table.

What the environment supplies becomes a parameter of the operation that uses it:

- the exported sheet;
- the ids `uuid.New` returns;
- the clock;
- the storage failures each statement may meet;
- the data hash.

Modules, in dependency order:

- `Text`: the `strings` helpers;
- `Convert`: `strconv.Atoi` and `time.Parse("02.01.2006")`;
- `Sheets`: the shared record types and the header column map;
- `GSheets`, `GSheetsTimetable` and `GSheetsChanges`;
- `GSheet` and `GSheetApi`;
- `Schedule`: the models and the repository;
- `Changes`;
- `Scraper`.

## Model

| member | source | states |
|---|---|---|
| Sheets.LastIndex | backend/internal/scraper/gsheet/client.go:128-130 | each header name maps to the last position where it occurs, and only names that occur are keys |
| Sheets.ColumnMap | backend/internal/scraper/gsheet/client.go:128-130 | the header map holds exactly the trimmed header names, each mapped to the last column carrying it |
| Sheets.BuildColumns | backend/internal/scraper/gsheet/client.go:128-130 | the header loop builds exactly ColumnMap of the header |
| Sheets.FirstMissing | backend/internal/scraper/gsheet/client.go:133-138 | None exactly when every required name is present; otherwise the first required name the map lacks, with all earlier ones present |
| Sheets.CheckRequired | backend/internal/scraper/gsheet/client.go:133-138 | the required-column loop returns the first missing name, as FirstMissing says |
| Sheets.SpreadsheetIdMatch | backend/internal/scraper/gsheets/client.go:588-594 | the capture of `/spreadsheets/d/([^/]+)`: empty exactly when nothing matches, otherwise the '/'-free run after the leftmost match |
| Sheets.ColumnMapFits | backend/internal/scraper/gsheet/client.go:128-142 | once a name is present, every index of the header map, and column 0, is inside any row at least as wide as the header |
| Sheets.Cell | backend/internal/scraper/gsheet/client.go:150-158 | a cell read through Go's map lookup, where an absent name reads column 0, is trimmed |
| Sheets.KeptAppend | backend/internal/scraper/gsheet/client.go:142-165 | the records kept from two blocks of rows are those of the first block followed by those of the second |
| Sheets.KeptMember | backend/internal/scraper/gsheet/client.go:142-165 | a record is kept exactly when some row yields it |
| Sheets.KeptAll | backend/internal/scraper/gsheet/client.go:142-165 | when no row is skipped, every row's record is kept, in order |
| Text.TrimSpace | backend/internal/scraper/gsheet/client.go:129 | strings.TrimSpace removes exactly the white space at both ends: the result starts at the first character that is not white space, everything after it is white space, and it has no white space at either end |
| Text.TrimSpaceFacts | backend/internal/scraper/gsheets/client.go:324-326 | the trimmed text is a contiguous piece of the input, and it is empty exactly when the input is all white space |
| Text.ToLower | backend/internal/scraper/gsheets/client.go:330 | strings.ToLower maps each character to its lower-case form and keeps the length |
| Text.Index | backend/internal/scraper/gsheets/client.go:579 | strings.Index returns -1 exactly when the text does not occur, and otherwise the first position where it does |
| Text.ContainsIndex | backend/internal/scraper/gsheets/client.go:330 | Contains holds exactly when Index is not -1 |
| Text.Before | backend/internal/scraper/gsheets/client.go:579-584 | `s[:idx]` after a successful Index: the text before the first separator, or all of it when the separator is absent |
| Text.Split | backend/internal/scraper/gsheets/client.go:333-337 | strings.Split gives pieces free of the separator, with the first piece the text before the first separator; there are two or more pieces exactly when the separator occurs |
| Text.JoinSplit | backend/internal/scraper/gsheets/client.go:333-337 | joining the pieces of a split gives back the input |
| Text.BeforeCommutes | backend/internal/scraper/gsheets/client.go:579-584 | cutting at '?' and then at '#' equals cutting in the other order |
| Convert.Atoi | backend/internal/scraper/gsheets/client.go:368 | strconv.Atoi accepts only an optional '+' or '-' followed by at least one digit; it gives the signed value when that fits 64 bits and an error otherwise, and every accepted value is in range |
| Convert.AtoiDecimal | backend/internal/scraper/gsheets/client.go:368 | Atoi reads back the decimal spelling of every non-negative 64-bit value |
| Convert.ParseDotDate | backend/internal/scraper/service.go:269 | time.Parse("02.01.2006") accepts only ten characters DD.MM.YYYY that name a real calendar date |
| Convert.ParseFormatDotDate | backend/internal/scraper/service.go:269 | round trip: a valid date with a four-digit year parses back from its spelling |
| Convert.FormatParseDotDate | backend/internal/scraper/service.go:269 | the other direction: a string that parses is exactly the spelling of its date |
| GSheets.GetBellTimings | backend/internal/scraper/gsheets/client.go:214-259 | the table has exactly the five weekdays and Saturday as keys; the weekdays get the weekday schedule and Saturday its own |
| GSheets.BellTimingsOnly | backend/internal/scraper/gsheets/client.go:252-258 | a map with exactly those keys and values is the bell table |
| GSheets.BellSchedulesWellFormed | backend/internal/scraper/gsheets/client.go:220-249 | both schedules hold lessons 1 to 12 in order; each ends after it starts and no later than the next one starts |
| GSheets.BellTimingsKeys | backend/internal/scraper/gsheets/client.go:252-258 | a day is a key exactly when it is a weekday or Saturday; Sunday is absent |
| GSheets.FindTiming | backend/internal/scraper/gsheets/client.go:378-385 | the lookup returns the times of a slot with that number, or two empty strings |
| GSheets.FindTimingNumbered | backend/internal/scraper/gsheets/client.go:378-385 | in a consecutively numbered table, the lookup is direct indexing, and a number out of range gets empty times |
| GSheets.LessonTimesTable | backend/internal/scraper/gsheets/client.go:375-392 | a lesson gets bell times exactly when its day is a school day and its number is 1 to 12, and then it gets that slot's times |
| GSheets.FindLessonTiming | backend/internal/scraper/gsheets/client.go:379-385 | the lookup loop with its early break returns FindTiming |
| GSheets.MaxOf | backend/internal/scraper/gsheets/client.go:622-633 | 0 for no values; otherwise a member of the values that is at least every value |
| GSheets.Max | backend/internal/scraper/gsheets/client.go:622-633 | the loop returns MaxOf |
| GSheets.ExtractSpreadsheetID | backend/internal/scraper/gsheets/client.go:574-595 | the ID has no '/', '?' or '#', and it is empty exactly when the URL, cut at '?' and then at '#', has no match |
| GSheets.ExtractSpreadsheetIDOfPath | backend/internal/scraper/gsheets/client.go:574-595 | a document path gives back exactly its key, whatever '/' segment, query or fragment follows |
| GSheetsTimetable.GroupNames | backend/internal/scraper/gsheets/client.go:282-296 | every group name is trimmed and non-empty |
| GSheetsTimetable.GroupNamesEmpty | backend/internal/scraper/gsheets/client.go:282-296 | there is no group exactly when every cell from column 1 on is blank |
| GSheetsTimetable.ReadGroupNames | backend/internal/scraper/gsheets/client.go:282-296 | the group-name loop returns GroupNames |
| GSheetsTimetable.MarkerStepMeaning | backend/internal/scraper/gsheets/client.go:330-353 | without a comma the marker changes nothing. With one, the date is the trimmed text between the first two commas; the weekday is the trimmed text between the first two '-' before the comma, and is unchanged without a '-' |
| GSheetsTimetable.GroupCell | backend/internal/scraper/gsheets/client.go:395-440 | a group's block yields a record exactly when it lies inside the row and its subject cell is not blank |
| GSheetsTimetable.ReadBlock | backend/internal/scraper/gsheets/client.go:400-438 | the body of the group loop returns GroupCell |
| GSheetsTimetable.EmitGroups | backend/internal/scraper/gsheets/client.go:395-440 | the group loop returns the records of every group, in group order |
| GSheetsTimetable.ScanRow | backend/internal/scraper/gsheets/client.go:320-441 | one iteration skips a blank row, updates the weekday and date on a marker row, and otherwise emits the lesson row's records |
| GSheetsTimetable.ScanRows | backend/internal/scraper/gsheets/client.go:314-442 | the row loop with its mutable weekday and date returns the scan's records |
| GSheetsTimetable.ParseScheduleRecords | backend/internal/scraper/gsheets/client.go:264-448 | the parser method returns ParseSchedule |
| GSheetsTimetable.ParseScheduleFailure | backend/internal/scraper/gsheets/client.go:265-309 | it fails exactly when there are fewer than five rows, row 1 has no non-blank cell from column 1 on, or row 4 has fewer than four cells per group |
| GSheetsTimetable.ScanCount | backend/internal/scraper/gsheets/client.go:320-442 | one record per pair of a lesson row and a filled group block, whatever the markers say |
| GSheetsTimetable.GroupCellContents | backend/internal/scraper/gsheets/client.go:400-440 | a block that is not filled yields nothing; a filled one yields exactly its record: the group's name, the trimmed cells in slots 0, 2 and 3 of the block, the lesson's times and the current weekday |
| GSheetsTimetable.GroupRecordsMember | backend/internal/scraper/gsheets/client.go:394-441 | a record comes out of a lesson row exactly when it is the record of one of its filled blocks |
| GSheetsTimetable.ScanDay | backend/internal/scraper/gsheets/client.go:320-353 | the weekday and date the scan carries are those the marker rows so far set, whatever the groups |
| GSheetsTimetable.RowStepContents | backend/internal/scraper/gsheets/client.go:320-441 | a row emits a record exactly when it is a lesson row and that record is one of its filled blocks' records, with the bell times of its lesson number on the current weekday |
| GSheetsTimetable.ScanContents | backend/internal/scraper/gsheets/client.go:314-442 | a record comes out of the scan exactly when some lesson row has a filled block whose cells, group, current weekday and lesson times make that record |
| GSheetsTimetable.ParseScheduleContents | backend/internal/scraper/gsheets/client.go:264-448 | a successful parse returns exactly those records of the data rows from row 5 on |
| GSheetsTimetable.GroupRecordsCount | backend/internal/scraper/gsheets/client.go:395-440 | a lesson row yields as many records as it has filled blocks |
| GSheetsTimetable.ParseScheduleShaped | backend/internal/scraper/gsheets/client.go:414-437 | every record names one of the groups and has a trimmed non-blank subject, a trimmed teacher and room, and the bell times of its weekday |
| GSheetsTimetable.ScanIgnoresKind | backend/internal/scraper/gsheets/client.go:410-417 | rewriting the kind-of-lesson cell of any row leaves the whole scan unchanged |
| GSheetsTimetable.GroupCellIgnoresKind | backend/internal/scraper/gsheets/client.go:410-417 | a block's record does not depend on its kind-of-lesson cell |
| GSheetsTimetable.MarkerRowSetsDay | backend/internal/scraper/gsheets/client.go:330-353 | a marker of the shape "День - <weekday>, <date>" sets exactly that weekday and that date |
| GSheetsTimetable.MarkerRowIsMarker | backend/internal/scraper/gsheets/client.go:330 | such a marker is a non-blank day-marker row |
| GSheetsTimetable.ScanMarkerThenLesson | backend/internal/scraper/gsheets/client.go:320-441 | a lesson row right after such a marker gets that marker's weekday |
| GSheetsTimetable.ScanExample | backend/internal/scraper/gsheets/client.go:264-448 | the row ["1","Math","lecture","Smith","101"] after a Monday marker gives the Monday first-lesson record, 08:15 to 09:00 |
| GSheetsTimetable.ScanSnoc | backend/internal/scraper/gsheets/client.go:320-442 | scanning one more row applies that row's step to the state the earlier rows left |
| GSheetsChanges.HeaderNames | backend/internal/scraper/gsheets/client.go:462-463 | every header name is lower-cased and then trimmed |
| GSheetsChanges.ColumnOfLast | backend/internal/scraper/gsheets/client.go:462-485 | a column is -1 exactly when no header has the name, and otherwise it is the last position with that name |
| GSheetsChanges.FindColumns | backend/internal/scraper/gsheets/client.go:462-485 | the header loop with its switch finds the last position of each of the nine names |
| GSheetsChanges.ResolveColumnsInRange | backend/internal/scraper/gsheets/client.go:462-485 | every column is -1 or a header position |
| GSheetsChanges.KeysDistinct | backend/internal/scraper/gsheets/client.go:464-483 | the nine header names are distinct, so no switch case shadows another |
| GSheetsChanges.ChangeKind | backend/internal/scraper/gsheets/client.go:511-525 | a known kind is replacement, cancellation or addition |
| GSheetsChanges.MaxColumn | backend/internal/scraper/gsheets/client.go:497 | the length check compares with one of the nine indexes, which is at least every one of them |
| GSheetsChanges.ReadChangeRow | backend/internal/scraper/gsheets/client.go:497-549 | the loop body returns the row's verdict |
| GSheetsChanges.ScanChangeRows | backend/internal/scraper/gsheets/client.go:496-568 | the row loop returns the fold of the verdicts |
| GSheetsChanges.ParseChangeRecords | backend/internal/scraper/gsheets/client.go:453-571 | the parser method returns ParseChanges |
| GSheetsChanges.ParseChangesFailure | backend/internal/scraper/gsheets/client.go:488-491 | it fails exactly when there are fewer than two rows or one of the six required names is missing |
| GSheetsChanges.ParseRowsFailure | backend/internal/scraper/gsheets/client.go:488-491 | after the header, the only error is a missing required column |
| GSheetsChanges.HeaderHasRequired | backend/internal/scraper/gsheets/client.go:488-491 | the required columns are found exactly when the header names all six |
| GSheetsChanges.RowVerdictCases | backend/internal/scraper/gsheets/client.go:497-549 | a row panics exactly when it gets as far as its record while the teacher or classroom column is absent. It is kept exactly when it gets that far with both columns present and a non-blank group and subject |
| GSheetsChanges.KeptRecord | backend/internal/scraper/gsheets/client.go:527-542 | a kept record holds each trimmed cell, the parsed valid date and the English kind word; its original subject is empty exactly when that column is absent |
| GSheetsChanges.PanicPersists | backend/internal/scraper/gsheets/client.go:533-534 | once a row has panicked, the call has no result |
| GSheetsChanges.CollectPanics | backend/internal/scraper/gsheets/client.go:496-568 | the loop panics exactly when some row does |
| GSheetsChanges.KeptOf | backend/internal/scraper/gsheets/client.go:496-568 | the reference for the loop's result: the kept rows' records, first to last, never more than the rows |
| GSheetsChanges.KeptOfMember | backend/internal/scraper/gsheets/client.go:496-568 | a record is among the kept ones exactly when some row keeps it |
| GSheetsChanges.CollectRecords | backend/internal/scraper/gsheets/client.go:496-568 | without a panic the loop returns exactly KeptOf, the kept rows' records in row order, so a record is returned exactly when some row keeps it |
| GSheetsChanges.CollectAppend | backend/internal/scraper/gsheets/client.go:496-568 | the loop over two parts is the loop over the first followed by the loop over the second |
| GSheetsChanges.ParseChangesAppend | backend/internal/scraper/gsheets/client.go:496-568 | a sheet whose data rows are split in two gives the records of both parts in order |
| GSheetsChanges.ParseRowsRecords | backend/internal/scraper/gsheets/client.go:496-568 | the data rows yield exactly the kept rows' records in row order; a record is in the result exactly when some row keeps it |
| GSheetsChanges.ParseRowsPanics | backend/internal/scraper/gsheets/client.go:533-534 | the rows panic exactly when the header passes, the teacher or classroom column is absent, and some row reaches its record |
| GSheetsChanges.ParseChangesPanics | backend/internal/scraper/gsheets/client.go:533-534 | the whole call panics exactly under those conditions |
| GSheetsChanges.ReplacementRowPanics | backend/internal/scraper/gsheets/client.go:533-534 | under the column layout of a header with only the six required names, one ordinary replacement row panics |
| GSheetsChanges.SixHeaderColumns | backend/internal/scraper/gsheets/client.go:462-485 | the header Группа, Дата, Время начала, Время окончания, Предмет, Тип изменения locates those columns at 0 to 5 and teacher, classroom and original subject nowhere |
| GSheetsChanges.ReplacementSheetPanics | backend/internal/scraper/gsheets/client.go:453-571 | the sheet made of that header and the row G1, 23.06.2025, 08:15, 09:00, Math, замена makes ParseChangeRecords panic |
| GSheetsChanges.TolerantVerdictAgrees | backend/internal/scraper/gsheets/client.go:527-542 | the corrected row reader differs from the written one only where that one panics |
| GSheetsChanges.ParseChangesTolerantCorrect | backend/internal/scraper/gsheets/client.go:453-571 | the corrected parser never panics, and wherever the written one does not panic the two agree |
| GSheetsChanges.ReplacementRowTolerant | backend/internal/scraper/gsheets/client.go:527-542 | under that column layout the corrected parser turns the same row into its record, with an empty teacher and classroom |
| GSheetsChanges.ReplacementSheetTolerant | backend/internal/scraper/gsheets/client.go:453-571 | on the same sheet the corrected parser returns that row's record |
| GSheet.ConvertToExportURL | backend/internal/scraper/gsheet/client.go:88-115 | the export URL is the rewritten path followed by the CSV export query |
| GSheet.ExportURLQuery | backend/internal/scraper/gsheet/client.go:92-110 | every export URL ends with "?format=csv&gid=0" and holds exactly one '?' |
| GSheet.ExportPathCases | backend/internal/scraper/gsheet/client.go:97-107 | "/edit" becomes "/export"; otherwise a "/d/" path ends with one '/' and then "export"; any other path is kept |
| GSheet.ExportURLKeepsId | backend/internal/scraper/gsheet/client.go:88-115 | an edit link becomes the export link of the same document, with the same spreadsheet ID |
| GSheet.ReadScheduleRow | backend/internal/scraper/gsheet/client.go:143-163 | the loop body returns the row's record or a skip |
| GSheet.ScanScheduleRows | backend/internal/scraper/gsheet/client.go:142-165 | the row loop keeps the record of each row that yields one, in order |
| GSheet.ParseScheduleRecords | backend/internal/scraper/gsheet/client.go:120-168 | the parser method returns ParseSchedule |
| GSheet.ParseScheduleFailure | backend/internal/scraper/gsheet/client.go:121-138 | it fails exactly when there are fewer than two rows or one of the seven names is missing, and it reports a missing one |
| GSheet.ScheduleRowCases | backend/internal/scraper/gsheet/client.go:143-163 | a row yields a record exactly when it is as wide as the header with non-empty group and subject; the record is the seven trimmed cells |
| GSheet.ParseScheduleRecordsFrom | backend/internal/scraper/gsheet/client.go:142-165 | the records are exactly those of the data rows that yield one |
| GSheet.ParseUnderHeaderAppend | backend/internal/scraper/gsheet/client.go:142-165 | the data rows split in two give the records of both parts, in order |
| GSheet.ParseScheduleAppend | backend/internal/scraper/gsheet/client.go:120-168 | the same for whole sheets |
| GSheet.DuplicateHeaderLastWins | backend/internal/scraper/gsheet/client.go:128-130 | when a name heads several columns, the last of them is read |
| GSheetApi.ReadChangeRow | backend/internal/scraper/gsheetapi/client.go:173-208 | the loop body returns the row's record or a skip |
| GSheetApi.ScanChangeRows | backend/internal/scraper/gsheetapi/client.go:172-211 | the row loop keeps the record of each row that yields one, in order |
| GSheetApi.ParseChangeRecords | backend/internal/scraper/gsheetapi/client.go:151-214 | the parser method returns ParseChanges |
| GSheetApi.ParseChangesFailure | backend/internal/scraper/gsheetapi/client.go:152-169 | it fails exactly when there are fewer than two rows or one of the eight names, teacher and classroom included, is missing |
| GSheetApi.ChangeRowSkips | backend/internal/scraper/gsheetapi/client.go:173-208 | a row yields a record exactly when it is as wide as the header, its date parses, and its group and subject are not empty |
| GSheetApi.ChangeRowFields | backend/internal/scraper/gsheetapi/client.go:188-203 | the record holds the trimmed cells and the parsed date; its original subject is empty exactly when the header lacks that column |
| GSheetApi.ParseChangesRecordsFrom | backend/internal/scraper/gsheetapi/client.go:172-211 | the records are exactly those of the data rows that yield one |
| GSheetApi.ParseChangesAppend | backend/internal/scraper/gsheetapi/client.go:172-211 | a sheet whose data rows are split in two gives the records of both parts, in order |
| GSheetApi.ExtractSpreadsheetID | backend/internal/scraper/gsheetapi/client.go:217-235 | the ID has no '/' or '?', and it is empty exactly when the URL cut at '?' has no match |
| GSheetApi.ExtractSpreadsheetIDOfPath | backend/internal/scraper/gsheetapi/client.go:217-235 | a document path gives back its key |
| GSheetApi.FragmentStaysInId | backend/internal/scraper/gsheetapi/client.go:222-224 | only the query is cut, so a fragment stays in the ID, where the gsheets client returns the bare key |
| Schedule.FirstActive | backend/internal/schedule/repository.go:252-279 | -1 exactly when no row of the slot is active, and otherwise the first active row in table order |
| Schedule.LookupEntry | backend/internal/schedule/repository.go:252-279 | the query fails exactly on a storage error; it gives ErrNoRows exactly when no active row is in the slot; a found row is such a row |
| Schedule.SetByIdEffect | backend/internal/schedule/repository.go:283-301 | the update by id rewrites only the row with that id, and only its six SET columns |
| Schedule.SetByIdKeepsIds | backend/internal/schedule/repository.go:283-301 | updating by id keeps the primary key and the set of ids |
| Schedule.AppendKeepsIds | backend/internal/schedule/repository.go:305-327 | inserting a row with a new id keeps the primary key and adds that id |
| Schedule.InsertByStart | backend/internal/schedule/repository.go:119 | inserting into a sorted list keeps it sorted and adds exactly that row |
| Schedule.SortByStart | backend/internal/schedule/repository.go:119 | ORDER BY time_start gives a sorted permutation of the rows |
| Schedule.ActiveFor | backend/internal/schedule/repository.go:118 | WHERE group, date and is_active keeps exactly the matching rows, duplicates included |
| Schedule.ForGroup | backend/internal/schedule/repository.go:114-154 | the result is sorted by start time and is a permutation of the group's active rows on the date |
| Schedule.TextLeTotal | backend/internal/schedule/repository.go:119 | the text order compares every pair |
| Schedule.TextLeTrans | backend/internal/schedule/repository.go:119 | the text order is transitive |
| Schedule.LastDatesKeys | backend/internal/schedule/repository.go:168-171 | groupDateMap holds exactly the groups of the batch |
| Schedule.LastDatesLast | backend/internal/schedule/repository.go:168-171 | each group maps to the date of its last row in the batch |
| Schedule.ReplaceAsWritten | backend/internal/schedule/repository.go:166-206 | after a commit, the old rows come first (some deactivated) and the batch follows them |
| Schedule.DeactivateKeepsIds | backend/internal/schedule/repository.go:182-186 | deactivating keeps the primary key |
| Schedule.FreshBatchSnoc | backend/internal/schedule/repository.go:193-206 | a batch grows by an insertable row exactly when that row's id is taken neither by the table nor by the batch so far |
| Schedule.FreshBatchPrefix | backend/internal/schedule/repository.go:193-206 | a batch whose prefix cannot be inserted cannot be inserted |
| Schedule.CrossProductDeactivation | backend/internal/schedule/repository.go:174-189 | an old row is switched off exactly when it is active, its group is in the batch, and its date is the last date of some group of the batch, not necessarily its own |
| Schedule.StaleSlotStaysActive | backend/internal/schedule/repository.go:168-171 | a group with two dates in one batch leaves its old row on the earlier date active beside the new row of the same slot |
| Schedule.UnrelatedPairDeactivated | backend/internal/schedule/repository.go:174-186 | two groups with different dates switch off a row of a (group, date) pair the batch does not hold |
| Schedule.ReplaceByPairsCorrect | backend/internal/schedule/repository.go:166-206 | with the pairwise deactivation, the only active rows on a pair of the batch are the batch's own, and rows on other pairs are untouched |
| Schedule.OneDateBatchAgrees | backend/internal/schedule/repository.go:166-206 | for a batch on one date, the code as written and the pairwise replacement agree |
| Schedule.Repository.constructor | backend/internal/schedule/repository.go:20-22 | the repository starts with empty tables |
| Schedule.Repository.CreateChange | backend/internal/schedule/repository.go:82-111 | the insert succeeds exactly without a storage error and with a new id. It then appends the change carrying the database's creation time, and current_schedule is unchanged |
| Schedule.Repository.GetCurrentScheduleEntry | backend/internal/schedule/repository.go:252-279 | the lookup returns LookupEntry on the current table |
| Schedule.Repository.UpdateCurrentScheduleEntry | backend/internal/schedule/repository.go:283-301 | it fails exactly on a storage error; on success the table is SetById of the old table and the primary key holds |
| Schedule.Repository.CreateCurrentScheduleEntry | backend/internal/schedule/repository.go:305-327 | it succeeds exactly without a storage error and with a new id, and then appends the row |
| Schedule.Repository.GetCurrentScheduleForGroup | backend/internal/schedule/repository.go:114-154 | None exactly on a storage error, otherwise ForGroup of the table |
| Schedule.Repository.CollectGroupDates | backend/internal/schedule/repository.go:168-171 | the groupDateMap loop returns LastDates |
| Schedule.Repository.InsertAll | backend/internal/schedule/repository.go:193-206 | the insert loop succeeds exactly when no insert fails and the batch's ids are fresh, and then appends the batch |
| Schedule.Repository.UpdateCurrentSchedule | backend/internal/schedule/repository.go:157-214 | it commits exactly when no statement fails; the table is then ReplaceAsWritten and is otherwise restored; the primary key holds |
| Changes.ApplyOneOutcome | backend/internal/changes/service.go:88-134 | a failed call leaves the table. A call succeeds exactly when there is no storage error and either the slot has an active row or the new id is free. It adds at most one row |
| Changes.ApplyOneOverwrites | backend/internal/changes/service.go:97-109 | with an active row in the slot, exactly that row gets the subject, teacher, classroom, source "change" and source id; its other columns and all other rows stay |
| Changes.OverwriteById | backend/internal/changes/service.go:106 | under the primary key, the UPDATE by id rewrites exactly the row that was read |
| Changes.ApplyOneInserts | backend/internal/changes/service.go:110-131 | with no active row and a fresh id, exactly one active row with the change's slot, times and contents is appended |
| Changes.ChangeKindIgnored | backend/internal/changes/service.go:88-134 | the change type, original subject, creation time and active flag play no part, so a cancellation is applied like a replacement |
| Changes.AppliedSlotStaysActive | backend/internal/changes/service.go:88-134 | after a successful call, the slot has an active row carrying the change |
| Changes.FirstActiveExtends | backend/internal/changes/service.go:91 | the lookup finds the same row once the table only gains rows and keeps every frame |
| Changes.ApplyOneKeeps | backend/internal/changes/service.go:88-134 | one call keeps every row's frame and touches at most the first active row of the change's slot |
| Changes.ApplyOneKeepsIds | backend/internal/changes/service.go:88-134 | one call keeps the primary key |
| Changes.ApplyOneIds | backend/internal/changes/service.go:113 | one call adds at most the id it was given |
| Changes.UniqueLookup | backend/internal/schedule/repository.go:252-279 | with at most one active row per slot the lookup finds the slot's active row wherever the table holds it, so the row order the database picks does not matter |
| Changes.ApplyOneUnique | backend/internal/changes/service.go:88-134 | a table with at most one active row per slot keeps that after one call |
| Changes.ApplyPrefix | backend/internal/changes/service.go:62-75 | appliedCount never exceeds the number of changes seen |
| Changes.TouchedBy | backend/internal/changes/service.go:63-75 | a row some change meets is that change's first active row |
| Changes.ApplyPrefixExtends | backend/internal/changes/service.go:63-75 | the loop never removes a row or changes a row's frame |
| Changes.ApplyPrefixKeepsIds | backend/internal/changes/service.go:63-75 | the loop keeps the primary key, whatever fails |
| Changes.ApplyPrefixUntouched | backend/internal/changes/service.go:63-75 | every old row that no change meets stays exactly as it was |
| Changes.ApplyPrefixUnique | backend/internal/changes/service.go:63-75 | the loop keeps at most one active row per slot, whatever fails |
| Changes.ApplyPrefixFresh | backend/internal/changes/service.go:63-75 | with ids from uuid.New, the ids not used yet stay new to the table |
| Changes.LastOf | backend/internal/changes/service.go:63-75 | the index of the last change in a slot, or -1 exactly when no change is in it |
| Changes.FreshRunSettles | backend/internal/changes/service.go:63-75 | a fault-free loop with fresh ids applies every change and leaves each slot's row carrying the slot's last change |
| Changes.PresentRunSettles | backend/internal/changes/service.go:63-75 | when every slot already has an active row, a fault-free loop applies every change, adds no row, and leaves each slot carrying its last change |
| Changes.ApplyAllCountsAll | backend/internal/changes/service.go:62-83 | a fault-free loop with fresh ids counts every change |
| Changes.ApplyTwiceSame | backend/internal/changes/service.go:46-84 | applying the same changes a second time without faults leaves the table exactly as the first pass left it |
| Changes.Filled | backend/internal/changes/service.go:151-164 | a nil id becomes exactly the generated id and a zero time exactly the current time; a set id or time is kept; the change becomes active and every other field is kept |
| Changes.FilledIdempotent | backend/internal/changes/service.go:151-164 | filling is idempotent: a filled change keeps its id and time |
| Changes.ChangeService.constructor | backend/internal/changes/service.go:22-26 | the service keeps the repository it is given |
| Changes.ChangeService.UpdateCurrentSchedule | backend/internal/changes/service.go:88-134 | the call's table and success are ApplyOne of the old table; schedule_changes is unchanged and the primary key holds |
| Changes.ChangeService.ApplyChanges | backend/internal/changes/service.go:46-84 | without a begin or commit error, the table after the commit and the count are ApplyAll; otherwise the table is unchanged |
| Changes.ChangeService.CreateChange | backend/internal/changes/service.go:150-173 | the change is filled and then inserted; it succeeds exactly without a storage error and with a new id, and on success it is appended with the database time |
| Scraper.ChangeVerdicts | backend/internal/scraper/service.go:260-293 | the verdict of each data row, row by row |
| Scraper.ReadChangeRow | backend/internal/scraper/service.go:261-292 | the loop body returns the row's record or a skip |
| Scraper.ScanChangeRows | backend/internal/scraper/service.go:259-293 | the row loop keeps the record of each row that yields one, in order |
| Scraper.ParseChangeRecords | backend/internal/scraper/service.go:238-296 | the parser method returns ParseChanges |
| Scraper.ParseChangesFailure | backend/internal/scraper/service.go:239-256 | it fails exactly when there are fewer than two rows or one of the six required names is missing; teacher, classroom and original subject are optional |
| Scraper.ChangeRowSkips | backend/internal/scraper/service.go:262-290 | a row yields a record exactly when it is as wide as the header, its date parses, and its group and subject are not empty |
| Scraper.ChangeRowFields | backend/internal/scraper/service.go:275-285 | the record holds the trimmed cells through Go's map lookup and the parsed date |
| Scraper.ParseChangesRecordsFrom | backend/internal/scraper/service.go:259-293 | the records are exactly those of the data rows that yield one |
| Scraper.ParseChangesAppend | backend/internal/scraper/service.go:259-293 | a sheet whose data rows are split in two gives the records of both parts, in order |
| Scraper.AbsentOriginalSubjectCopiesGroup | backend/internal/scraper/service.go:284 | with the group in column 0 and no original-subject column, every record's original subject is its group name |
| Scraper.OptionalCell | backend/internal/scraper/service.go:281-284 | an optional cell is empty when the header lacks the name, and otherwise it is the trimmed cell |
| Scraper.ChangeRowOptionalCorrect | backend/internal/scraper/service.go:275-292 | the corrected reader keeps exactly the same rows and agrees on every field the header names; absent optional fields are empty |
| Scraper.RecordOfChangeOf | backend/internal/scraper/service.go:198-210 | building a change keeps the whole record, with the new id, active and no snapshot; the stored time does not touch the record |
| Scraper.CreatePrefixAppends | backend/internal/scraper/service.go:197-220 | the create loop only appends: each change comes from an earlier record without a fault, and later changes come from later records |
| Scraper.CreatePrefixStep | backend/internal/scraper/service.go:197-220 | one record changes nothing or appends one change stored from it |
| Scraper.NextIdFree | backend/internal/scraper/service.go:199 | with fresh uuid.New ids, the next record's id is free |
| Scraper.CreatePrefixAll | backend/internal/scraper/service.go:197-220 | with fresh ids and no errors, every record becomes a change, in record order |
| Scraper.ScrapeParsedEffect | backend/internal/scraper/service.go:172-231 | a scrape writes only when the parse succeeds and the hash differs from the last one. It then remembers the hash, appends the created changes and notifies each in order. A parse error is returned, and an equal hash writes nothing |
| Scraper.ScrapeStepTwice | backend/internal/scraper/service.go:180-192 | a second scrape of the same sheet writes and sends nothing, whatever ids, faults and times it meets |
| Scraper.ScrapeParsedCreatesAll | backend/internal/scraper/service.go:196-231 | with fresh ids and no errors, changed data makes one active change per record, carrying it, and each is notified |
| Scraper.ChangeScraper.constructor | backend/internal/scraper/service.go:41-53 | a new scraper remembers no hash and has notified nothing |
| Scraper.ChangeScraper.CreateChanges | backend/internal/scraper/service.go:196-220 | the create loop leaves the table and the created list as CreateAll says; current_schedule is unchanged |
| Scraper.ChangeScraper.Notify | backend/internal/scraper/service.go:226-231 | one notification per created change, in order |
| Scraper.ChangeScraper.ScrapeScheduleChanges | backend/internal/scraper/service.go:153-235 | the new hash, table, notifications and outcome are ScrapeStep of the old state |
| Scraper.Filter | backend/internal/scraper/service.go:363-373 | a group and day's bucket holds exactly the records with that group and day |
| Scraper.HasGroupSnoc | backend/internal/scraper/service.go:363-373 | an appended record adds its own group and nothing else |
| Scraper.HasDaySnoc | backend/internal/scraper/service.go:363-373 | an appended record adds its own group and day and nothing else |
| Scraper.FilterSnoc | backend/internal/scraper/service.go:363-373 | an appended record joins its own bucket at the end |
| Scraper.AddRecordAgrees | backend/internal/scraper/service.go:363-373 | one iteration keeps the grouping in agreement with the record-order reference |
| Scraper.BucketsAreFilters | backend/internal/scraper/service.go:363-373 | there is a group exactly when some record has it, and a day exactly when some record has both; each bucket holds them in record order |
| Scraper.Lessons | backend/internal/scraper/service.go:387-398 | one lesson per record, in order, with the same fields |
| Scraper.ScheduleDataOfContents | backend/internal/scraper/service.go:359-411 | the timetable has the fixed period, a group exactly when some record has it, and a day exactly when some record has both; each day holds those records' lessons in record order |
| Scraper.ConvertLessons | backend/internal/scraper/service.go:385-398 | the innermost loop returns Lessons |
| Scraper.ConvertDays | backend/internal/scraper/service.go:384-405 | the day loop turns every bucket into lessons, in any map order |
| Scraper.GroupRecords | backend/internal/scraper/service.go:361-373 | the grouping loop returns Buckets |
| Scraper.ConvertToScheduleData | backend/internal/scraper/service.go:359-411 | the method returns ScheduleDataOf the records |

The timetable parser of package gsheetapi (backend/internal/scraper/gsheetapi/client.go:98-146)
has the same text as that of package gsheet, so GSheet.ParseScheduleRecords and the GSheet
lemmas about ParseSchedule model it as well.

## Left out

- Network I/O is left out: the CSV export download, the Sheets API calls, the HTTP client and its logging. The sheet arrives as a grid, or as `None` when the export failed.
- The notification service is left out. Notifications become a list of the changes sent; a failed send is only logged in Go.
- `ScrapeMainSchedule` is left out. It fetches the college page over HTTP, then chains the modelled timetable parser and `convertToScheduleData`, and stores the JSON as a snapshot. `CreateSnapshot`, `GetActiveSnapshot` and `GetScheduleSnapshotByID` store snapshots, which this model does not hold.
- `GetChangesForGroup` in the change service and the repository is left out, as is `DetectChanges`, which does nothing.
- `StartPeriodicScraping` is left out: it holds goroutines and tickers, and concurrency is not modelled.
- `calculateDataHash` becomes the injected function `hash`. JSON encoding and MD5 are not modelled; the model assumes only that the hash is deterministic. Its error path is not modelled, since `json.Marshal` does not fail on these records.
- `uuid.New`, `time.Now` and the database's `created_at` are injected values. Storage errors are injected per statement.
- Scraper.ConvertToScheduleData: the JSON timetable keeps days in a map, because Go builds the `[]DaySchedule` slice in random map order. The model states the set of days per group and each day's lessons in order, but no order of days.
- The time-cell checks at backend/internal/scraper/gsheets/client.go:552-565 only log, so they are left out; a record with a bad time is kept, as in Go.
- The date check of the day marker (backend/internal/scraper/gsheets/client.go:343-346) only logs and is left out.
- `updateCurrentSchedule` calls the repository's row methods with `(ctx, tx, ...)`, but those methods take `(tx, ...)` only. The model follows the evident intent: each statement runs on the transaction.
- Changes.ChangeService.ApplyChanges: PostgreSQL aborts a transaction after any failed statement, so later statements fail and COMMIT rolls back. The model instead lets a failed change affect only itself, as the loop's `continue` intends.
- Changes.ChangeService.ApplyChanges: a failed commit restores the table; the rollback's own error, which is ignored in Go, is not modelled.
- Text.ToLower: only ASCII and the basic Cyrillic capitals (U+0400 to U+042F) are lowered, not all of Unicode. The sheets hold Russian and Latin text.
- Text.TrimSpace works on code points; invalid UTF-8 is not modelled.
- Convert.ParseDotDate: a date is a year, month and day; the clock and zone fields of `time.Time` are not modelled.
- Schedule.FirstActive: the single-row lookup at backend/internal/schedule/repository.go:252-279 has no ORDER BY, so when a slot holds two active rows PostgreSQL may return either. The model returns the first in table order, so Schedule.LookupEntry, Changes.ApplyOne and the lemmas built on them fix that choice. Changes.UniqueLookup shows the choice does not matter while slots are unique, and Changes.ApplyOneUnique and Changes.ApplyPrefixUnique show that the change engine keeps them unique. The replacement path can make them not unique (Schedule.StaleSlotStaysActive).
- Schedule.ForGroup: ORDER BY time_start uses the database collation. The model uses code-point order and keeps the table order for ties, where PostgreSQL guarantees no order.
- `max` in backend/internal/scraper/gsheets/client.go:622-633 is modelled on mathematical integers; Go's `int` cannot overflow on column indexes.

## Findings

| source | as written | input that shows it | evidently intended | confidence | as-written member | corrected member |
|---|---|---|---|---|---|---|
| backend/internal/scraper/gsheets/client.go:533-534 | the teacher and classroom columns are optional in the required check, but every record reads `row[teacherCol]` and `row[classroomCol]`, which is index -1 when the column is absent | a header with only Группа, Дата, Время начала, Время окончания, Предмет, Тип изменения and the row G1, 23.06.2025, 08:15, 09:00, Math, замена: Go panics with index out of range | read "" for an absent optional column, as the original subject already is | high, not executed | GSheetsChanges.ReplacementSheetPanics | GSheetsChanges.ParseChangesTolerantCorrect |
| backend/internal/schedule/repository.go:168-189 | the deactivation matches `group_name = ANY(groups) AND date = ANY(dates)`, a cross product, over a map that keeps only the last date per group | a batch with group A on day 1 and group B on day 2 switches off A's old row on day 2; a batch with group A on day 1 and day 2 leaves A's old day-1 row active | deactivate the old rows of the batch's own (group, date) pairs | medium, not executed | Schedule.UnrelatedPairDeactivated | Schedule.ReplaceByPairsCorrect |
| backend/internal/scraper/service.go:281-284 | an optional column the header lacks is read as `row[columns[name]]`, that is, column 0 | a header Группа, Дата, Время начала, Время окончания, Предмет, Тип изменения without Оригинальный предмет: every record's original subject is its group name | "" for an absent optional column | medium, not executed | Scraper.AbsentOriginalSubjectCopiesGroup | Scraper.ChangeRowOptionalCorrect |

The operation methods model the code as written. The corrected members are separate
definitions, proved to agree with the written ones wherever those behave as intended.
