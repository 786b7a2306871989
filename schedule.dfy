/** The records of package schedule and its Repository, with the two tables the ingestion
    pipeline writes (current_schedule and schedule_changes) held in memory. A SQL statement
    becomes one update of a table field; a transaction becomes "apply, then keep or restore",
    and every storage failure the code can see is an input of the call that meets it. */
module Schedule {
  import opened Text
  import opened Convert

  /** A UUID, with 0 standing for uuid.Nil. */
  type Uuid = nat
  const NilUuid: Uuid := 0

  /** A point in time, with 0 standing for Go's zero time.Time. */
  type Instant = nat
  const ZeroTime: Instant := 0

  /** A row of schedule_changes. */
  datatype ScheduleChange = ScheduleChange(
    id: Uuid,
    snapshotId: Option<Uuid>,
    groupName: String,
    date: Date,
    timeStart: String,
    timeEnd: String,
    subject: String,
    teacher: String,
    classroom: String,
    changeType: String,
    originalSubject: String,
    createdAt: Instant,
    isActive: bool)

  /** A row of current_schedule. */
  datatype CurrentSchedule = CurrentSchedule(
    id: Uuid,
    groupName: String,
    date: Date,
    timeStart: String,
    timeEnd: String,
    subject: String,
    teacher: String,
    classroom: String,
    sourceType: String,
    sourceId: Uuid,
    isActive: bool)

  /** One lesson of the JSON timetable. */
  datatype Lesson = Lesson(
    groupName: String,
    subject: String,
    teacher: String,
    classroom: String,
    timeStart: String,
    timeEnd: String,
    dayOfWeek: String)

  /** The JSON timetable: for each group, its lessons day by day. */
  datatype ScheduleData = ScheduleData(period: String, groups: map<String, map<String, seq<Lesson>>>)

  /** The key a current-schedule row is looked up by: group, date and start time. */
  datatype Slot = Slot(groupName: String, date: Date, timeStart: String)

  function SlotOf(e: CurrentSchedule): Slot {
    Slot(e.groupName, e.date, e.timeStart)
  }

  /** The row is active and sits in the slot. */
  predicate ActiveAt(e: CurrentSchedule, slot: Slot) {
    e.isActive && SlotOf(e) == slot
  }

  /** The first active row in the slot at or after `from`, or -1. */
  function FirstActiveFrom(rows: seq<CurrentSchedule>, slot: Slot, from: nat): (i: int)
    requires from <= |rows|
    ensures i == -1 || from <= i < |rows|
    ensures i == -1 ==> forall k :: from <= k < |rows| ==> !ActiveAt(rows[k], slot)
    ensures i != -1 ==> ActiveAt(rows[i], slot) && forall k :: from <= k < i ==> !ActiveAt(rows[k], slot)
    decreases |rows| - from
  {
    if from == |rows| then -1
    else if ActiveAt(rows[from], slot) then from
    else FirstActiveFrom(rows, slot, from + 1)
  }

  /** The first active row in the slot, or -1. */
  function FirstActive(rows: seq<CurrentSchedule>, slot: Slot): (i: int)
    ensures -1 <= i < |rows|
    ensures i == -1 <==> forall k :: 0 <= k < |rows| ==> !ActiveAt(rows[k], slot)
    ensures i != -1 ==> ActiveAt(rows[i], slot) && forall k :: 0 <= k < i ==> !ActiveAt(rows[k], slot)
  {
    FirstActiveFrom(rows, slot, 0)
  }

  /** The outcome of the single-row query: the row, sql.ErrNoRows, or another error. */
  datatype Lookup = Found(entry: CurrentSchedule) | NoRows | LookupFailed

  /** The single-row query for the active row of a group, date and start time (the first in
      table order when several match). */
  function LookupEntry(rows: seq<CurrentSchedule>, slot: Slot, fault: bool): (r: Lookup)
    ensures fault <==> r.LookupFailed?
    ensures r.NoRows? <==> !fault && forall k :: 0 <= k < |rows| ==> !ActiveAt(rows[k], slot)
    ensures r.Found? ==> r.entry in rows && ActiveAt(r.entry, slot)
  {
    if fault then LookupFailed
    else
      var i := FirstActive(rows, slot);
      if i == -1 then NoRows else Found(rows[i])
  }

  /** The primary key of current_schedule: no two rows share an id. */
  predicate DistinctIds(rows: seq<CurrentSchedule>) {
    forall i, j :: 0 <= i < j < |rows| ==> rows[i].id != rows[j].id
  }

  function Ids(rows: seq<CurrentSchedule>): set<Uuid> {
    set e | e in rows :: e.id
  }

  /** The primary key of schedule_changes. */
  predicate DistinctChangeIds(changes: seq<ScheduleChange>) {
    forall i, j :: 0 <= i < j < |changes| ==> changes[i].id != changes[j].id
  }

  function ChangeIds(changes: seq<ScheduleChange>): set<Uuid> {
    set c | c in changes :: c.id
  }

  /** The six columns the update of a current-schedule row writes, taken from `entry`. */
  function Rewritten(row: CurrentSchedule, entry: CurrentSchedule): CurrentSchedule {
    row.(subject := entry.subject, teacher := entry.teacher, classroom := entry.classroom,
         sourceType := entry.sourceType, sourceId := entry.sourceId, isActive := entry.isActive)
  }

  /** The table after the update of the row whose id is `entry.id`. */
  function SetById(rows: seq<CurrentSchedule>, entry: CurrentSchedule): (r: seq<CurrentSchedule>)
    ensures |r| == |rows|
  {
    seq(|rows|, i requires 0 <= i < |rows| => if rows[i].id == entry.id then Rewritten(rows[i], entry) else rows[i])
  }

  /** The update touches only the row with the entry's id, and on it only subject, teacher,
      classroom, source type, source id and the active flag: its id, group, date and times stay. */
  lemma SetByIdEffect(rows: seq<CurrentSchedule>, entry: CurrentSchedule, i: nat)
    requires i < |rows|
    ensures var r := SetById(rows, entry)[i];
            && r.id == rows[i].id && r.groupName == rows[i].groupName && r.date == rows[i].date
            && r.timeStart == rows[i].timeStart && r.timeEnd == rows[i].timeEnd
            && (rows[i].id != entry.id ==> r == rows[i])
            && (rows[i].id == entry.id ==>
                  r.subject == entry.subject && r.teacher == entry.teacher && r.classroom == entry.classroom
                  && r.sourceType == entry.sourceType && r.sourceId == entry.sourceId && r.isActive == entry.isActive)
  {
  }

  /** Updating by id keeps the id column, so the primary key still holds. */
  lemma SetByIdKeepsIds(rows: seq<CurrentSchedule>, entry: CurrentSchedule)
    requires DistinctIds(rows)
    ensures DistinctIds(SetById(rows, entry)) && Ids(SetById(rows, entry)) == Ids(rows)
  {
    var r := SetById(rows, entry);
    assert forall i :: 0 <= i < |rows| ==> r[i].id == rows[i].id;
    forall x | x in Ids(r) ensures x in Ids(rows) {
      var e :| e in r && e.id == x;
      var i :| 0 <= i < |r| && r[i] == e;
      assert rows[i] in rows;
    }
    forall x | x in Ids(rows) ensures x in Ids(r) {
      var e :| e in rows && e.id == x;
      var i :| 0 <= i < |rows| && rows[i] == e;
      assert r[i] in r;
    }
  }

  /** Appending a row with a new id keeps the primary key. */
  lemma AppendKeepsIds(rows: seq<CurrentSchedule>, entry: CurrentSchedule)
    requires DistinctIds(rows) && entry.id !in Ids(rows)
    ensures DistinctIds(rows + [entry]) && Ids(rows + [entry]) == Ids(rows) + {entry.id}
  {
    forall i | 0 <= i < |rows| ensures rows[i].id != entry.id {
      assert rows[i] in rows;
    }
  }

  /** Text order as a C-collated ORDER BY sees it: code point by code point, a proper
      prefix first. */
  predicate TextLe(a: String, b: String)
    decreases |a|
  {
    a == [] || (b != [] && (a[0] < b[0] || (a[0] == b[0] && TextLe(a[1..], b[1..]))))
  }

  lemma {:induction false} TextLeTotal(a: String, b: String)
    ensures TextLe(a, b) || TextLe(b, a)
    decreases |a|
  {
    if a != [] && b != [] && a[0] == b[0] {
      TextLeTotal(a[1..], b[1..]);
    }
  }

  lemma {:induction false} TextLeTrans(a: String, b: String, c: String)
    requires TextLe(a, b) && TextLe(b, c)
    ensures TextLe(a, c)
    decreases |a|
  {
    if a != [] && b != [] && c != [] && a[0] == b[0] && b[0] == c[0] {
      TextLeTrans(a[1..], b[1..], c[1..]);
    }
  }

  predicate SortedByStart(rows: seq<CurrentSchedule>) {
    forall i, j :: 0 <= i < j < |rows| ==> TextLe(rows[i].timeStart, rows[j].timeStart)
  }

  /** `x` put in front of the first row that does not start before it. */
  function InsertByStart(x: CurrentSchedule, rows: seq<CurrentSchedule>): (r: seq<CurrentSchedule>)
    requires SortedByStart(rows)
    ensures SortedByStart(r)
    ensures multiset(r) == multiset(rows) + multiset{x}
  {
    if rows == [] then [x]
    else if TextLe(x.timeStart, rows[0].timeStart) then
      forall j | 0 <= j < |rows| ensures TextLe(x.timeStart, rows[j].timeStart) {
        if j > 0 {
          TextLeTrans(x.timeStart, rows[0].timeStart, rows[j].timeStart);
        }
      }
      [x] + rows
    else
      var tail := InsertByStart(x, rows[1..]);
      TextLeTotal(x.timeStart, rows[0].timeStart);
      assert rows == [rows[0]] + rows[1..];
      forall y | y in tail ensures TextLe(rows[0].timeStart, y.timeStart) {
        assert y in multiset(tail);
        if y != x {
          assert y in multiset(rows[1..]);
          var j :| 0 <= j < |rows[1..]| && rows[1..][j] == y;
          assert rows[j + 1] == y;
        }
      }
      [rows[0]] + tail
  }

  /** The rows ordered by start time (ties keep their table order). */
  function SortByStart(rows: seq<CurrentSchedule>): (r: seq<CurrentSchedule>)
    ensures SortedByStart(r)
    ensures multiset(r) == multiset(rows)
  {
    if rows == [] then []
    else
      assert rows == [rows[0]] + rows[1..];
      InsertByStart(rows[0], SortByStart(rows[1..]))
  }

  /** The rows `WHERE group_name = $1 AND date = $2 AND is_active = true`, in table order. */
  function ActiveFor(rows: seq<CurrentSchedule>, groupName: String, date: Date): (r: seq<CurrentSchedule>)
    ensures forall x :: x in r <==> x in rows && x.isActive && x.groupName == groupName && x.date == date
    ensures forall x :: multiset(r)[x] == if x.isActive && x.groupName == groupName && x.date == date then multiset(rows)[x] else 0
  {
    if rows == [] then []
    else
      assert rows == [rows[0]] + rows[1..];
      var keep := rows[0].isActive && rows[0].groupName == groupName && rows[0].date == date;
      (if keep then [rows[0]] else []) + ActiveFor(rows[1..], groupName, date)
  }

  /** GetCurrentScheduleForGroup's result: the active rows of the group on the date, every
      one of them (duplicates included), ordered by start time. */
  function ForGroup(rows: seq<CurrentSchedule>, groupName: String, date: Date): (r: seq<CurrentSchedule>)
    ensures SortedByStart(r)
    ensures forall x :: x in r <==> x in rows && x.isActive && x.groupName == groupName && x.date == date
    ensures multiset(r) == multiset(ActiveFor(rows, groupName, date))
  {
    var r := SortByStart(ActiveFor(rows, groupName, date));
    assert forall x :: x in r <==> x in multiset(r);
    r
  }

  /** What UpdateCurrentSchedule collects in groupDateMap: each group of the batch to the
      date of its LAST row in the batch (LastDatesMeaning). */
  function LastDates(batch: seq<CurrentSchedule>): (m: map<String, Date>)
  {
    if batch == [] then map[]
    else LastDates(batch[..|batch| - 1])[batch[|batch| - 1].groupName := batch[|batch| - 1].date]
  }

  /** The map holds exactly the groups of the batch. */
  lemma {:induction false} LastDatesKeys(batch: seq<CurrentSchedule>)
    ensures forall g :: g in LastDates(batch) <==> exists i :: 0 <= i < |batch| && batch[i].groupName == g
  {
    if batch != [] {
      var last := |batch| - 1;
      var init := batch[..last];
      LastDatesKeys(init);
      var m := LastDates(batch);
      assert m == LastDates(init)[batch[last].groupName := batch[last].date];
      forall g | g in m ensures exists i :: 0 <= i < |batch| && batch[i].groupName == g {
        if g != batch[last].groupName {
          var i :| 0 <= i < |init| && init[i].groupName == g;
          assert batch[i] == init[i];
        }
      }
      forall g | exists i :: 0 <= i < |batch| && batch[i].groupName == g ensures g in m {
        var i :| 0 <= i < |batch| && batch[i].groupName == g;
        if i < last {
          assert init[i] == batch[i];
        }
      }
    }
  }

  /** Each group maps to the date of its last row in the batch. */
  lemma {:induction false} LastDatesLast(batch: seq<CurrentSchedule>, g: String)
    requires g in LastDates(batch)
    ensures exists i :: 0 <= i < |batch| && batch[i].groupName == g && batch[i].date == LastDates(batch)[g]
                        && forall j :: i < j < |batch| ==> batch[j].groupName != g
  {
    var last := |batch| - 1;
    var init := batch[..last];
    var m := LastDates(batch);
    assert m == LastDates(init)[batch[last].groupName := batch[last].date];
    if g == batch[last].groupName {
      assert batch[last].groupName == g && batch[last].date == m[g];
    } else {
      LastDatesLast(init, g);
      var i :| 0 <= i < |init| && init[i].groupName == g && init[i].date == LastDates(init)[g]
               && forall j :: i < j < |init| ==> init[j].groupName != g;
      assert batch[i] == init[i];
      forall j | i < j < |batch| ensures batch[j].groupName != g {
        if j < last {
          assert batch[j] == init[j];
        }
      }
    }
  }

  /** The table after the deactivation statement: every active row whose group is one of
      `groups` and whose date is one of `dates` is made inactive. */
  function Deactivate(rows: seq<CurrentSchedule>, groups: set<String>, dates: set<Date>): (r: seq<CurrentSchedule>)
    ensures |r| == |rows|
  {
    seq(|rows|, i requires 0 <= i < |rows| =>
      if rows[i].isActive && rows[i].groupName in groups && rows[i].date in dates then rows[i].(isActive := false)
      else rows[i])
  }

  /** UpdateCurrentSchedule's table after a commit: for a non-empty batch, deactivate by
      the collected groups and dates, then insert every row of the batch. */
  function ReplaceAsWritten(rows: seq<CurrentSchedule>, batch: seq<CurrentSchedule>): (r: seq<CurrentSchedule>)
    ensures |r| == |rows| + |batch| && r[|rows|..] == batch
  {
    var m := LastDates(batch);
    (if batch == [] then rows else Deactivate(rows, m.Keys, m.Values)) + batch
  }

  /** The batch can be inserted: its ids are new and pairwise distinct. */
  predicate FreshBatch(rows: seq<CurrentSchedule>, batch: seq<CurrentSchedule>) {
    DistinctIds(batch) && forall k :: 0 <= k < |batch| ==> batch[k].id !in Ids(rows)
  }

  /** The failures a transaction can meet, one per statement kind: BEGIN, the deactivating
      UPDATE, the INSERT of the k-th row, COMMIT. */
  datatype TxFaults = TxFaults(begin: bool, deactivate: bool, inserts: set<nat>, commit: bool)

  /** UpdateCurrentSchedule commits exactly when no statement it runs fails. */
  predicate ReplaceCommits(rows: seq<CurrentSchedule>, batch: seq<CurrentSchedule>, faults: TxFaults) {
    && !faults.begin
    && !(batch != [] && faults.deactivate)
    && (forall k :: 0 <= k < |batch| ==> k !in faults.inserts)
    && FreshBatch(rows, batch)
    && !faults.commit
  }

  class Repository {
    /** The current_schedule table, in storage order. */
    var currentSchedule: seq<CurrentSchedule>
    /** The schedule_changes table, in storage order. */
    var scheduleChanges: seq<ScheduleChange>

    /** The primary keys of both tables hold. */
    ghost predicate Valid()
      reads this
    {
      DistinctIds(currentSchedule) && DistinctChangeIds(scheduleChanges)
    }

    constructor()
      ensures Valid() && currentSchedule == [] && scheduleChanges == []
    {
      currentSchedule := [];
      scheduleChanges := [];
    }

    /** CreateChange: the insert into schedule_changes that returns the creation time. The insert
        fails on a storage error or a taken id; on success the row carries the database's
        creation time, which is written back into the change. */
    method CreateChange(change: ScheduleChange, fault: bool, dbNow: Instant) returns (ok: bool, stored: ScheduleChange)
      requires Valid()
      modifies this
      ensures Valid()
      ensures ok == (!fault && change.id !in ChangeIds(old(scheduleChanges)))
      ensures stored == if ok then change.(createdAt := dbNow) else change
      ensures scheduleChanges == if ok then old(scheduleChanges) + [stored] else old(scheduleChanges)
      ensures currentSchedule == old(currentSchedule)
    {
      if fault || change.id in ChangeIds(scheduleChanges) {
        return false, change;
      }
      stored := change.(createdAt := dbNow);
      forall i | 0 <= i < |scheduleChanges| ensures scheduleChanges[i].id != stored.id {
        assert scheduleChanges[i] in scheduleChanges;
      }
      scheduleChanges := scheduleChanges + [stored];
      ok := true;
    }

    /** GetCurrentScheduleEntry: the active row in the slot, sql.ErrNoRows, or a storage error. */
    method GetCurrentScheduleEntry(groupName: String, date: Date, timeStart: String, fault: bool) returns (r: Lookup)
      ensures r == LookupEntry(currentSchedule, Slot(groupName, date, timeStart), fault)
    {
      if fault {
        return LookupFailed;
      }
      var i := FirstActive(currentSchedule, Slot(groupName, date, timeStart));
      if i == -1 {
        return NoRows;
      }
      return Found(currentSchedule[i]);
    }

    /** UpdateCurrentScheduleEntry: the six columns of the row with the entry's id. */
    method UpdateCurrentScheduleEntry(entry: CurrentSchedule, fault: bool) returns (ok: bool)
      requires Valid()
      modifies this
      ensures Valid()
      ensures ok == !fault
      ensures currentSchedule == if ok then SetById(old(currentSchedule), entry) else old(currentSchedule)
      ensures scheduleChanges == old(scheduleChanges)
    {
      if fault {
        return false;
      }
      SetByIdKeepsIds(currentSchedule, entry);
      currentSchedule := SetById(currentSchedule, entry);
      return true;
    }

    /** CreateCurrentScheduleEntry: one new row with all eleven columns; a taken id fails. */
    method CreateCurrentScheduleEntry(entry: CurrentSchedule, fault: bool) returns (ok: bool)
      requires Valid()
      modifies this
      ensures Valid()
      ensures ok == (!fault && entry.id !in Ids(old(currentSchedule)))
      ensures currentSchedule == if ok then old(currentSchedule) + [entry] else old(currentSchedule)
      ensures scheduleChanges == old(scheduleChanges)
    {
      if fault || entry.id in Ids(currentSchedule) {
        return false;
      }
      AppendKeepsIds(currentSchedule, entry);
      currentSchedule := currentSchedule + [entry];
      return true;
    }

    /** GetCurrentScheduleForGroup: the active rows of the group on the date by start time,
        or None on a storage error. */
    method GetCurrentScheduleForGroup(groupName: String, date: Date, fault: bool) returns (r: Option<seq<CurrentSchedule>>)
      ensures r.None? <==> fault
      ensures r.Some? ==> r.value == ForGroup(currentSchedule, groupName, date)
    {
      if fault {
        return None;
      }
      return Some(ForGroup(currentSchedule, groupName, date));
    }

    /** The groupDateMap loop. */
    method CollectGroupDates(schedules: seq<CurrentSchedule>) returns (groupDates: map<String, Date>)
      ensures groupDates == LastDates(schedules)
    {
      groupDates := map[];
      var i := 0;
      while i < |schedules|
        invariant 0 <= i <= |schedules|
        invariant groupDates == LastDates(schedules[..i])
      {
        assert schedules[..i + 1][..i] == schedules[..i];
        groupDates := groupDates[schedules[i].groupName := schedules[i].date];
        i := i + 1;
      }
      assert schedules[..i] == schedules;
    }

    /** The insert loop of UpdateCurrentSchedule: every row of the batch in order, stopping
        at the first insert that fails (a storage error or a taken id). */
    method InsertAll(schedules: seq<CurrentSchedule>, inserts: set<nat>) returns (ok: bool)
      requires Valid()
      modifies this
      ensures Valid()
      ensures ok == ((forall k :: 0 <= k < |schedules| ==> k !in inserts) && FreshBatch(old(currentSchedule), schedules))
      ensures ok ==> currentSchedule == old(currentSchedule) + schedules
      ensures scheduleChanges == old(scheduleChanges)
    {
      ghost var base := currentSchedule;
      var i := 0;
      assert schedules[..0] == [];
      while i < |schedules|
        invariant 0 <= i <= |schedules|
        invariant currentSchedule == base + schedules[..i]
        invariant FreshBatch(base, schedules[..i])
        invariant forall k :: 0 <= k < i ==> k !in inserts
        invariant Valid()
        invariant scheduleChanges == old(scheduleChanges)
      {
        var entry := schedules[i];
        FreshBatchSnoc(base, schedules[..i], entry);
        assert schedules[..i + 1] == schedules[..i] + [entry];
        if i in inserts || entry.id in Ids(currentSchedule) {
          FreshBatchPrefix(base, schedules, i + 1);
          return false;
        }
        AppendKeepsIds(currentSchedule, entry);
        currentSchedule := currentSchedule + [entry];
        i := i + 1;
      }
      assert schedules[..i] == schedules;
      return true;
    }

    /** UpdateCurrentSchedule: in one transaction, deactivate the old rows of the batch's
        groups and dates, insert every row of the batch, commit; any failure restores the
        table as it was. */
    method UpdateCurrentSchedule(schedules: seq<CurrentSchedule>, faults: TxFaults) returns (ok: bool)
      requires Valid()
      modifies this
      ensures Valid()
      ensures ok == ReplaceCommits(old(currentSchedule), schedules, faults)
      ensures currentSchedule == if ok then ReplaceAsWritten(old(currentSchedule), schedules) else old(currentSchedule)
      ensures scheduleChanges == old(scheduleChanges)
    {
      if faults.begin {
        return false;
      }
      var saved := currentSchedule;
      if |schedules| > 0 {
        var groupDates := CollectGroupDates(schedules);
        if faults.deactivate {
          return false;
        }
        DeactivateKeepsIds(currentSchedule, groupDates.Keys, groupDates.Values);
        currentSchedule := Deactivate(currentSchedule, groupDates.Keys, groupDates.Values);
      }
      assert Ids(currentSchedule) == Ids(saved);
      ok := InsertAll(schedules, faults.inserts);
      if !ok {
        currentSchedule := saved;
        return false;
      }
      if faults.commit {
        currentSchedule := saved;
        return false;
      }
    }
  }

  /** Deactivating keeps the id column, so the primary key still holds. */
  lemma DeactivateKeepsIds(rows: seq<CurrentSchedule>, groups: set<String>, dates: set<Date>)
    requires DistinctIds(rows)
    ensures DistinctIds(Deactivate(rows, groups, dates)) && Ids(Deactivate(rows, groups, dates)) == Ids(rows)
  {
    var r := Deactivate(rows, groups, dates);
    assert forall i :: 0 <= i < |rows| ==> r[i].id == rows[i].id;
    forall x | x in Ids(r) ensures x in Ids(rows) {
      var e :| e in r && e.id == x;
      var i :| 0 <= i < |r| && r[i] == e;
      assert rows[i] in rows;
    }
    forall x | x in Ids(rows) ensures x in Ids(r) {
      var e :| e in rows && e.id == x;
      var i :| 0 <= i < |rows| && rows[i] == e;
      assert r[i] in r;
    }
  }

  /** A batch grows by one row that can be inserted exactly when that row's id is not yet
      taken by the table or the batch so far. */
  lemma FreshBatchSnoc(rows: seq<CurrentSchedule>, batch: seq<CurrentSchedule>, entry: CurrentSchedule)
    ensures FreshBatch(rows, batch + [entry]) <==> FreshBatch(rows, batch) && entry.id !in Ids(rows + batch)
  {
    var b := batch + [entry];
    assert forall k :: 0 <= k < |batch| ==> b[k] == batch[k];
    if FreshBatch(rows, b) {
      assert b[|batch|] == entry;
      forall e | e in rows + batch ensures e.id != entry.id {
        if e in rows {
          assert e.id in Ids(rows);
        } else {
          var k :| 0 <= k < |batch| && batch[k] == e;
          assert b[k] == e;
        }
      }
    }
    if FreshBatch(rows, batch) && entry.id !in Ids(rows + batch) {
      forall k | 0 <= k < |batch| ensures batch[k].id != entry.id {
        assert batch[k] in rows + batch;
      }
      forall x | x in rows ensures x.id != entry.id {
        assert x in rows + batch;
      }
    }
  }

  /** A batch whose prefix cannot be inserted cannot be inserted. */
  lemma FreshBatchPrefix(rows: seq<CurrentSchedule>, batch: seq<CurrentSchedule>, n: nat)
    requires n <= |batch|
    ensures FreshBatch(rows, batch) ==> FreshBatch(rows, batch[..n])
  {
  }

  /** The batch's groups, and the dates the deactivation matches: the last date of each group. */
  predicate InBatchGroups(batch: seq<CurrentSchedule>, g: String) {
    exists k :: 0 <= k < |batch| && batch[k].groupName == g
  }

  predicate IsLastDate(batch: seq<CurrentSchedule>, d: Date) {
    exists g :: g in LastDates(batch) && LastDates(batch)[g] == d
  }

  /** The deactivation is a cross product: an old row is switched off exactly when it is
      active, its group occurs in the batch and its date is the last date of SOME group of
      the batch (not necessarily its own). Every other old row is kept as it was, and the
      batch follows the old rows. */
  lemma CrossProductDeactivation(rows: seq<CurrentSchedule>, batch: seq<CurrentSchedule>, i: nat)
    requires i < |rows|
    ensures var r := ReplaceAsWritten(rows, batch)[i];
            var hit := batch != [] && rows[i].isActive && InBatchGroups(batch, rows[i].groupName) && IsLastDate(batch, rows[i].date);
            (hit ==> r == rows[i].(isActive := false)) && (!hit ==> r == rows[i])
  {
    LastDatesKeys(batch);
  }

  /** One group with two dates in a batch keeps only the later date: the group's old row on
      the earlier date stays active beside the new row for the same slot. */
  lemma StaleSlotStaysActive(stale: CurrentSchedule, first: CurrentSchedule, second: CurrentSchedule)
    requires stale.isActive && first.isActive
    requires first.groupName == stale.groupName && second.groupName == stale.groupName
    requires first.date == stale.date && first.timeStart == stale.timeStart && second.date != stale.date
    ensures var r := ReplaceAsWritten([stale], [first, second]);
            && r[0] == stale
            && ActiveAt(r[0], SlotOf(first)) && ActiveAt(r[1], SlotOf(first))
  {
    var batch := [first, second];
    LastDatesKeys(batch);
    LastDatesLast(batch, stale.groupName);
    assert LastDates(batch) == map[stale.groupName := second.date];
    assert !IsLastDate(batch, stale.date);
    CrossProductDeactivation([stale], batch, 0);
  }

  /** Two groups with different dates in one batch switch off a row of the first group on
      the second group's date, a pair the batch does not hold. */
  lemma UnrelatedPairDeactivated(other: CurrentSchedule, p: CurrentSchedule, q: CurrentSchedule)
    requires other.isActive && other.groupName == p.groupName && other.date == q.date
    requires p.groupName != q.groupName && p.date != q.date
    ensures !ReplaceAsWritten([other], [p, q])[0].isActive
    ensures forall k :: 0 <= k < 2 ==> ([p, q][k].groupName, [p, q][k].date) != (other.groupName, other.date)
  {
    var batch := [p, q];
    LastDatesKeys(batch);
    assert LastDates(batch) == map[p.groupName := p.date, q.groupName := q.date];
    assert InBatchGroups(batch, other.groupName) by {
      assert batch[0].groupName == other.groupName;
    }
    assert IsLastDate(batch, other.date) by {
      assert LastDates(batch)[q.groupName] == other.date;
    }
    CrossProductDeactivation([other], batch, 0);
  }

  /** The (group, date) pairs a batch holds. */
  function Pairs(batch: seq<CurrentSchedule>): set<(String, Date)> {
    set k | 0 <= k < |batch| :: (batch[k].groupName, batch[k].date)
  }

  /** The deactivation the comment describes: the old active rows of the batch's own
      (group, date) pairs, and no others. */
  function DeactivatePairs(rows: seq<CurrentSchedule>, pairs: set<(String, Date)>): (r: seq<CurrentSchedule>)
    ensures |r| == |rows|
  {
    seq(|rows|, i requires 0 <= i < |rows| =>
      if rows[i].isActive && (rows[i].groupName, rows[i].date) in pairs then rows[i].(isActive := false) else rows[i])
  }

  /** UpdateCurrentSchedule with the pairwise deactivation. */
  function ReplaceByPairs(rows: seq<CurrentSchedule>, batch: seq<CurrentSchedule>): (r: seq<CurrentSchedule>)
    ensures |r| == |rows| + |batch| && r[|rows|..] == batch
  {
    DeactivatePairs(rows, Pairs(batch)) + batch
  }

  /** The pairwise replacement does what is meant: after it, the only active rows on a
      (group, date) pair of the batch are the batch's own rows, and old rows on any other
      pair are untouched. */
  lemma ReplaceByPairsCorrect(rows: seq<CurrentSchedule>, batch: seq<CurrentSchedule>)
    ensures var r := ReplaceByPairs(rows, batch);
            && (forall i :: 0 <= i < |r| && r[i].isActive && (r[i].groupName, r[i].date) in Pairs(batch) ==> i >= |rows|)
            && (forall i :: 0 <= i < |rows| && (rows[i].groupName, rows[i].date) !in Pairs(batch) ==> r[i] == rows[i])
  {
  }

  /** For a batch on a single date, which is how a day's timetable is written, the code as
      written and the pairwise replacement agree. */
  lemma OneDateBatchAgrees(rows: seq<CurrentSchedule>, batch: seq<CurrentSchedule>, day: Date)
    requires forall k :: 0 <= k < |batch| ==> batch[k].date == day
    ensures ReplaceAsWritten(rows, batch) == ReplaceByPairs(rows, batch)
  {
    if batch != [] {
      LastDatesKeys(batch);
      var m := LastDates(batch);
      assert m.Values == {day} by {
        forall d | d in m.Values ensures d == day {
          var g :| g in m && m[g] == d;
          LastDatesLast(batch, g);
        }
        assert batch[0].groupName in m;
        LastDatesLast(batch, batch[0].groupName);
      }
      forall i | 0 <= i < |rows|
        ensures (rows[i].groupName in m.Keys && rows[i].date in m.Values) == ((rows[i].groupName, rows[i].date) in Pairs(batch))
      {
        if (rows[i].groupName, rows[i].date) in Pairs(batch) {
          var k :| 0 <= k < |batch| && (batch[k].groupName, batch[k].date) == (rows[i].groupName, rows[i].date);
          assert rows[i].groupName in m.Keys;
        }
        if rows[i].groupName in m.Keys && rows[i].date in m.Values {
          var k :| 0 <= k < |batch| && batch[k].groupName == rows[i].groupName;
          assert (batch[k].groupName, batch[k].date) in Pairs(batch);
        }
      }
      assert Deactivate(rows, m.Keys, m.Values) == DeactivatePairs(rows, Pairs(batch));
    }
  }
}
