/** Package changes: merging schedule changes into current_schedule. Each change is
    matched to the active row of its (group, date, start time) slot; a match is
    overwritten with the change's subject, teacher and classroom, and a slot with no
    active row gets a new row. The change type is never read. */
module Changes {
  import opened Text
  import opened Convert
  import opened Schedule

  /** The source_type of every row a change writes. */
  const ChangeSource: String := "change"

  /** The storage failure one updateCurrentSchedule call meets: at the lookup query, or
      at the UPDATE or INSERT it then issues. */
  datatype Fault = NoFault | LookupFault | WriteFault

  /** The slot a change is looked up by. */
  function ChangeSlot(c: ScheduleChange): Slot {
    Slot(c.groupName, c.date, c.timeStart)
  }

  /** The existing row with the change written over it. */
  function Overwrite(existing: CurrentSchedule, change: ScheduleChange): CurrentSchedule {
    existing.(subject := change.subject, teacher := change.teacher, classroom := change.classroom,
              sourceType := ChangeSource, sourceId := change.id)
  }

  /** The row created for a change whose slot has no active row. */
  function NewEntry(change: ScheduleChange, id: Uuid): CurrentSchedule {
    CurrentSchedule(id, change.groupName, change.date, change.timeStart, change.timeEnd,
                    change.subject, change.teacher, change.classroom, ChangeSource, change.id, true)
  }

  /** The row holds what the change writes. */
  predicate Carries(row: CurrentSchedule, c: ScheduleChange) {
    && row.subject == c.subject && row.teacher == c.teacher && row.classroom == c.classroom
    && row.sourceType == ChangeSource && row.sourceId == c.id
  }

  /** Two rows agree on every column an applied change leaves alone. */
  predicate SameFrame(a: CurrentSchedule, b: CurrentSchedule) {
    && a.id == b.id && a.groupName == b.groupName && a.date == b.date
    && a.timeStart == b.timeStart && a.timeEnd == b.timeEnd && a.isActive == b.isActive
  }

  /** `b` keeps every row of `a` in place, with its frame, and may have more rows after them. */
  predicate Extends(a: seq<CurrentSchedule>, b: seq<CurrentSchedule>) {
    |a| <= |b| && forall i :: 0 <= i < |a| ==> SameFrame(a[i], b[i])
  }

  /** The table after one updateCurrentSchedule, and whether it succeeded. */
  datatype Applied = Applied(table: seq<CurrentSchedule>, ok: bool)

  /** updateCurrentSchedule on the table: look up the slot, then overwrite the row found
      or insert a new row with the id uuid.New returned. A failed call leaves the table.
      The UPDATE goes by id; under the primary key that is the row found (OverwriteById). */
  function ApplyOne(table: seq<CurrentSchedule>, change: ScheduleChange, newId: Uuid, fault: Fault): Applied
  {
    if fault.LookupFault? then Applied(table, false)
    else
      var i := FirstActive(table, ChangeSlot(change));
      if i != -1 then
        if fault.WriteFault? then Applied(table, false)
        else Applied(table[i := Overwrite(table[i], change)], true)
      else if fault.WriteFault? || newId in Ids(table) then Applied(table, false)
      else Applied(table + [NewEntry(change, newId)], true)
  }

  /** A failed call leaves the table as it was; a call succeeds exactly when no storage
      error occurs and either the slot has an active row or the new id is free; it adds
      at most one row. */
  lemma ApplyOneOutcome(table: seq<CurrentSchedule>, change: ScheduleChange, newId: Uuid, fault: Fault)
    ensures var a := ApplyOne(table, change, newId, fault);
            && (!a.ok ==> a.table == table)
            && (a.ok <==> fault == NoFault && (FirstActive(table, ChangeSlot(change)) != -1 || newId !in Ids(table)))
            && |table| <= |a.table| <= |table| + 1
  {
  }

  /** With an active row in the slot, exactly that row is rewritten: subject, teacher,
      classroom, source type "change" and source id; its id, group, date, times and active
      flag are kept, and every other row is untouched. */
  lemma ApplyOneOverwrites(table: seq<CurrentSchedule>, change: ScheduleChange, newId: Uuid)
    requires FirstActive(table, ChangeSlot(change)) != -1
    ensures var i := FirstActive(table, ChangeSlot(change));
            var a := ApplyOne(table, change, newId, NoFault);
            && a.ok && |a.table| == |table|
            && (forall j :: 0 <= j < |table| && j != i ==> a.table[j] == table[j])
            && SameFrame(a.table[i], table[i]) && Carries(a.table[i], change)
  {
  }

  /** Under the primary key, the update by id with the overwritten row rewrites exactly the
      row it was read from. */
  lemma OverwriteById(table: seq<CurrentSchedule>, i: nat, change: ScheduleChange)
    requires DistinctIds(table) && i < |table|
    ensures SetById(table, Overwrite(table[i], change)) == table[i := Overwrite(table[i], change)]
  {
    var r := SetById(table, Overwrite(table[i], change));
    forall j | 0 <= j < |table| ensures r[j] == table[i := Overwrite(table[i], change)][j] {
      if j != i {
        assert table[j].id != table[i].id;
      }
    }
  }

  /** With no active row in the slot and a fresh id, exactly one row is added: the
      change's group, date, times, subject, teacher and classroom, source "change", active. */
  lemma ApplyOneInserts(table: seq<CurrentSchedule>, change: ScheduleChange, newId: Uuid)
    requires FirstActive(table, ChangeSlot(change)) == -1 && newId !in Ids(table)
    ensures var a := ApplyOne(table, change, newId, NoFault);
            && a.ok && a.table == table + [NewEntry(change, newId)]
            && ActiveAt(a.table[|table|], ChangeSlot(change)) && Carries(a.table[|table|], change)
            && a.table[|table|].id == newId && a.table[|table|].timeEnd == change.timeEnd
  {
  }

  /** The change type, the original subject, the creation time and the active flag of a
      change play no part: a cancellation is applied like a replacement. */
  lemma ChangeKindIgnored(table: seq<CurrentSchedule>, change: ScheduleChange, newId: Uuid, fault: Fault,
                          kind: String, original: String, createdAt: Instant, active: bool)
    ensures ApplyOne(table, change.(changeType := kind, originalSubject := original, createdAt := createdAt, isActive := active), newId, fault)
         == ApplyOne(table, change, newId, fault)
  {
  }

  /** After a successful call, whatever the change type, the slot has an active row that
      carries the change: a cancellation does not switch the slot off. */
  lemma AppliedSlotStaysActive(table: seq<CurrentSchedule>, change: ScheduleChange, newId: Uuid, fault: Fault)
    ensures var a := ApplyOne(table, change, newId, fault);
            a.ok ==> FirstActive(a.table, ChangeSlot(change)) != -1
                     && Carries(a.table[FirstActive(a.table, ChangeSlot(change))], change)
  {
    var a := ApplyOne(table, change, newId, fault);
    if a.ok {
      var s := ChangeSlot(change);
      if FirstActive(table, s) != -1 {
        ApplyOneOverwrites(table, change, newId);
        FirstActiveExtends(table, a.table, s);
      } else {
        ApplyOneInserts(table, change, newId);
        FirstActiveExtends(table, a.table, s);
      }
    }
  }

  /** The first active row of a slot is where it was once the table only gains rows and
      keeps every frame; a slot with no active row can only find one among the new rows. */
  lemma FirstActiveExtends(a: seq<CurrentSchedule>, b: seq<CurrentSchedule>, s: Slot)
    requires Extends(a, b)
    ensures FirstActive(a, s) != -1 ==> FirstActive(b, s) == FirstActive(a, s)
    ensures FirstActive(a, s) == -1 ==> FirstActive(b, s) == -1 || FirstActive(b, s) >= |a|
    ensures |a| == |b| ==> FirstActive(b, s) == FirstActive(a, s)
  {
    var i := FirstActive(a, s);
    forall k | 0 <= k < |a| ensures ActiveAt(b[k], s) == ActiveAt(a[k], s) {
      assert SameFrame(a[k], b[k]);
    }
  }

  /** One call keeps every row's frame and touches at most the first active row of the
      change's slot among the old rows. */
  lemma ApplyOneKeeps(table: seq<CurrentSchedule>, change: ScheduleChange, newId: Uuid, fault: Fault)
    ensures var a := ApplyOne(table, change, newId, fault);
            && Extends(table, a.table)
            && forall i :: 0 <= i < |table| && i != FirstActive(table, ChangeSlot(change)) ==> a.table[i] == table[i]
  {
    var a := ApplyOne(table, change, newId, fault);
    if a.ok && FirstActive(table, ChangeSlot(change)) != -1 {
      ApplyOneOverwrites(table, change, newId);
    }
  }

  /** One call keeps the primary key: an overwrite keeps the id, an insert needs a free one. */
  lemma ApplyOneKeepsIds(table: seq<CurrentSchedule>, change: ScheduleChange, newId: Uuid, fault: Fault)
    requires DistinctIds(table)
    ensures DistinctIds(ApplyOne(table, change, newId, fault).table)
  {
    var a := ApplyOne(table, change, newId, fault);
    if a.ok {
      var i := FirstActive(table, ChangeSlot(change));
      if i != -1 {
        ApplyOneOverwrites(table, change, newId);
        assert forall j :: 0 <= j < |table| ==> a.table[j].id == table[j].id;
      } else {
        AppendKeepsIds(table, NewEntry(change, newId));
      }
    }
  }

  /** The outcome of a prefix of the loop of ApplyChanges: the table and appliedCount. */
  datatype Run = Run(table: seq<CurrentSchedule>, count: nat)

  /** Every change id and every uuid.New result is given; the k-th change meets faults[k]. */
  predicate Inputs(changes: seq<ScheduleChange>, ids: seq<Uuid>, faults: seq<Fault>) {
    |ids| == |changes| && |faults| == |changes|
  }

  /** The first n iterations of the loop of ApplyChanges: a failed change is skipped, a
      successful one counts. */
  function ApplyPrefix(table: seq<CurrentSchedule>, changes: seq<ScheduleChange>, ids: seq<Uuid>, faults: seq<Fault>, n: nat): (r: Run)
    requires Inputs(changes, ids, faults) && n <= |changes|
    ensures r.count <= n
  {
    if n == 0 then Run(table, 0)
    else
      var prev := ApplyPrefix(table, changes, ids, faults, n - 1);
      var a := ApplyOne(prev.table, changes[n - 1], ids[n - 1], faults[n - 1]);
      Run(a.table, prev.count + if a.ok then 1 else 0)
  }

  /** The whole loop. */
  function ApplyAll(table: seq<CurrentSchedule>, changes: seq<ScheduleChange>, ids: seq<Uuid>, faults: seq<Fault>): Run
    requires Inputs(changes, ids, faults)
  {
    ApplyPrefix(table, changes, ids, faults, |changes|)
  }

  /** No change of the first n meets the row: it is not the first active row of any of
      their slots. */
  predicate Untouched(table: seq<CurrentSchedule>, changes: seq<ScheduleChange>, n: nat, i: nat)
    requires n <= |changes|
  {
    n == 0 || (i != FirstActive(table, ChangeSlot(changes[n - 1])) && Untouched(table, changes, n - 1, i))
  }

  /** A row some change meets is the first active row of that change's slot. */
  lemma {:induction false} TouchedBy(table: seq<CurrentSchedule>, changes: seq<ScheduleChange>, n: nat, i: nat)
    requires n <= |changes| && !Untouched(table, changes, n, i)
    ensures exists k :: 0 <= k < n && i == FirstActive(table, ChangeSlot(changes[k]))
  {
    if i != FirstActive(table, ChangeSlot(changes[n - 1])) {
      TouchedBy(table, changes, n - 1, i);
    }
  }

  /** ApplyOneKeeps as a step of the loop. */
  lemma PrefixKeeps(table: seq<CurrentSchedule>, changes: seq<ScheduleChange>, ids: seq<Uuid>, faults: seq<Fault>, n: nat)
    requires Inputs(changes, ids, faults) && 0 < n <= |changes|
    ensures var prev := ApplyPrefix(table, changes, ids, faults, n - 1).table;
            var t := ApplyPrefix(table, changes, ids, faults, n).table;
            Extends(prev, t) && KeepsOthers(prev, t, ChangeSlot(changes[n - 1]))
  {
    ApplyOneKeeps(ApplyPrefix(table, changes, ids, faults, n - 1).table, changes[n - 1], ids[n - 1], faults[n - 1]);
  }

  /** The loop never removes a row or changes its frame. */
  lemma {:induction false} ApplyPrefixExtends(table: seq<CurrentSchedule>, changes: seq<ScheduleChange>, ids: seq<Uuid>, faults: seq<Fault>, n: nat)
    requires Inputs(changes, ids, faults) && n <= |changes|
    ensures Extends(table, ApplyPrefix(table, changes, ids, faults, n).table)
  {
    if n > 0 {
      ApplyPrefixExtends(table, changes, ids, faults, n - 1);
      ApplyOneKeeps(ApplyPrefix(table, changes, ids, faults, n - 1).table, changes[n - 1], ids[n - 1], faults[n - 1]);
    }
  }

  /** The loop keeps the primary key, whatever fails. */
  lemma {:induction false} ApplyPrefixKeepsIds(table: seq<CurrentSchedule>, changes: seq<ScheduleChange>, ids: seq<Uuid>, faults: seq<Fault>, n: nat)
    requires Inputs(changes, ids, faults) && n <= |changes|
    requires DistinctIds(table)
    ensures DistinctIds(ApplyPrefix(table, changes, ids, faults, n).table)
  {
    if n > 0 {
      ApplyPrefixKeepsIds(table, changes, ids, faults, n - 1);
      ApplyOneKeepsIds(ApplyPrefix(table, changes, ids, faults, n - 1).table, changes[n - 1], ids[n - 1], faults[n - 1]);
    }
  }

  /** Every old row that no change meets is left exactly as it was. */
  lemma {:induction false} ApplyPrefixUntouched(table: seq<CurrentSchedule>, changes: seq<ScheduleChange>, ids: seq<Uuid>, faults: seq<Fault>, n: nat)
    requires Inputs(changes, ids, faults) && n <= |changes|
    ensures KeepsUntouched(table, changes, n, ApplyPrefix(table, changes, ids, faults, n).table)
  {
    if n > 0 {
      ApplyPrefixUntouched(table, changes, ids, faults, n - 1);
      UntouchedStep(table, changes, ids, faults, n);
    }
  }

  /** Every old row that none of the first n changes meets is in `t` as it was in `table`. */
  predicate KeepsUntouched(table: seq<CurrentSchedule>, changes: seq<ScheduleChange>, n: nat, t: seq<CurrentSchedule>)
    requires n <= |changes|
  {
    |table| <= |t| && forall i :: 0 <= i < |table| && Untouched(table, changes, n, i) ==> t[i] == table[i]
  }

  /** `t` differs from `prev` at most in the first active row of `slot`. */
  predicate KeepsOthers(prev: seq<CurrentSchedule>, t: seq<CurrentSchedule>, slot: Slot)
    requires |prev| <= |t|
  {
    forall i :: 0 <= i < |prev| && i != FirstActive(prev, slot) ==> t[i] == prev[i]
  }

  /** The step of ApplyPrefixUntouched: the n-th change touches at most the first active
      row of its slot, which for an old row is where it was in the original table. */
  lemma UntouchedStep(table: seq<CurrentSchedule>, changes: seq<ScheduleChange>, ids: seq<Uuid>, faults: seq<Fault>, n: nat)
    requires Inputs(changes, ids, faults) && 0 < n <= |changes|
    requires KeepsUntouched(table, changes, n - 1, ApplyPrefix(table, changes, ids, faults, n - 1).table)
    ensures KeepsUntouched(table, changes, n, ApplyPrefix(table, changes, ids, faults, n).table)
  {
    var prev := ApplyPrefix(table, changes, ids, faults, n - 1).table;
    assert Extends(table, prev) by {
      ApplyPrefixExtends(table, changes, ids, faults, n - 1);
    }
    PrefixKeeps(table, changes, ids, faults, n);
    UntouchedAfter(table, prev, ApplyPrefix(table, changes, ids, faults, n).table, changes, n - 1);
  }

  /** A step that keeps every frame and touches at most the first active row of the
      (n+1)-th change's slot leaves alone every old row none of the first n + 1 changes meets. */
  lemma UntouchedAfter(table: seq<CurrentSchedule>, prev: seq<CurrentSchedule>, t: seq<CurrentSchedule>, changes: seq<ScheduleChange>, n: nat)
    requires n < |changes| && Extends(table, prev) && Extends(prev, t)
    requires KeepsUntouched(table, changes, n, prev)
    requires KeepsOthers(prev, t, ChangeSlot(changes[n]))
    ensures KeepsUntouched(table, changes, n + 1, t)
  {
    var c := changes[n];
    FirstActiveExtends(table, prev, ChangeSlot(c));
    forall i | 0 <= i < |table| && Untouched(table, changes, n + 1, i) ensures t[i] == table[i] {
      assert i != FirstActive(table, ChangeSlot(c));
      assert Untouched(table, changes, n, i);
    }
  }

  /** At most one active row per slot. */
  predicate UniqueSlots(rows: seq<CurrentSchedule>) {
    forall i, j :: 0 <= i < j < |rows| && rows[i].isActive && rows[j].isActive ==> SlotOf(rows[i]) != SlotOf(rows[j])
  }

  /** With at most one active row per slot the single-row lookup has no choice to make: the
      slot's active row, wherever the table holds it, is the one found. */
  lemma UniqueLookup(rows: seq<CurrentSchedule>, slot: Slot, k: nat)
    requires UniqueSlots(rows) && k < |rows| && ActiveAt(rows[k], slot)
    ensures FirstActive(rows, slot) == k
    ensures LookupEntry(rows, slot, false) == Found(rows[k])
  {
  }

  /** A table with at most one active row per slot keeps that after one call: a row is
      added only to a slot with no active row. */
  lemma ApplyOneUnique(table: seq<CurrentSchedule>, change: ScheduleChange, newId: Uuid, fault: Fault)
    requires UniqueSlots(table)
    ensures UniqueSlots(ApplyOne(table, change, newId, fault).table)
  {
    var a := ApplyOne(table, change, newId, fault);
    ApplyOneKeeps(table, change, newId, fault);
    if |a.table| == |table| {
      forall i, j | 0 <= i < j < |a.table| && a.table[i].isActive && a.table[j].isActive
        ensures SlotOf(a.table[i]) != SlotOf(a.table[j])
      {
        assert SameFrame(table[i], a.table[i]) && SameFrame(table[j], a.table[j]);
      }
    } else {
      ApplyOneInserts(table, change, newId);
      forall i, j | 0 <= i < j < |a.table| && a.table[i].isActive && a.table[j].isActive
        ensures SlotOf(a.table[i]) != SlotOf(a.table[j])
      {
        assert SameFrame(table[i], a.table[i]);
        if j < |table| {
          assert SameFrame(table[j], a.table[j]);
        } else {
          assert !ActiveAt(table[i], ChangeSlot(change));
        }
      }
    }
  }

  /** Whatever fails, the loop keeps at most one active row per slot. */
  lemma {:induction false} ApplyPrefixUnique(table: seq<CurrentSchedule>, changes: seq<ScheduleChange>, ids: seq<Uuid>, faults: seq<Fault>, n: nat)
    requires Inputs(changes, ids, faults) && n <= |changes|
    requires UniqueSlots(table)
    ensures UniqueSlots(ApplyPrefix(table, changes, ids, faults, n).table)
  {
    if n > 0 {
      ApplyPrefixUnique(table, changes, ids, faults, n - 1);
      ApplyPrefixExtends(table, changes, ids, faults, n - 1);
      ApplyOneUnique(ApplyPrefix(table, changes, ids, faults, n - 1).table, changes[n - 1], ids[n - 1], faults[n - 1]);
    }
  }

  /** The index of the last of the first n changes in the slot, or -1. */
  function LastOf(changes: seq<ScheduleChange>, n: nat, s: Slot): (k: int)
    requires n <= |changes|
    ensures -1 <= k < n
    ensures k != -1 ==> ChangeSlot(changes[k]) == s && forall j :: k < j < n ==> ChangeSlot(changes[j]) != s
    ensures k == -1 <==> forall j :: 0 <= j < n ==> ChangeSlot(changes[j]) != s
  {
    if n == 0 then -1
    else if ChangeSlot(changes[n - 1]) == s then n - 1
    else LastOf(changes, n - 1, s)
  }

  predicate NoFaults(faults: seq<Fault>) {
    forall k :: 0 <= k < |faults| ==> faults[k] == NoFault
  }

  /** uuid.New returns ids that are new to the table and pairwise distinct. */
  predicate FreshIds(table: seq<CurrentSchedule>, ids: seq<Uuid>) {
    (forall i, j :: 0 <= i < j < |ids| ==> ids[i] != ids[j]) && forall k :: 0 <= k < |ids| ==> ids[k] !in Ids(table)
  }

  /** Every change's slot already has an active row. */
  predicate AllPresent(table: seq<CurrentSchedule>, changes: seq<ScheduleChange>) {
    forall k {:trigger FirstActive(table, ChangeSlot(changes[k]))} :: 0 <= k < |changes| ==> FirstActive(table, ChangeSlot(changes[k])) != -1
  }

  /** The slot has an active row carrying the last of the first n changes in it. */
  predicate SlotSettled(t: seq<CurrentSchedule>, changes: seq<ScheduleChange>, n: nat, s: Slot)
    requires n <= |changes|
  {
    var k := LastOf(changes, n, s);
    var j := FirstActive(t, s);
    k != -1 && j != -1 && Carries(t[j], changes[k])
  }

  /** Every slot of the first n changes is settled (quantified over slots, so that the
      index of the last change does not feed back into the quantifier). */
  ghost predicate Settled(t: seq<CurrentSchedule>, changes: seq<ScheduleChange>, n: nat)
    requires n <= |changes|
  {
    forall s :: LastOf(changes, n, s) != -1 ==> SlotSettled(t, changes, n, s)
  }

  /** A slot other than the new change's stays settled: its row is found where it was and
      was not touched. */
  lemma SettleOther(prev: seq<CurrentSchedule>, t: seq<CurrentSchedule>, changes: seq<ScheduleChange>, n: nat, sk: Slot)
    requires n < |changes| && sk != ChangeSlot(changes[n])
    requires SlotSettled(prev, changes, n, sk) && Extends(prev, t)
    requires forall i :: 0 <= i < |prev| && i != FirstActive(prev, ChangeSlot(changes[n])) ==> t[i] == prev[i]
    ensures SlotSettled(t, changes, n + 1, sk)
  {
    var s := ChangeSlot(changes[n]);
    FirstActiveExtends(prev, t, sk);
    var j := FirstActive(prev, sk);
    if FirstActive(prev, s) != -1 {
      assert SlotOf(prev[FirstActive(prev, s)]) == s;
    }
    assert t[j] == prev[j];
  }

  /** What one fault-free step does, in the terms the settling argument needs: it
      succeeds, keeps the old rows' frames, touches at most the slot's first active row
      among them, and leaves the slot with an active row carrying the change. */
  lemma FaultFreeStep(prev: seq<CurrentSchedule>, c: ScheduleChange, newId: Uuid)
    requires FirstActive(prev, ChangeSlot(c)) != -1 || newId !in Ids(prev)
    ensures var a := ApplyOne(prev, c, newId, NoFault);
            && a.ok && Extends(prev, a.table)
            && (forall i :: 0 <= i < |prev| && i != FirstActive(prev, ChangeSlot(c)) ==> a.table[i] == prev[i])
            && FirstActive(a.table, ChangeSlot(c)) != -1
            && Carries(a.table[FirstActive(a.table, ChangeSlot(c))], c)
  {
    ApplyOneOutcome(prev, c, newId, NoFault);
    ApplyOneKeeps(prev, c, newId, NoFault);
    AppliedSlotStaysActive(prev, c, newId, NoFault);
  }

  /** A step that keeps the old frames, touches at most the first active row of the new
      change's slot and leaves that slot carrying the change settles the first n + 1 changes. */
  lemma SettleStep(prev: seq<CurrentSchedule>, t: seq<CurrentSchedule>, changes: seq<ScheduleChange>, n: nat)
    requires n < |changes| && Settled(prev, changes, n) && Extends(prev, t)
    requires forall i :: 0 <= i < |prev| && i != FirstActive(prev, ChangeSlot(changes[n])) ==> t[i] == prev[i]
    requires FirstActive(t, ChangeSlot(changes[n])) != -1
    requires Carries(t[FirstActive(t, ChangeSlot(changes[n]))], changes[n])
    ensures Settled(t, changes, n + 1)
  {
    var m := n + 1;
    forall s | LastOf(changes, m, s) != -1 ensures SlotSettled(t, changes, m, s) {
      if s != ChangeSlot(changes[n]) {
        SettleOther(prev, t, changes, n, s);
      }
    }
  }

  /** One call adds at most the id it was given. */
  lemma ApplyOneIds(table: seq<CurrentSchedule>, change: ScheduleChange, newId: Uuid, fault: Fault)
    ensures Ids(ApplyOne(table, change, newId, fault).table) <= Ids(table) + {newId}
  {
    var t := ApplyOne(table, change, newId, fault).table;
    ApplyOneKeeps(table, change, newId, fault);
    if |t| > |table| {
      ApplyOneInserts(table, change, newId);
    }
    forall x | x in Ids(t) ensures x in Ids(table) + {newId} {
      var i :| 0 <= i < |t| && t[i].id == x;
      if i < |table| {
        assert SameFrame(table[i], t[i]);
        assert table[i] in table;
      }
    }
  }

  /** With ids from uuid.New, the ids not used yet stay new to the table, whatever fails. */
  lemma {:induction false} ApplyPrefixFresh(table: seq<CurrentSchedule>, changes: seq<ScheduleChange>, ids: seq<Uuid>, faults: seq<Fault>, n: nat)
    requires Inputs(changes, ids, faults) && n <= |changes|
    requires FreshIds(table, ids)
    ensures forall k :: n <= k < |ids| ==> ids[k] !in Ids(ApplyPrefix(table, changes, ids, faults, n).table)
  {
    if n > 0 {
      ApplyPrefixFresh(table, changes, ids, faults, n - 1);
      ApplyPrefixExtends(table, changes, ids, faults, n - 1);
      ApplyOneIds(ApplyPrefix(table, changes, ids, faults, n - 1).table, changes[n - 1], ids[n - 1], faults[n - 1]);
    }
  }

  /** One fault-free step that finds the slot or has a free id succeeds and settles the
      first n + 1 changes; when it finds the slot it adds no row. */
  lemma StepSettles(prev: seq<CurrentSchedule>, changes: seq<ScheduleChange>, n: nat, newId: Uuid)
    requires n < |changes| && Settled(prev, changes, n)
    requires FirstActive(prev, ChangeSlot(changes[n])) != -1 || newId !in Ids(prev)
    ensures var a := ApplyOne(prev, changes[n], newId, NoFault);
            && a.ok && Settled(a.table, changes, n + 1)
            && (FirstActive(prev, ChangeSlot(changes[n])) != -1 ==> |a.table| == |prev|)
  {
    var a := ApplyOne(prev, changes[n], newId, NoFault);
    FaultFreeStep(prev, changes[n], newId);
    SettleStep(prev, a.table, changes, n);
  }

  /** A fault-free loop with fresh ids applies every change and leaves each slot's row
      carrying the last change of that slot. */
  lemma {:induction false} FreshRunSettles(table: seq<CurrentSchedule>, changes: seq<ScheduleChange>, ids: seq<Uuid>, faults: seq<Fault>, n: nat)
    requires Inputs(changes, ids, faults) && n <= |changes|
    requires NoFaults(faults) && FreshIds(table, ids)
    ensures var r := ApplyPrefix(table, changes, ids, faults, n);
            r.count == n && Settled(r.table, changes, n)
  {
    if n > 0 {
      FreshRunSettles(table, changes, ids, faults, n - 1);
      FreshStep(table, changes, ids, faults, n);
    }
  }

  /** The step of FreshRunSettles: the n-th change finds its slot or a fresh id. */
  lemma FreshStep(table: seq<CurrentSchedule>, changes: seq<ScheduleChange>, ids: seq<Uuid>, faults: seq<Fault>, n: nat)
    requires Inputs(changes, ids, faults) && 0 < n <= |changes|
    requires NoFaults(faults) && FreshIds(table, ids)
    requires var r := ApplyPrefix(table, changes, ids, faults, n - 1); r.count == n - 1 && Settled(r.table, changes, n - 1)
    ensures var r := ApplyPrefix(table, changes, ids, faults, n); r.count == n && Settled(r.table, changes, n)
  {
    var prev := ApplyPrefix(table, changes, ids, faults, n - 1).table;
    assert ids[n - 1] !in Ids(prev) by {
      ApplyPrefixFresh(table, changes, ids, faults, n - 1);
    }
    assert faults[n - 1] == NoFault;
    PrefixStepSettles(table, changes, ids, faults, n);
  }

  /** StepSettles as a step of the loop: the n-th iteration, fault-free, finding its slot
      or given a free id, counts one more and settles the first n changes. */
  lemma PrefixStepSettles(table: seq<CurrentSchedule>, changes: seq<ScheduleChange>, ids: seq<Uuid>, faults: seq<Fault>, n: nat)
    requires Inputs(changes, ids, faults) && 0 < n <= |changes| && faults[n - 1] == NoFault
    requires var prev := ApplyPrefix(table, changes, ids, faults, n - 1).table;
             && Settled(prev, changes, n - 1)
             && (FirstActive(prev, ChangeSlot(changes[n - 1])) != -1 || ids[n - 1] !in Ids(prev))
    ensures var prev := ApplyPrefix(table, changes, ids, faults, n - 1);
            var r := ApplyPrefix(table, changes, ids, faults, n);
            && r.count == prev.count + 1 && Settled(r.table, changes, n)
            && (FirstActive(prev.table, ChangeSlot(changes[n - 1])) != -1 ==> |r.table| == |prev.table|)
  {
    StepSettles(ApplyPrefix(table, changes, ids, faults, n - 1).table, changes, n - 1, ids[n - 1]);
  }

  /** A fault-free loop over a table that already has an active row in every change's slot
      applies every change, adds no row, and leaves each slot's row carrying the last change
      of that slot. */
  lemma {:induction false} PresentRunSettles(table: seq<CurrentSchedule>, changes: seq<ScheduleChange>, ids: seq<Uuid>, faults: seq<Fault>, n: nat)
    requires Inputs(changes, ids, faults) && n <= |changes|
    requires NoFaults(faults) && AllPresent(table, changes)
    ensures var r := ApplyPrefix(table, changes, ids, faults, n);
            r.count == n && Settled(r.table, changes, n) && |r.table| == |table|
  {
    if n > 0 {
      PresentRunSettles(table, changes, ids, faults, n - 1);
      PresentStep(table, changes, ids, faults, n);
    }
  }

  /** The step of PresentRunSettles: the n-th change finds its slot, which was present
      in the original table. */
  lemma PresentStep(table: seq<CurrentSchedule>, changes: seq<ScheduleChange>, ids: seq<Uuid>, faults: seq<Fault>, n: nat)
    requires Inputs(changes, ids, faults) && 0 < n <= |changes|
    requires NoFaults(faults) && AllPresent(table, changes)
    requires var r := ApplyPrefix(table, changes, ids, faults, n - 1);
             r.count == n - 1 && Settled(r.table, changes, n - 1) && |r.table| == |table|
    ensures var r := ApplyPrefix(table, changes, ids, faults, n);
            r.count == n && Settled(r.table, changes, n) && |r.table| == |table|
  {
    var prev := ApplyPrefix(table, changes, ids, faults, n - 1).table;
    var s := ChangeSlot(changes[n - 1]);
    assert FirstActive(prev, s) != -1 by {
      ApplyPrefixExtends(table, changes, ids, faults, n - 1);
      assert FirstActive(table, s) != -1;
      FirstActiveExtends(table, prev, s);
    }
    assert faults[n - 1] == NoFault;
    PrefixStepSettles(table, changes, ids, faults, n);
  }

  /** A fault-free loop with fresh ids applies every change: appliedCount == len(changes). */
  lemma ApplyAllCountsAll(table: seq<CurrentSchedule>, changes: seq<ScheduleChange>, ids: seq<Uuid>, faults: seq<Fault>)
    requires Inputs(changes, ids, faults) && NoFaults(faults) && FreshIds(table, ids)
    ensures ApplyAll(table, changes, ids, faults).count == |changes|
  {
    FreshRunSettles(table, changes, ids, faults, |changes|);
  }

  /** A row the second pass meets carries, after it, what it carried after the first pass. */
  lemma SecondPassRow(once: seq<CurrentSchedule>, twice: seq<CurrentSchedule>, changes: seq<ScheduleChange>, k: nat)
    requires k < |changes| && Extends(once, twice) && |once| == |twice|
    requires Settled(once, changes, |changes|) && Settled(twice, changes, |changes|)
    ensures var i := FirstActive(once, ChangeSlot(changes[k])); 0 <= i < |once| && twice[i] == once[i]
  {
    var s := ChangeSlot(changes[k]);
    assert LastOf(changes, |changes|, s) != -1;
    FirstActiveExtends(once, twice, s);
    var i := FirstActive(once, s);
    assert SameFrame(once[i], twice[i]);
  }

  /** Applying the same change list a second time, with no storage failure in either pass,
      leaves the table exactly as the first pass left it: the second pass finds every slot,
      inserts nothing and writes the values already there. */
  lemma ApplyTwiceSame(table: seq<CurrentSchedule>, changes: seq<ScheduleChange>,
                       ids1: seq<Uuid>, faults1: seq<Fault>, ids2: seq<Uuid>, faults2: seq<Fault>)
    requires Inputs(changes, ids1, faults1) && Inputs(changes, ids2, faults2)
    requires FreshIds(table, ids1) && NoFaults(faults1) && NoFaults(faults2)
    ensures var once := ApplyAll(table, changes, ids1, faults1).table;
            ApplyAll(once, changes, ids2, faults2).table == once
  {
    var n := |changes|;
    FreshRunSettles(table, changes, ids1, faults1, n);
    ApplyPrefixExtends(table, changes, ids1, faults1, n);
    var once := ApplyAll(table, changes, ids1, faults1).table;
    assert AllPresent(once, changes) by {
      forall k | 0 <= k < n ensures FirstActive(once, ChangeSlot(changes[k])) != -1 {
        assert LastOf(changes, n, ChangeSlot(changes[k])) != -1;
      }
    }
    PresentRunSettles(once, changes, ids2, faults2, n);
    ApplyPrefixExtends(once, changes, ids2, faults2, n);
    ApplyPrefixUntouched(once, changes, ids2, faults2, n);
    var twice := ApplyAll(once, changes, ids2, faults2).table;
    forall i | 0 <= i < |once| ensures twice[i] == once[i] {
      if !Untouched(once, changes, n, i) {
        TouchedBy(once, changes, n, i);
        var k :| 0 <= k < n && i == FirstActive(once, ChangeSlot(changes[k]));
        SecondPassRow(once, twice, changes, k);
      }
    }
  }

  /** The fields CreateChange fills in: a nil id becomes the generated one, a zero creation
      time becomes the current time, and the change is made active. */
  function Filled(change: ScheduleChange, newId: Uuid, now: Instant): (c: ScheduleChange)
    ensures change.id == NilUuid ==> c.id == newId
    ensures change.id != NilUuid ==> c.id == change.id
    ensures change.createdAt == ZeroTime ==> c.createdAt == now
    ensures change.createdAt != ZeroTime ==> c.createdAt == change.createdAt
    ensures c.isActive
    ensures c.(id := change.id, createdAt := change.createdAt, isActive := change.isActive) == change
  {
    change.(id := if change.id == NilUuid then newId else change.id,
            createdAt := if change.createdAt == ZeroTime then now else change.createdAt,
            isActive := true)
  }

  /** Filling is idempotent: a filled change keeps its id and time whatever is offered next. */
  lemma FilledIdempotent(change: ScheduleChange, id1: Uuid, now1: Instant, id2: Uuid, now2: Instant)
    requires id1 != NilUuid && now1 != ZeroTime
    ensures Filled(Filled(change, id1, now1), id2, now2) == Filled(change, id1, now1)
  {
  }

  /** The outcome of ApplyChanges: an error before the loop, an error at commit, or nil
      with the number of changes applied (the count is only logged). */
  datatype ApplyOutcome = BeginFailed | CommitFailed | Committed(applied: nat)

  class ChangeService {
    const repo: Repository

    constructor(repo: Repository)
      ensures this.repo == repo
    {
      this.repo := repo;
    }

    /** updateCurrentSchedule: overwrite the active row of the change's slot, or create a
        row for it. */
    method UpdateCurrentSchedule(change: ScheduleChange, newId: Uuid, fault: Fault) returns (ok: bool)
      requires repo.Valid()
      modifies repo
      ensures repo.Valid()
      ensures ApplyOne(old(repo.currentSchedule), change, newId, fault) == Applied(repo.currentSchedule, ok)
      ensures repo.scheduleChanges == old(repo.scheduleChanges)
    {
      var existing := repo.GetCurrentScheduleEntry(change.groupName, change.date, change.timeStart, fault == LookupFault);
      if existing.LookupFailed? {
        return false;
      }
      if existing.Found? {
        OverwriteById(repo.currentSchedule, FirstActive(repo.currentSchedule, ChangeSlot(change)), change);
        ok := repo.UpdateCurrentScheduleEntry(Overwrite(existing.entry, change), fault == WriteFault);
      } else {
        ok := repo.CreateCurrentScheduleEntry(NewEntry(change, newId), fault == WriteFault);
      }
    }

    /** ApplyChanges: in one transaction, apply every change, skipping those that fail,
        then commit; a failed commit leaves the table as it was. */
    method ApplyChanges(changes: seq<ScheduleChange>, ids: seq<Uuid>, faults: seq<Fault>, beginFails: bool, commitFails: bool)
      returns (outcome: ApplyOutcome)
      requires repo.Valid() && Inputs(changes, ids, faults)
      modifies repo
      ensures repo.Valid()
      ensures beginFails ==> outcome == BeginFailed
      ensures !beginFails && commitFails ==> outcome == CommitFailed
      ensures !beginFails && !commitFails ==>
                var r := ApplyAll(old(repo.currentSchedule), changes, ids, faults);
                outcome == Committed(r.count) && repo.currentSchedule == r.table
      ensures !outcome.Committed? ==> repo.currentSchedule == old(repo.currentSchedule)
      ensures repo.scheduleChanges == old(repo.scheduleChanges)
    {
      if beginFails {
        return BeginFailed;
      }
      var saved := repo.currentSchedule;
      var applied := 0;
      var i := 0;
      while i < |changes|
        invariant 0 <= i <= |changes|
        invariant repo.Valid()
        invariant ApplyPrefix(saved, changes, ids, faults, i) == Run(repo.currentSchedule, applied)
        invariant repo.scheduleChanges == old(repo.scheduleChanges)
      {
        var ok := UpdateCurrentSchedule(changes[i], ids[i], faults[i]);
        if ok {
          applied := applied + 1;
        }
        i := i + 1;
      }
      if commitFails {
        repo.currentSchedule := saved;
        return CommitFailed;
      }
      return Committed(applied);
    }

    /** CreateChange: fill in the id, the creation time and the active flag, then insert
        the change; on success the stored creation time is the database's. */
    method CreateChange(change: ScheduleChange, newId: Uuid, now: Instant, fault: bool, dbNow: Instant)
      returns (ok: bool, stored: ScheduleChange)
      requires repo.Valid()
      modifies repo
      ensures repo.Valid()
      ensures var c := Filled(change, newId, now);
              && ok == (!fault && c.id !in ChangeIds(old(repo.scheduleChanges)))
              && stored == (if ok then c.(createdAt := dbNow) else c)
              && repo.scheduleChanges == (if ok then old(repo.scheduleChanges) + [stored] else old(repo.scheduleChanges))
      ensures repo.currentSchedule == old(repo.currentSchedule)
    {
      var c := change;
      if c.id == NilUuid {
        c := c.(id := newId);
      }
      if c.createdAt == ZeroTime {
        c := c.(createdAt := now);
      }
      if !c.isActive {
        c := c.(isActive := true);
      }
      ok, stored := repo.CreateChange(c, fault, dbNow);
    }
  }
}
