/**
  The client's session state: the cached entries, the rows of the work form
  and the submit gate, with the operations that update them in place.
 */
module Timesheet {
  import opened Entries
  import opened DailyStatus
  import opened Reconcile
  import opened LeaveConflict

  /** Sequence `s` without index `idx`, the others kept in order; an index past the end removes nothing. */
  function RemoveAt<T>(s: seq<T>, idx: nat): (r: seq<T>)
    ensures idx < |s| ==> |r| == |s| - 1
    ensures idx >= |s| ==> r == s
    ensures forall i | 0 <= i < idx && i < |r| :: r[i] == s[i]
    ensures forall i | idx <= i < |r| :: r[i] == s[i + 1]
  {
    if idx < |s| then s[..idx] + s[idx + 1..] else s
  }

  /** The cache after a fetch: replaced on success, untouched on failure (`None`). */
  function Refreshed(cached: seq<Entry>, fetched: Option<seq<Entry>>): seq<Entry>
  {
    match fetched
    case Some(es) => es
    case None => cached
  }

  /** The record the submit handler sends and caches; it carries no entry type. */
  const SubmittedRecord: Entry := Other

  /**
    The leave fields of the form, as far as the conflict check needs them.
    `fieldsOk` stands for the field checks other than the order of the dates
    (leave type, session, description, future dates).
   */
  datatype LeaveForm = LeaveForm(from: int, to: int, fieldsOk: bool)

  /** How one submission attempt ends. */
  datatype SubmitOutcome =
    | NoDateSelected
    | WorkRejected(work: WorkVerdict)
    | LeaveFieldsRejected
    | LeaveRejected(leave: LeaveVerdict)
    | SendFailed
    | Submitted

  /**
    The decision of one submission attempt, made against the refreshed cache
    `cache`. `delivered` says whether the send request completed without a
    network error; the server's response is not inspected.
   */
  function SubmissionOutcome(kind: EntryKind, date: Option<int>, cache: seq<Entry>, rows: seq<Row>,
                             leave: LeaveForm, delivered: bool): (o: SubmitOutcome)
    ensures o == Submitted ==> delivered
    ensures o == Submitted && kind == WorkKind ==>
              && date.Some?
              && !StatusOf(cache, date.value).hasFullLeave
              && rows != []
              && StatusOf(cache, date.value).totalHours + RowsTotal(rows) == DayHalfHours
              && forall i | 0 <= i < |rows| :: Complete(rows[i])
    ensures o == Submitted && kind == LeaveKind ==>
              && leave.from <= leave.to
              && forall x | leave.from <= x <= leave.to :: !Conflicts(cache, x)
    ensures kind == WorkKind && date.Some? && StatusOf(cache, date.value).hasFullLeave ==>
              o == WorkRejected(FullLeaveBlocks)
    ensures kind == LeaveKind && leave.fieldsOk && leave.from <= leave.to ==>
              (o.LeaveRejected? <==> exists x | leave.from <= x <= leave.to :: Conflicts(cache, x))
    ensures kind == WorkKind && date.None? ==> o == NoDateSelected
    ensures kind == WorkKind && date.Some? ==>
              (o == Submitted <==> delivered && WorkVerdictFor(StatusOf(cache, date.value), rows) == WorkAccepted)
    ensures o.WorkRejected? ==>
              && kind == WorkKind
              && date.Some?
              && o.work == WorkVerdictFor(StatusOf(cache, date.value), rows)
              && o.work != WorkAccepted
    ensures kind == LeaveKind ==>
              (o == LeaveFieldsRejected <==> !leave.fieldsOk || leave.to < leave.from)
    ensures kind == LeaveKind && leave.fieldsOk && leave.from <= leave.to ==>
              (o == Submitted <==> delivered && forall x | leave.from <= x <= leave.to :: !Conflicts(cache, x))
    ensures o.LeaveRejected? ==>
              && kind == LeaveKind
              && o.leave == LeaveVerdictFrom(cache, leave.from, leave.to)
              && o.leave != LeaveClear
    ensures o == NoDateSelected <==> kind == WorkKind && date.None?
    ensures kind == WorkKind && date.Some? && WorkVerdictFor(StatusOf(cache, date.value), rows) != WorkAccepted ==>
              o == WorkRejected(WorkVerdictFor(StatusOf(cache, date.value), rows))
    ensures kind == LeaveKind && leave.fieldsOk && leave.from <= leave.to
            && LeaveVerdictFrom(cache, leave.from, leave.to) != LeaveClear ==>
              o == LeaveRejected(LeaveVerdictFrom(cache, leave.from, leave.to))
    ensures o == SendFailed <==>
              && !delivered
              && (kind == WorkKind ==> date.Some? && WorkVerdictFor(StatusOf(cache, date.value), rows) == WorkAccepted)
              && (kind == LeaveKind ==> leave.fieldsOk && leave.from <= leave.to
                                        && LeaveVerdictFrom(cache, leave.from, leave.to) == LeaveClear)
  {
    if kind == WorkKind then
      if date.None? then NoDateSelected
      else
        var v := WorkVerdictFor(StatusOf(cache, date.value), rows);
        if v != WorkAccepted then WorkRejected(v)
        else if delivered then Submitted
        else SendFailed
    else
      assert kind == LeaveKind;
      if !leave.fieldsOk || leave.to < leave.from then LeaveFieldsRejected
      else
      var v := LeaveVerdictFrom(cache, leave.from, leave.to);
      if v != LeaveClear then LeaveRejected(v)
      else if delivered then Submitted
      else SendFailed
  }

  /** Caching a submitted record changes no day's status: it is neither work nor leave. */
  lemma SubmittedRecordInvisible(es: seq<Entry>, d: int)
    ensures StatusOf([SubmittedRecord] + es, d) == StatusOf(es, d)
  {
    PrependNeutral(SubmittedRecord, es, d);
  }

  class AppState {
    var entries: seq<Entry>
    var rows: seq<Row>
    var canSubmit: bool
    /** The active entry-type button. */
    var kind: EntryKind
    /** The value of the date input, `None` when it is empty. */
    var selectedDate: Option<int>

    constructor (kind: EntryKind, selectedDate: Option<int>)
      ensures entries == [] && rows == [] && canSubmit
      ensures this.kind == kind && this.selectedDate == selectedDate
    {
      entries := [];
      rows := [];
      canSubmit := true;
      this.kind := kind;
      this.selectedDate := selectedDate;
    }

    /** The submit gate reflects the current rows, cache, date and entry type. */
    ghost predicate GateCurrent()
      reads this
    {
      canSubmit == GateOpen(kind, selectedDate, entries, rows)
    }

    /** Recomputes the submit gate. */
    method UpdateTotalHours()
      modifies this`canSubmit
      ensures GateCurrent()
    {
      var total := RowsTotal(rows);
      if kind == WorkKind && selectedDate.Some? {
        var status := CheckDateLeaveStatus(entries, selectedDate.value);
        canSubmit := status.totalHours + total == DayHalfHours;
      } else {
        canSubmit := true;
      }
    }

    /** Appends a blank row and recomputes the gate. */
    method AddTimesheetRow()
      modifies this`rows, this`canSubmit
      ensures rows == old(rows) + [BlankRow]
      ensures RowsTotal(rows) == RowsTotal(old(rows))
      ensures GateCurrent()
    {
      rows := rows + [BlankRow];
      assert rows[..|rows| - 1] == old(rows);
      UpdateTotalHours();
    }

    /** Removes row `idx`, keeping the others in order, and recomputes the gate. */
    method DeleteTimesheetRow(idx: nat)
      modifies this`rows, this`canSubmit
      ensures rows == RemoveAt(old(rows), idx)
      ensures GateCurrent()
    {
      rows := RemoveAt(rows, idx);
      UpdateTotalHours();
    }

    /** Sets a text field of row `idx`; the gate is not recomputed, and need not be. */
    method UpdateTimesheetRow(idx: nat, field: RowField, value: string)
      requires idx < |rows|
      modifies this`rows
      ensures rows == old(rows)[idx := WithField(old(rows)[idx], field, value)]
      ensures RowsTotal(rows) == RowsTotal(old(rows))
      ensures old(GateCurrent()) ==> GateCurrent()
    {
      RowsTotalSplit(rows, idx, WithField(rows[idx], field, value));
      RowsTotalSplit(rows, idx, rows[idx]);
      assert rows[idx := rows[idx]] == rows;
      rows := rows[idx := WithField(rows[idx], field, value)];
    }

    /**
      An hours edit of row `idx`; `value` is the parsed input, `None` when it
      does not parse. Returns the maximum the rejection message reports.
     */
    method UpdateTimesheetHours(idx: nat, value: Option<int>) returns (reportedMax: Option<int>)
      requires idx < |rows|
      modifies this`rows, this`canSubmit
      ensures var existing := if selectedDate.Some? then Some(StatusOf(entries, selectedDate.value).totalHours) else None;
              HoursEdit(rows, reportedMax) == EditHours(existing, old(rows), idx, ParsedHours(value))
      ensures GateCurrent()
    {
      var newHours := ParsedHours(value);
      if selectedDate.None? {
        rows := rows[idx := rows[idx].(hours := newHours)];
        reportedMax := None;
        UpdateTotalHours();
        return;
      }
      var status := CheckDateLeaveStatus(entries, selectedDate.value);
      var currentFormHours := OtherRowsTotal(rows, idx);
      var totalHours := status.totalHours + currentFormHours + newHours;
      if totalHours > DayHalfHours {
        reportedMax := Some(DayHalfHours - status.totalHours - currentFormHours);
        rows := rows[idx := rows[idx].(hours := 0)];
      } else {
        reportedMax := None;
        rows := rows[idx := rows[idx].(hours := newHours)];
      }
      UpdateTotalHours();
    }

    /** A refresh of the cache; a failed fetch leaves it untouched and reports no entries. */
    method FetchEntries(fetched: Option<seq<Entry>>) returns (result: seq<Entry>)
      modifies this`entries
      ensures entries == Refreshed(old(entries), fetched)
      ensures result == if fetched.Some? then fetched.value else []
    {
      match fetched
      case Some(es) =>
        entries := es;
        result := entries;
      case None =>
        result := [];
    }

    /**
      Sends one record. When the request completes without a network error
      (`delivered`) the record is prepended to the cache and success is
      reported, whatever the server's response says.
     */
    method SubmitEntry(record: Entry, delivered: bool) returns (ok: bool)
      modifies this`entries
      ensures ok == delivered
      ensures entries == if delivered then [record] + old(entries) else old(entries)
    {
      if !delivered {
        return false;
      }
      entries := [record] + entries;
      ok := true;
    }

    /**
      One submission attempt: refresh, validate the work or leave form, then
      send. Any rejection leaves the rows and the gate as they were.
     */
    method SubmitForm(fetched: Option<seq<Entry>>, leave: LeaveForm, delivered: bool) returns (outcome: SubmitOutcome)
      modifies this`entries, this`rows, this`canSubmit, this`selectedDate
      ensures outcome == SubmissionOutcome(kind, old(selectedDate), Refreshed(old(entries), fetched),
                                           old(rows), leave, delivered)
      ensures outcome == Submitted ==>
                && entries == [SubmittedRecord] + Refreshed(old(entries), fetched)
                && rows == []
                && canSubmit == GateOpen(kind, old(selectedDate), entries, [])
                && selectedDate.None?
      ensures outcome == Submitted ==>
                forall d :: StatusOf(entries, d) == StatusOf(Refreshed(old(entries), fetched), d)
      ensures outcome != Submitted ==>
                && entries == Refreshed(old(entries), fetched)
                && rows == old(rows)
                && canSubmit == old(canSubmit)
                && selectedDate == old(selectedDate)
    {
      var _ := FetchEntries(fetched);
      if kind == WorkKind {
        if selectedDate.None? {
          return NoDateSelected;
        }
        var status := CheckDateLeaveStatus(entries, selectedDate.value);
        var verdict := ValidateWork(status, rows);
        if verdict != WorkAccepted {
          return WorkRejected(verdict);
        }
      } else {
        if !leave.fieldsOk || leave.to < leave.from {
          return LeaveFieldsRejected;
        }
        var verdict := ValidateLeaveRange(entries, leave.from, leave.to);
        if verdict != LeaveClear {
          return LeaveRejected(verdict);
        }
      }
      ghost var cache := entries;
      var ok := SubmitEntry(SubmittedRecord, delivered);
      if !ok {
        return SendFailed;
      }
      rows := [];
      UpdateTotalHours();
      selectedDate := None;
      forall d ensures StatusOf(entries, d) == StatusOf(cache, d) {
        SubmittedRecordInvisible(cache, d);
      }
      outcome := Submitted;
    }
  }
}
