/**
  The hours reconciliation engine: row totals, the live check on an hours
  edit, the "exactly 8 hours" submit gate and the ordered checks of a work
  submission.
 */
module Reconcile {
  import opened Entries
  import opened DailyStatus

  /** The hours of all rows, summed left to right. */
  function RowsTotal(rows: seq<Row>): int
  {
    if rows == [] then 0 else RowsTotal(rows[..|rows| - 1]) + rows[|rows| - 1].hours
  }

  /** The hours of all rows except row `idx`. */
  function OtherRowsTotal(rows: seq<Row>, idx: int): int
  {
    if rows == [] then 0
    else OtherRowsTotal(rows[..|rows| - 1], idx) + (if |rows| - 1 == idx then 0 else rows[|rows| - 1].hours)
  }

  /** Leaving out an index the rows do not have leaves the total as it is. */
  lemma {:induction false} OtherRowsTotalOutside(rows: seq<Row>, idx: int)
    requires idx >= |rows|
    ensures OtherRowsTotal(rows, idx) == RowsTotal(rows)
  {
    if rows != [] {
      OtherRowsTotalOutside(rows[..|rows| - 1], idx);
    }
  }

  /** The total after replacing row `idx` is the other rows' total plus the new row's hours. */
  lemma {:induction false} RowsTotalSplit(rows: seq<Row>, idx: int, r: Row)
    requires 0 <= idx < |rows|
    ensures RowsTotal(rows[idx := r]) == OtherRowsTotal(rows, idx) + r.hours
  {
    var n := |rows| - 1;
    var rows' := rows[idx := r];
    assert rows'[n] == if idx == n then r else rows[n];
    if idx == n {
      assert rows'[..n] == rows[..n];
      OtherRowsTotalOutside(rows[..n], idx);
    } else {
      assert rows'[..n] == rows[..n][idx := r];
      RowsTotalSplit(rows[..n], idx, r);
    }
  }

  /** Rows with row `idx` given `h` hours and nothing else changed. */
  function SetHours(rows: seq<Row>, idx: int, h: int): seq<Row>
    requires 0 <= idx < |rows|
  {
    rows[idx := rows[idx].(hours := h)]
  }

  /** The rows after an hours edit, and the maximum the rejection reports, if rejected. */
  datatype HoursEdit = HoursEdit(rows: seq<Row>, reportedMax: Option<int>)

  /**
    An hours edit of row `idx` to `h`. `existing` is the selected day's status
    total, `None` when no date is selected. An edit that would take the day
    past 8 h is rejected: the row is reset to 0 and the hours still free are
    reported.
   */
  function EditHours(existing: Option<int>, rows: seq<Row>, idx: int, h: int): (r: HoursEdit)
    requires 0 <= idx < |rows|
    ensures |r.rows| == |rows|
    ensures forall i | 0 <= i < |rows| && i != idx :: r.rows[i] == rows[i]
    ensures r.rows[idx] == rows[idx].(hours := r.rows[idx].hours)
    ensures r.reportedMax.None? ==> r.rows[idx].hours == h
    ensures r.reportedMax.Some? ==> r.rows[idx].hours == 0
    ensures r.reportedMax.Some? <==> existing.Some? && existing.value + RowsTotal(SetHours(rows, idx, h)) > DayHalfHours
    ensures r.reportedMax.Some? ==> existing.value + RowsTotal(r.rows) + r.reportedMax.value == DayHalfHours
    ensures r.reportedMax.Some? ==> r.reportedMax.value < h
    ensures existing.Some? && r.reportedMax.None? ==> existing.value + RowsTotal(r.rows) <= DayHalfHours
  {
    if existing.None? then HoursEdit(SetHours(rows, idx, h), None)
    else
      var other := OtherRowsTotal(rows, idx);
      RowsTotalSplit(rows, idx, rows[idx].(hours := h));
      RowsTotalSplit(rows, idx, rows[idx].(hours := 0));
      if existing.value + other + h > DayHalfHours
      then HoursEdit(SetHours(rows, idx, 0), Some(DayHalfHours - existing.value - other))
      else HoursEdit(SetHours(rows, idx, h), None)
  }

  /**
    With a date selected, an edit never takes a day that was within 8 h past
    it, as long as the edited row's hours were not negative.
   */
  lemma EditKeepsDayWithinCap(existing: int, rows: seq<Row>, idx: int, h: int)
    requires 0 <= idx < |rows| && rows[idx].hours >= 0
    requires existing + RowsTotal(rows) <= DayHalfHours
    ensures existing + RowsTotal(EditHours(Some(existing), rows, idx, h).rows) <= DayHalfHours
  {
    RowsTotalSplit(rows, idx, rows[idx]);
    assert rows[idx := rows[idx]] == rows;
    RowsTotalSplit(rows, idx, rows[idx].(hours := 0));
  }

  /** The active entry type of the form. */
  datatype EntryKind = WorkKind | LeaveKind

  /**
    The submit gate: a work form with a date must bring the day to exactly
    8 h; a leave form, or a work form without a date, may always submit.
   */
  predicate GateOpen(kind: EntryKind, date: Option<int>, es: seq<Entry>, rows: seq<Row>)
  {
    kind == LeaveKind || date.None? || StatusOf(es, date.value).totalHours + RowsTotal(rows) == DayHalfHours
  }

  /** The outcome of the checks of a work submission, in the order they are made. */
  datatype WorkVerdict =
    | FullLeaveBlocks
    | NoRows
    | OverLimit(canAdd: int)
    | UnderLimit(current: int, needed: int)
    | MissingFields(rowNumber: nat)
    | WorkAccepted

  /** The index of the first row lacking project, task or billing type. */
  function FirstIncomplete(rows: seq<Row>): (r: Option<nat>)
    ensures r.None? <==> forall i | 0 <= i < |rows| :: Complete(rows[i])
    ensures r.Some? ==> r.value < |rows| && !Complete(rows[r.value])
                        && forall i | 0 <= i < r.value :: Complete(rows[i])
  {
    if rows == [] then None
    else if !Complete(rows[0]) then Some(0)
    else match FirstIncomplete(rows[1..])
      case None => None
      case Some(k) => Some(k + 1)
  }

  /** The work-submission decision for a day with status `s` and form rows `rows`. */
  function WorkVerdictFor(s: DayStatus, rows: seq<Row>): (v: WorkVerdict)
    ensures s.hasFullLeave <==> v == FullLeaveBlocks
    ensures v == NoRows <==> !s.hasFullLeave && rows == []
    ensures v.OverLimit? <==> !s.hasFullLeave && rows != [] && s.totalHours + RowsTotal(rows) > DayHalfHours
    ensures v.OverLimit? ==> v.canAdd == DayHalfHours - s.totalHours
    ensures v.UnderLimit? <==> !s.hasFullLeave && rows != [] && s.totalHours + RowsTotal(rows) < DayHalfHours
    ensures v.UnderLimit? ==> v.current == s.totalHours + RowsTotal(rows) && v.current + v.needed == DayHalfHours
    ensures v.MissingFields? ==> 1 <= v.rowNumber <= |rows| && !Complete(rows[v.rowNumber - 1])
                                 && forall i | 0 <= i < v.rowNumber - 1 :: Complete(rows[i])
    ensures v.MissingFields? <==>
              && !s.hasFullLeave
              && s.totalHours + RowsTotal(rows) == DayHalfHours
              && exists i | 0 <= i < |rows| :: !Complete(rows[i])
    ensures v == WorkAccepted <==>
              && !s.hasFullLeave
              && rows != []
              && s.totalHours + RowsTotal(rows) == DayHalfHours
              && forall i | 0 <= i < |rows| :: Complete(rows[i])
  {
    if s.hasFullLeave then FullLeaveBlocks
    else if rows == [] then NoRows
    else
      var total := s.totalHours + RowsTotal(rows);
      if total > DayHalfHours then OverLimit(DayHalfHours - s.totalHours)
      else if total < DayHalfHours then UnderLimit(total, DayHalfHours - total)
      else match FirstIncomplete(rows)
        case Some(k) => MissingFields(k + 1)
        case None => WorkAccepted
  }

  /** The work-submission checks as the submit handler runs them: early returns, then a pass over the rows. */
  method ValidateWork(status: DayStatus, rows: seq<Row>) returns (v: WorkVerdict)
    ensures v == WorkVerdictFor(status, rows)
  {
    if status.hasFullLeave {
      return FullLeaveBlocks;
    }
    if |rows| == 0 {
      return NoRows;
    }
    var totalHours := RowsTotal(rows);
    var totalWithExisting := status.totalHours + totalHours;
    if totalWithExisting != DayHalfHours {
      if totalWithExisting > DayHalfHours {
        return OverLimit(DayHalfHours - status.totalHours);
      } else {
        return UnderLimit(totalWithExisting, DayHalfHours - totalWithExisting);
      }
    }
    for i := 0 to |rows|
      invariant forall j | 0 <= j < i :: Complete(rows[j])
    {
      if !Complete(rows[i]) {
        return MissingFields(i + 1);
      }
    }
    return WorkAccepted;
  }

  /**
    The live gate and the submission checks agree on the total: past the
    full-leave and no-rows checks, the gate is open exactly when the
    submission is neither over nor under 8 h.
   */
  lemma GateAgreesWithSubmission(es: seq<Entry>, d: int, rows: seq<Row>)
    ensures WorkVerdictFor(StatusOf(es, d), rows) == WorkAccepted ==> GateOpen(WorkKind, Some(d), es, rows)
    ensures var v := WorkVerdictFor(StatusOf(es, d), rows);
            !StatusOf(es, d).hasFullLeave && rows != [] ==>
              (GateOpen(WorkKind, Some(d), es, rows) <==> !v.OverLimit? && !v.UnderLimit?)
  {
  }
}
