/**
  The conflict validator: a leave over a range of days may not touch a day
  that already has work or any leave.
 */
module LeaveConflict {
  import opened Entries
  import opened DailyStatus

  /**
    The outcome of the leave check: the first conflicting day has work (the
    message cites the day and its hours), or it has leave (the message cites
    no day), or no day conflicts.
   */
  datatype LeaveVerdict = WorkOnDay(day: int, workHours: int) | OverlappingLeave | LeaveClear

  /** Day `d` already has work hours or leave. */
  predicate Conflicts(es: seq<Entry>, d: int)
  {
    var s := StatusOf(es, d);
    s.workHours > 0 || s.hasFullLeave || s.hasPartialLeave
  }

  /** The leave check over the days `d` to `to`, in ascending order, stopping at the first conflict. */
  function LeaveVerdictFrom(es: seq<Entry>, d: int, to: int): (v: LeaveVerdict)
    decreases to - d
    ensures v == LeaveClear <==> forall x | d <= x <= to :: !Conflicts(es, x)
    ensures v.WorkOnDay? ==>
              && d <= v.day <= to
              && v.workHours == WorkHours(es, v.day) > 0
              && forall x | d <= x < v.day :: !Conflicts(es, x)
    ensures v == OverlappingLeave ==>
              exists x | d <= x <= to ::
                && WorkHours(es, x) <= 0
                && LeaveHours(es, x) > 0
                && forall y | d <= y < x :: !Conflicts(es, y)
  {
    if d > to then LeaveClear
    else
      var s := StatusOf(es, d);
      if s.workHours > 0 then assert Conflicts(es, d); WorkOnDay(d, s.workHours)
      else if s.hasFullLeave || s.hasPartialLeave then assert Conflicts(es, d); OverlappingLeave
      else LeaveVerdictFrom(es, d + 1, to)
  }

  /** The date-stepping loop of the submit handler's leave branch. */
  method ValidateLeaveRange(entries: seq<Entry>, from: int, to: int) returns (v: LeaveVerdict)
    ensures v == LeaveVerdictFrom(entries, from, to)
  {
    var d := from;
    while d <= to
      invariant LeaveVerdictFrom(entries, d, to) == LeaveVerdictFrom(entries, from, to)
      decreases if d <= to then to + 1 - d else 0
    {
      var status := CheckDateLeaveStatus(entries, d);
      if status.workHours > 0 {
        return WorkOnDay(d, status.workHours);
      }
      if status.hasFullLeave || status.hasPartialLeave {
        return OverlappingLeave;
      }
      d := d + 1;
    }
    return LeaveClear;
  }

  /** Any work on a day of the range rejects the leave, whatever comes before it. */
  lemma WorkInRangeRejects(es: seq<Entry>, from: int, to: int, x: int)
    requires from <= x <= to && WorkHours(es, x) > 0
    ensures LeaveVerdictFrom(es, from, to) != LeaveClear
  {
    assert Conflicts(es, x);
  }

  /** A leave already covering a day of the range rejects the leave. */
  lemma CoveredDayInRangeRejects(es: seq<Entry>, from: int, to: int, x: int, k: int)
    requires from <= x <= to && 0 <= k < |es| && Covers(es[k], x)
    ensures LeaveVerdictFrom(es, from, to) != LeaveClear
  {
    LeaveHoursLastWins(es, x);
    assert Conflicts(es, x);
  }
}
