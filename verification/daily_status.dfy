/**
  The daily-status calculator: for one day, the leave hours, work hours and
  remaining capacity that the cached entries already account for.
 */
module DailyStatus {
  import opened Entries

  datatype DayStatus = DayStatus(
    leaveHours: int,
    workHours: int,
    totalHours: int,
    remainingHours: int,
    hasFullLeave: bool,
    hasPartialLeave: bool)

  /**
    Leave hours on day `d`: the value of the last leave in list order that
    covers `d`, or 0 when none does. Leaves are never summed.
   */
  function LeaveHours(es: seq<Entry>, d: int): (r: int)
    ensures r == 0 || r == PartialLeave || r == FullDayLeave
  {
    if es == [] then 0
    else if Covers(es[|es| - 1], d) then LeaveValue(es[|es| - 1])
    else LeaveHours(es[..|es| - 1], d)
  }

  /** Work hours on day `d`: the stored hours of every Work entry dated `d`. */
  function WorkHours(es: seq<Entry>, d: int): (r: int)
    ensures (forall k | 0 <= k < |es| :: WorkOn(es[k], d) >= 0) ==> r >= 0
  {
    if es == [] then 0 else WorkHours(es[..|es| - 1], d) + WorkOn(es[|es| - 1], d)
  }

  /** The status of day `d` as the cached entries `es` give it. */
  function StatusOf(es: seq<Entry>, d: int): (s: DayStatus)
    ensures s.leaveHours == LeaveHours(es, d) && s.workHours == WorkHours(es, d)
    ensures s.totalHours == s.leaveHours + s.workHours
    ensures s.remainingHours == DayHalfHours - s.leaveHours - s.workHours
    ensures !(s.hasFullLeave && s.hasPartialLeave)
    ensures s.hasFullLeave || s.hasPartialLeave <==> s.leaveHours > 0
  {
    var leave := LeaveHours(es, d);
    var work := WorkHours(es, d);
    DayStatus(leave, work, leave + work, DayHalfHours - leave - work,
              leave == FullDayLeave, 0 < leave < FullDayLeave)
  }

  /** The scan over the entry cache that computes one day's status. */
  method CheckDateLeaveStatus(entries: seq<Entry>, date: int) returns (s: DayStatus)
    ensures s == StatusOf(entries, date)
  {
    var leaveHours, workHours := 0, 0;
    for i := 0 to |entries|
      invariant leaveHours == LeaveHours(entries[..i], date)
      invariant workHours == WorkHours(entries[..i], date)
    {
      assert entries[..i + 1][..i] == entries[..i];
      match entries[i]
      case Leave(from, to, fullDay) =>
        if from <= date && date <= to {
          leaveHours := if fullDay then FullDayLeave else PartialLeave;
        }
      case Work(day, hours) =>
        if day == date {
          workHours := workHours + ParsedHours(hours);
        }
      case Other =>
    }
    assert entries[..|entries|] == entries;
    s := DayStatus(leaveHours, workHours, leaveHours + workHours,
                   DayHalfHours - leaveHours - workHours,
                   leaveHours == FullDayLeave, leaveHours > 0 && leaveHours < FullDayLeave);
  }

  /** Index `k` holds the last leave in `es` that covers day `d`. */
  ghost predicate IsLastCovering(es: seq<Entry>, d: int, k: int)
  {
    0 <= k < |es| && Covers(es[k], d) && forall j | k < j < |es| :: !Covers(es[j], d)
  }

  /** "Last covering leave wins": the leave hours of a day, characterised without recursion. */
  lemma {:induction false} LeaveHoursLastWins(es: seq<Entry>, d: int)
    ensures LeaveHours(es, d) == 0 <==> forall k | 0 <= k < |es| :: !Covers(es[k], d)
    ensures LeaveHours(es, d) != 0 ==> exists k :: IsLastCovering(es, d, k)
    ensures forall k | IsLastCovering(es, d, k) :: LeaveHours(es, d) == LeaveValue(es[k])
  {
    if es != [] {
      var n := |es| - 1;
      var init := es[..n];
      if Covers(es[n], d) {
        assert IsLastCovering(es, d, n);
        forall k | IsLastCovering(es, d, k) ensures k == n {
        }
      } else {
        LeaveHoursLastWins(init, d);
        forall k | 0 <= k < n ensures Covers(init[k], d) == Covers(es[k], d) {
          assert init[k] == es[k];
        }
        if LeaveHours(es, d) != 0 {
          var k :| IsLastCovering(init, d, k);
          assert IsLastCovering(es, d, k);
        }
        forall k | IsLastCovering(es, d, k) ensures LeaveHours(es, d) == LeaveValue(es[k]) {
          assert k < n;
          assert IsLastCovering(init, d, k);
        }
      }
    }
  }

  /** The status flags say which kind of leave, if any, covers the day last. */
  lemma StatusFlags(es: seq<Entry>, d: int)
    ensures StatusOf(es, d).hasFullLeave <==> exists k :: IsLastCovering(es, d, k) && es[k].fullDay
    ensures StatusOf(es, d).hasPartialLeave <==> exists k :: IsLastCovering(es, d, k) && !es[k].fullDay
    ensures !StatusOf(es, d).hasFullLeave && !StatusOf(es, d).hasPartialLeave
            <==> forall k | 0 <= k < |es| :: !Covers(es[k], d)
  {
    LeaveHoursLastWins(es, d);
  }

  /** Entries later in the list decide the leave hours; earlier ones only when no later leave covers the day. */
  lemma {:induction false} LeaveHoursAppend(a: seq<Entry>, b: seq<Entry>, d: int)
    ensures LeaveHours(a + b, d) == if LeaveHours(b, d) != 0 then LeaveHours(b, d) else LeaveHours(a, d)
  {
    if b == [] {
      assert a + b == a;
    } else {
      var n := |b| - 1;
      assert (a + b)[|a + b| - 1] == b[n];
      assert (a + b)[..|a + b| - 1] == a + b[..n];
      if !Covers(b[n], d) {
        LeaveHoursAppend(a, b[..n], d);
      }
    }
  }

  /** Work hours add up over a split of the entry list. */
  lemma {:induction false} WorkHoursAppend(a: seq<Entry>, b: seq<Entry>, d: int)
    ensures WorkHours(a + b, d) == WorkHours(a, d) + WorkHours(b, d)
  {
    if b == [] {
      assert a + b == a;
    } else {
      var n := |b| - 1;
      assert (a + b)[|a + b| - 1] == b[n];
      assert (a + b)[..|a + b| - 1] == a + b[..n];
      WorkHoursAppend(a, b[..n], d);
    }
  }

  /** A day on which no Work entry is dated has no work hours. */
  lemma {:induction false} WorkHoursNoneDated(es: seq<Entry>, d: int)
    requires forall k | 0 <= k < |es| :: !(es[k].Work? && es[k].date == d)
    ensures WorkHours(es, d) == 0
  {
    if es != [] {
      WorkHoursNoneDated(es[..|es| - 1], d);
    }
  }

  /**
    Prepending a record that is neither a covering leave nor work on `d`
    leaves `d`'s status unchanged.
   */
  lemma PrependNeutral(e: Entry, es: seq<Entry>, d: int)
    requires !Covers(e, d) && WorkOn(e, d) == 0
    ensures StatusOf([e] + es, d) == StatusOf(es, d)
  {
    LeaveHoursAppend([e], es, d);
    WorkHoursAppend([e], es, d);
    assert [e][..0] == [];
  }

  /** What the hours-limit check reports for day `date` and `newHours` more hours. */
  datatype HoursLimit = HoursLimit(exceedsLimit: bool, existingHours: int, remaining: int)

  /** The ceiling check: adding `newHours` to what day `date` already holds exceeds 8 h. */
  function CheckHoursLimit(es: seq<Entry>, date: int, newHours: int): (r: HoursLimit)
    ensures r.exceedsLimit <==> LeaveHours(es, date) + WorkHours(es, date) + newHours > DayHalfHours
    ensures r.exceedsLimit <==> newHours > r.remaining
    ensures r.existingHours + r.remaining == DayHalfHours
    ensures r.existingHours == LeaveHours(es, date) + WorkHours(es, date)
  {
    var status := StatusOf(es, date);
    HoursLimit(status.totalHours + newHours > DayHalfHours, status.totalHours, status.remainingHours)
  }
}
