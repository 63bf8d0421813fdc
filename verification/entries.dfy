/**
  The records of the timesheet client: the cached entries fetched from the
  remote store and the in-progress rows of the work form.

  Hours are counted in half-hours throughout the model (1 = 0.5 h, 16 = 8 h),
  the granularity the hours inputs ask for (`step="0.5"`). Dates are whole day numbers.
 */
module Entries {

  datatype Option<+T> = None | Some(value: T)

  /** The hours of one working day (8 h) in half-hours. */
  const DayHalfHours: int := 16

  /** Leave hours a "Full Day" session covers (8 h). */
  const FullDayLeave: int := 16

  /** Leave hours every other session covers (4 h). */
  const PartialLeave: int := 8

  /**
    A cached record. `Work` carries its stored hours, `None` when they do not
    parse as a number. `Leave` covers every day from `from` to `to` inclusive;
    `fullDay` says whether its session names "Full Day". `Other` is a record
    whose entry type is neither 'Work' nor 'Leave', such as the one the submit
    handler caches (it carries no entry type at all).
   */
  datatype Entry =
    | Work(date: int, hours: Option<int>)
    | Leave(from: int, to: int, fullDay: bool)
    | Other

  /** One in-progress row of the work form. */
  datatype Row = Row(project: string, task: string, billingType: string, description: string, hours: int)

  /** The row "add row" appends. */
  const BlankRow: Row := Row("", "", "", "", 0)

  /** The text fields of a row an edit may set. */
  datatype RowField = Project | Task | BillingType | Description

  /** A leave entry covers day `d`. */
  predicate Covers(e: Entry, d: int)
  {
    e.Leave? && e.from <= d <= e.to
  }

  /** The leave hours a leave entry stands for on each day it covers. */
  function LeaveValue(e: Entry): int
    requires e.Leave?
  {
    if e.fullDay then FullDayLeave else PartialLeave
  }

  /** Stored hours as the status scan reads them: unparsable hours count as 0. */
  function ParsedHours(h: Option<int>): int
  {
    match h
    case Some(x) => x
    case None => 0
  }

  /** The hours entry `e` adds to day `d`'s work total. */
  function WorkOn(e: Entry, d: int): int
  {
    if e.Work? && e.date == d then ParsedHours(e.hours) else 0
  }

  /** A row has the project, task and billing type a submission needs. */
  predicate Complete(r: Row)
  {
    r.project != "" && r.task != "" && r.billingType != ""
  }

  /** Row `r` with one text field set; its hours are never touched. */
  function WithField(r: Row, f: RowField, v: string): (r': Row)
    ensures r'.hours == r.hours
    ensures f == Project ==> r' == r.(project := v)
    ensures f == Task ==> r' == r.(task := v)
    ensures f == BillingType ==> r' == r.(billingType := v)
    ensures f == Description ==> r' == r.(description := v)
  {
    match f
    case Project => r.(project := v)
    case Task => r.(task := v)
    case BillingType => r.(billingType := v)
    case Description => r.(description := v)
  }
}
