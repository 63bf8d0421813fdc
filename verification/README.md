# Timesheet client: daily-hours reconciliation and conflict detection

This project models the part of the eNoah timesheet browser client that decides
whether a submission agrees with the user's cached entries. It covers four parts:

- **Day status.** For one day, the leave hours, work hours and remaining capacity
  that the cached Work and Leave records already account for.
- **Live row editing and the submit gate.** With a date selected, an hours edit
  that would take the day past 8 hours is rejected. For a work form with a date,
  the submit button is enabled only when the existing hours plus the form's rows
  make exactly 8. For a leave form, or a work form without a date, it is always
  enabled.
- **Work-submission checks.** They run in a fixed order: full-day leave, no rows,
  a total other than 8, and a row missing project, task or billing type.
- **Leave-submission conflict check.** It walks the requested days in order and
  stops at the first day that already has work or leave.

Conventions:

- Hours are integer half-hours (`16` = 8 h, `8` = 4 h). This is the 0.5 h
  granularity the hours inputs ask for (`step="0.5"`).
- Dates are integer day numbers.
- A stored hours value that does not parse is `None`, and it counts as 0.

Modules:

- `Entries` (entries.dfy): the records, the rows and the constants.
- `DailyStatus` (daily_status.dfy): the status calculator and its properties.
- `Reconcile` (reconcile.dfy): row totals, the hours-edit rule, the gate and the
  work verdict.
- `LeaveConflict` (leave_conflict.dfy): the leave range check.
- `Timesheet` (app_state.dfy): the class `AppState`. Its fields are `entries`,
  `rows` and `canSubmit`, plus the active entry type and the date input. Its
  methods update those fields in place, as the client's handlers do.

Two behaviours of the code are worth knowing:

- The record the submit handler caches carries no entry type
  (script.js:933-937, 989-990, 1027-1034). Later status computations
  therefore skip it: `SubmittedRecordInvisible` proves that prepending it
  leaves every day's status unchanged.
- A failed fetch leaves the cache as it was and returns an empty list
  (script.js:481-483, `Timesheet.AppState.FetchEntries`).

## Model

| member | source | states |
|---|---|---|
| `DailyStatus.LeaveHours` | script.js:495-504 | a day's leave hours are always 0, 4 h or 8 h; which of them is pinned down by `LeaveHoursLastWins` |
| `DailyStatus.WorkHours` | script.js:505-511 | when no Work entry on the day has negative hours, the day's work hours are not negative |
| `DailyStatus.StatusOf` | script.js:515-522 | total = leave + work and remaining = 8 h − leave − work, without clamping; the full and partial flags are never both set, and one of them is set iff the day has leave |
| `DailyStatus.CheckDateLeaveStatus` | script.js:488-523 | the scan over the cache yields exactly the status the recursive definitions give |
| `DailyStatus.LeaveHoursLastWins` | script.js:495-504 | leave hours are 0 iff no leave covers the day; otherwise a last covering leave in list order exists, and its session decides the value |
| `DailyStatus.StatusFlags` | script.js:488-523 | the full-leave flag holds iff the last covering leave is a full day; the partial flag iff it is not; neither iff no leave covers the day |
| `DailyStatus.LeaveHoursAppend` | script.js:495-504 | over a concatenation, a covering leave in the later part decides; the earlier part decides only when the later part has none |
| `DailyStatus.WorkHoursAppend` | script.js:505-511 | work hours add up over any split of the entry list, so order does not matter |
| `DailyStatus.WorkHoursNoneDated` | script.js:505-511 | a day with no Work entry dated on it has 0 work hours; other entry types contribute nothing |
| `DailyStatus.PrependNeutral` | script.js:495-511 | prepending an entry that neither covers the day as leave nor adds work on it leaves that day's status unchanged |
| `DailyStatus.CheckHoursLimit` | script.js:526-540 | the limit is exceeded iff the existing hours plus the new hours are over 8 h, which holds iff the new hours exceed the remaining hours; existing + remaining = 8 h |
| `Reconcile.RowsTotalSplit` | script.js:1174-1177 | the rows' total after replacing row idx equals the other rows' total plus the new row's hours |
| `Reconcile.EditHours` | script.js:1160-1192 | only row idx changes, and only its hours. Without a date the edit is taken. With a date it is rejected iff the day would pass 8 h; the row is then 0, and existing + rows + reported maximum = 8 h, with the maximum below the requested hours. An accepted edit keeps the day within 8 h |
| `Reconcile.EditKeepsDayWithinCap` | script.js:1180-1189 | a day within 8 h before an edit of a non-negative row stays within 8 h after it, whether the edit is accepted or rejected |
| `Reconcile.FirstIncomplete` | script.js:981-987 | yields the first row lacking project, task or billing type, or nothing iff every row has all three |
| `Reconcile.WorkVerdictFor` | script.js:954-987 | checks run in order: full leave rejects, and is the only case that gives `FullLeaveBlocks`; no rows; over 8 h (citing 8 h − existing); under 8 h (citing the total and what is missing); the first incomplete row, numbered from 1, which is reported iff the total is exactly 8 h and some row is incomplete. Accepted iff none of these applies |
| `Reconcile.ValidateWork` | script.js:954-987 | the early returns and the loop over the rows reach exactly the work verdict |
| `Reconcile.GateAgreesWithSubmission` | script.js:696-712 | an accepted work submission has an open gate; past the full-leave and no-rows checks, the gate is open iff the submission is neither over nor under 8 h |
| `LeaveConflict.LeaveVerdictFrom` | script.js:1008-1025 | accepted iff no day in the range has work or leave. A work rejection cites a day in the range, with that day's positive work hours, and every earlier day is clear. An overlap rejection has a day in the range with leave, no work, and all earlier days clear |
| `LeaveConflict.ValidateLeaveRange` | script.js:1008-1025 | the date-stepping loop reaches exactly that verdict |
| `LeaveConflict.WorkInRangeRejects` | script.js:1013-1018 | work on any day of the range rejects the leave |
| `LeaveConflict.CoveredDayInRangeRejects` | script.js:1020-1024 | an existing leave covering any day of the range rejects the leave |
| `Entries.WithField` | script.js:1156-1158 | a field edit sets that one text field and never the hours |
| `Timesheet.RemoveAt` | script.js:1194-1197 | deleting index idx drops that element and keeps the others in order; an index past the end removes nothing |
| `Timesheet.SubmissionOutcome` | script.js:925-1049 | `NoDateSelected` iff the form is work without a date; with a date, submitted iff the send completes and `WorkVerdictFor` accepts, and a rejection carries exactly `WorkVerdictFor`'s verdict; a full-leave day always rejects. Leave: the field rejection iff the fields fail or the dates are out of order; past it, submitted iff the send completes and no day in the range conflicts, rejected iff some day conflicts, and the rejection carries `LeaveVerdictFrom`'s verdict. A submitted work form had a date, no full leave, rows, exactly 8 h and complete rows. `SendFailed` iff the send does not complete and the form's own checks pass: for work, a date with an accepted `WorkVerdictFor`; for leave, valid fields in order and a clear `LeaveVerdictFrom` |
| `Timesheet.SubmittedRecordInvisible` | script.js:1027-1037 | the record the handler caches has no entry type, so prepending it changes no day's status |
| `Timesheet.AppState.constructor` | script.js:6-20 | the session starts with no entries, no rows and an open gate |
| `Timesheet.AppState.UpdateTotalHours` | script.js:687-726 | afterwards the gate is open iff the form is leave, or has no date, or existing + rows = 8 h exactly |
| `Timesheet.AppState.AddTimesheetRow` | script.js:647-651 | appends one blank row with 0 hours, the total is unchanged, and the gate is recomputed |
| `Timesheet.AppState.DeleteTimesheetRow` | script.js:1194-1197 | removes only row idx, keeps the order of the others and recomputes the gate |
| `Timesheet.AppState.UpdateTimesheetRow` | script.js:1156-1158 | sets one text field of row idx; the rows' total is unchanged, so a current gate stays current |
| `Timesheet.AppState.UpdateTimesheetHours` | script.js:1160-1192 | the new rows and the reported maximum are those of `EditHours` for the selected day's status; the gate is recomputed |
| `Timesheet.AppState.FetchEntries` | script.js:467-485 | a successful fetch replaces the cache; a failed one leaves it untouched and returns no entries |
| `Timesheet.AppState.SubmitEntry` | script.js:443-465 | when the request completes without a network error, the record is prepended, the rest of the cache is unchanged and in order, and success is reported; otherwise nothing changes |
| `Timesheet.AppState.SubmitForm` | script.js:925-1049 | the outcome is `SubmissionOutcome` over the refreshed cache. On success the record is prepended, the rows are emptied, the gate is recomputed for the old date, and the date is cleared. On any other outcome only the refresh happened. No day's status changes |

## Left out

- DOM rendering, toasts, the loading overlay, confirm dialogs and the OTP widgets are left out. They are presentation only.
- The date-change listener (script.js:1205-1245) and the entry-type buttons are not modelled. The date and the entry type are fields the constructor sets.
- Network calls are not modelled. A fetch is a parameter (`Some(entries)` or `None` for a failure). A send is a boolean, `delivered`, that says whether the request completed without a network error.
- The server's response to a send is not inspected (script.js:446-460). A request the server rejects is still cached and reported as a success, and so it is in this model.
- `Timesheet.AppState.SubmitForm` is one atomic step. The handler suspends at two awaits (script.js:943, 1037), and the loading overlay only toggles a style (script.js:49-52). Other handlers, such as the date listener's fetch, can run in between. The model does not capture that interleaving.
- Draft save and restore in local storage is left out. It is external key-value storage.
- JavaScript `Date` parsing is left out, along with time-of-day normalisation, time zones, weekend and future-date checks, and invalid dates. Dates are day numbers.
- `parseFloat` and hours that are not a multiple of 0.5 are left out. Hours are integer half-hours, and an unparsable hours value is `None`.
- Form rows always hold numeric hours in this model. A restored draft could hold text, which `parseFloat` would read.
- The leave field checks other than "to date not before from date" are one boolean, `LeaveForm.fieldsOk`. These are leave type, session, description length and future dates.
- The email, OTP, remark-length and duplicate-entry validators are left out. They are peripheral string checks, and the duplicate check depends on a dialog.
- The message strings are left out. Each rejection carries the numbers its message computes; the other numbers a message cites are the caller's own inputs. These are the day's existing hours and the other rows' total in the hours-edit message (script.js:1184), and the existing hours in the over-8 h message (script.js:972).
- `Timesheet.AppState.UpdateTimesheetHours` requires `idx` to be a row that exists. The handler is only called with the index of a rendered row, and any other index makes the code fail (script.js:1165, 1185, 1188).
- `Timesheet.AppState.UpdateTimesheetRow` requires `idx` to be a row that exists, for the same reason (script.js:1157).
- `Reconcile.EditHours` requires `idx` to be a row that exists, for the same reason: it is the decision behind `UpdateTimesheetHours`.
