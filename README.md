# Sports-field booking admission engine

A Dafny model of the core of an Odoo module that books sports fields. A
booking names one field, a date and a start and end hour. It is admitted
only if a set of independent constraints all pass: not in the past, two
hours' lead time, hours in range, a duration of one to four hours in
half-hour blocks, the field open on that weekday and at those hours, a
participant count within the field's capacity, and no other active booking
of the same field and date whose hours intersect. An admitted booking then
moves through the lifecycle draft → confirmed → in progress → completed.
It can be cancelled from any state except completed, and reopened from
cancelled to draft.

Modules, one per component of `models/sports_booking.py` and
`models/sports_field.py`:

- `SportsField` (`sports_field.dfy`): the field record, its three
  constraints, code uniqueness and the declared defaults.
- `BookingTime` (`booking_time.dfy`): Python's `int()` and `% 1` on
  fractional hours, `date.weekday()`, the booking instant built by
  `datetime.combine(...).replace(...)`, and `_format_time` with a parser
  that reads its output back.
- `BookingLifecycle` (`booking_lifecycle.dfy`): the states, the guards of
  the five `action_*` buttons, and a reference table of edges.
- `BookingRules` (`booking_rules.dfy`): the booking record, its computed
  duration and amount, and each single-record constraint as a pure function
  that passes or names its reason.
- `BookingOverlap` (`booking_overlap.dfy`): the overlap search, the ledger
  invariant "no two active bookings on the same field and date overlap", and
  the lemmas showing that insert, state change and cancellation preserve it.
- `BookingAdmission` (`booking_admission.dfy`): `create` as the database's
  refusals followed by every constraint, with a closed-form statement of
  what is admitted and worked scenarios.
- `BookingLedger` (`booking_ledger.dfy`): the class `Ledger`, holding the
  table of fields (a `map`) and the table of bookings (a `seq`). Its methods
  change them in place: `AddField`, `UpdateField`, `Create` and `Apply`.
  `Apply` loops over a recordset running one lifecycle action. The methods
  are proved against the pure functions `AdmitRequest` and `ApplyAll`.

Representation choices:

- Hours are Dafny `real`s. The source's floats only ever hold fractional
  hours, so every comparison, and the half-hour test `(d * 2) % 1 != 0`, is
  exact on reals.
- A date is its proleptic Gregorian ordinal, as `date.toordinal()` gives it.
  Its weekday is `(ordinal + 6) % 7`, which is CPython's own formula.
- Instants are whole seconds. The booking instant is
  `ordinal * 86400 + int(start) * 3600 + int((start % 1) * 60) * 60`.
  `now` is a parameter, in seconds: Odoo's `Datetime.now()` has second
  resolution.
- The constraints take the field and the date as optional values because
  the source tests for their absence. A creation request carries every
  value explicitly: an absent field or date is one written as empty, which
  the required columns refuse before any constraint runs. The column
  defaults are not applied (see "Left out").

The model follows the code where its behaviour is easy to misread:

- Reopening (`action_set_to_draft`) re-runs only the overlap constraint.
  That is the only constraint whose trigger list names `state`. The
  admission rules, such as lead time, are not re-run.
- A field's `active` flag is only a selection domain in the form, so
  creation does not require an active field.
- A 45-minute booking is refused as too short, not as "not a half-hour
  multiple", because the minimum test comes first.
- Without a field, the participant check reads capacity 0 and so refuses
  every count.
- For a start hour in (-1, 0), `int(start)` is 0 and the minutes are
  `int((start % 1) * 60)` of the floored fraction, so the instant check
  computes a time in the first hour instead of raising: 00:30 for -0.5,
  00:45 for -0.25. The time-range check refuses the booking anyway.

## Model

| member | source | states |
|---|---|---|
| `SportsField.NewField` | models/sports_field.py:41-83 | a field with the declared defaults (capacity 10, 7:00 to 22:00, all seven days open) passes the capacity and hours checks, and is valid exactly when its rate is positive |
| `SportsField.CheckCapacity` | models/sports_field.py:103-107 | accepts exactly when capacity is at least 2 |
| `SportsField.CheckHours` | models/sports_field.py:109-117 | accepts exactly when 0 ≤ opening < closing ≤ 24, so the window is non-empty and inside one day; refuses the opening hour first when it is out of range |
| `SportsField.CheckRate` | models/sports_field.py:119-123 | accepts exactly when the hourly rate is positive |
| `SportsField.WriteKeepsCodesUnique` | models/sports_field.py:99-101 | writing a field into a table with unique codes keeps them unique exactly when no other field holds its code |
| `SportsField.ValidateField` | models/sports_field.py:99-123 | a field record is accepted exactly when its code is new and it is valid; a valid field is refused only for a duplicate code |
| `BookingLedger.BookingCount` | models/sports_field.py:125-128 | the count never exceeds the number of bookings |
| `BookingLedger.BookingCountZero` | models/sports_field.py:125-128 | the count is zero exactly when no booking names the field |
| `BookingLedger.BookingCountIsSize` | models/sports_field.py:125-128 | `booking_count` equals the number of bookings whose field is this field |
| `BookingRules.Duration` | models/sports_booking.py:122-125 | the duration is never negative; it is positive exactly when end > start, and then it is `end - start` |
| `BookingRules.TotalAmount` | models/sports_booking.py:127-130 | the amount is never negative for a non-negative duration and rate, zero when either is zero, and positive when both are |
| `BookingRules.RateOf` | models/sports_booking.py:127-130 | the rate read through the booking's field, 0 when the booking has no field |
| `BookingAdmission.NewBooking` | models/sports_booking.py:122-130 | a created booking is in draft, keeps the requested values, and stores duration and duration × the field's rate |
| `BookingRules.AdmittedAmountBounds` | models/sports_booking.py:127-130 | a booking that passes the duration check on a valid field costs (end − start) × rate, between one and four hours' worth |
| `BookingLedger.Retotal` | models/sports_booking.py:127-130 | rewriting a field's rate changes nothing in a booking but its total |
| `BookingTime.Trunc` | models/sports_booking.py:139 | `int()` truncates toward zero: within one unit of its argument, on the side of zero |
| `BookingTime.FracPart` | models/sports_booking.py:140 | `x % 1` lies in [0, 1) and removes exactly the floor |
| `BookingTime.MinuteOf` | models/sports_booking.py:140 | the minutes past the hour are in 0..59 |
| `BookingTime.BookingInstant` | models/sports_booking.py:137-141 | an instant exists exactly when there is a date and −1 < start < 24, matching where Python raises; it is the date's midnight plus `int(start)` hours plus `int((start % 1) * 60)` minutes, which for start ≥ 0 is the start truncated to the whole minute |
| `BookingTime.NegativeStartInstant` | models/sports_booking.py:137-141 | a start of −0.5 is taken as 00:30 and −0.25 as 00:45 of the same day |
| `BookingTime.InstantOnHalfHours` | models/sports_booking.py:137-141 | at half-hour starts the truncation is exact: start k/2 is second k × 1800 of the day |
| `BookingRules.CheckBookingDatetime` | models/sports_booking.py:132-155 | admits exactly the instants at least two hours after `now`; refuses as past exactly those before `now`, and for lead time exactly those in the two hours after it |
| `BookingRules.CheckDates` | models/sports_booking.py:111-114 | the SQL check accepts exactly when the computed duration is positive |
| `BookingRules.CheckTimeRange` | models/sports_booking.py:157-163 | accepts exactly when 0 ≤ start < 24 and 0 < end ≤ 24; reports the start first |
| `BookingRules.HalfHourMultiple` | models/sports_booking.py:175 | `(d * 2) % 1 == 0` holds exactly when d is a whole number of halves |
| `BookingRules.CheckDuration` | models/sports_booking.py:165-176 | accepts exactly when 1 ≤ d ≤ 4 and d is a whole number of half hours; below one hour is reported as too short |
| `BookingRules.CheckDurationAcceptsExactly` | models/sports_booking.py:165-176 | the duration check accepts exactly {1.0, 1.5, 2.0, 2.5, 3.0, 3.5, 4.0} |
| `BookingRules.EmptySpanRejected` | models/sports_booking.py:125-170 | a booking ending at or before its start has duration 0 and is refused as too short, and by the SQL check |
| `BookingTime.Weekday` | models/sports_booking.py:185 | the weekday of a date ordinal is in 0..6 |
| `BookingTime.WeekdayNext` | models/sports_booking.py:185 | consecutive dates have consecutive weekdays, and the weekday repeats every seven days |
| `BookingRules.CheckFieldAvailabilityDay` | models/sports_booking.py:178-192 | accepts exactly when there is no field, no date, or the field's flag for the date's weekday is set |
| `BookingRules.CheckFieldHours` | models/sports_booking.py:194-210 | accepts exactly when there is no field or opening ≤ start and end ≤ closing; reports a start before opening first |
| `BookingRules.CheckParticipants` | models/sports_booking.py:237-246 | accepts exactly when there is a field and 1 ≤ participants ≤ its capacity |
| `BookingTime.NatToString` | models/sports_booking.py:252 | the decimal rendering is a non-empty string of digits, one digit below 10 and at most two below 100 |
| `BookingTime.Pad2` | models/sports_booking.py:252 | `{n:02d}` has at least two characters, exactly two for 0 ≤ n < 100 |
| `BookingTime.ParseNatToString` | models/sports_booking.py:252 | reading a rendered number back gives the number |
| `BookingTime.ParsePad2` | models/sports_booking.py:252 | reading a zero-padded, possibly signed rendering back gives the number |
| `BookingTime.FormatTime` | models/sports_booking.py:248-252 | the text has at least five characters with a colon before the last two |
| `BookingTime.FormatTimeRoundTrip` | models/sports_booking.py:248-252 | the hours before the colon read back as `int(t)` and the two digits after it as the minutes past the hour |
| `BookingOverlap.SecondDisjunctRedundant` | models/sports_booking.py:224-226 | for a booking with start < end the second time disjunct adds nothing: the search finds exactly the peers whose half-open interval meets the booking's |
| `BookingOverlap.Conflicts` | models/sports_booking.py:219-227 | the search returns exactly the ledger's bookings matching the domain (other id, same field and date, not cancelled, intersecting hours) |
| `BookingOverlap.CheckOverlappingBookings` | models/sports_booking.py:212-235 | a cancelled booking is never refused; an active one is refused exactly when the search finds a booking, and the refusal names one it found |
| `BookingOverlap.ClashIsFound` | models/sports_booking.py:219-227 | every active booking of another id that overlaps on the same field and date is found by the search |
| `BookingOverlap.InsertKeepsNoOverlap` | models/sports_booking.py:212-229 | inserting a booking that passes the check keeps "no two active bookings on the same field and date overlap" |
| `BookingOverlap.UpdateKeepsNoOverlap` | models/sports_booking.py:212-229 | rewriting a booking that then passes the check against the rewritten table keeps the invariant |
| `BookingOverlap.ActiveMoveNeverConflicts` | models/sports_booking.py:212-229 | moving an active booking to another active state never trips the re-run check |
| `BookingOverlap.CancelFreesSlot` | models/sports_booking.py:215-223 | after the only booking a candidate conflicts with is cancelled, the candidate passes the check |
| `BookingLifecycle.Transition` | models/sports_booking.py:254-287 | no action leaves completed; cancel succeeds exactly from the states other than completed; the only action that keeps a state is cancel on a cancelled booking |
| `BookingLifecycle.RepeatedAction` | models/sports_booking.py:254-287 | repeating an action that succeeded fails, except a second cancel, which keeps the booking cancelled |
| `BookingLifecycle.TransitionFollowsEdges` | models/sports_booking.py:254-287 | an action succeeds exactly along the edges of the lifecycle table |
| `BookingLifecycle.Guards` | models/sports_booking.py:254-287 | confirm only from draft, start only from confirmed, complete only from in progress, cancel from all but completed, reopen only from cancelled |
| `BookingLifecycle.CompletedIsFinal` | models/sports_booking.py:268-279 | from completed, every non-empty run of actions fails, so completed is reached again only by the empty run |
| `BookingLifecycle.CompletionNeedsEveryStep` | models/sports_booking.py:254-273 | any run that ends in completed passed through every forward step its start state had still to take |
| `BookingLifecycle.CancelThenReopen` | models/sports_booking.py:275-287 | cancel then reopen brings any booking that is not completed back to draft |
| `BookingAdmission.FirstFailure` | models/sports_booking.py:132-246 | the constraints together pass exactly when each passes, and a refusal is one of their refusals |
| `BookingAdmission.Admit` | models/sports_booking.py:111-246 | a new record passes exactly when each of its eight constraints passes; a refusal is one constraint's own refusal, and the SQL end-after-start check is reported before any other |
| `BookingAdmission.AdmitAcceptsExactly` | models/sports_booking.py:111-246 | a new booking is admitted exactly when it has a field and satisfies every rule stated directly; an admitted duration is one of the seven allowed values |
| `BookingAdmission.AdmitRequest` | models/sports_booking.py:116-120 | a missing field or date is refused first, then an unknown field; a request with a known field and a date is accepted exactly when its draft record satisfies every rule, and is then stored as that record |
| `BookingAdmission.ScenarioAdmitted` | models/sports_booking.py:122-246 | tomorrow 14:00 to 15:30 for 4 players on a default court at rate 20, requested at 10:00, is admitted with duration 1.5 and amount 30 |
| `BookingAdmission.ScenarioConflict` | models/sports_booking.py:212-235 | with 14:00 to 15:30 taken, 15:00 to 16:00 is refused naming the taken booking |
| `BookingAdmission.ScenarioBeforeOpening` | models/sports_booking.py:194-204 | 6:00 to 7:00 on a court opening at 7:00 is refused as before opening |
| `BookingAdmission.ScenarioDurations` | models/sports_booking.py:165-176 | 1 h 45 is refused as not a half-hour multiple, and 45 minutes as too short |
| `BookingAdmission.ScenarioLeadTime` | models/sports_booking.py:150-155 | one hour ahead is not in the past but is refused for lead time |
| `BookingLedger.IndexOf` | models/sports_booking.py:254-287 | finds the first position holding the id, and fails exactly when no booking has it |
| `BookingLedger.Step` | models/sports_booking.py:254-287 | an unknown id is refused as not found and a disallowed action as illegal; a success writes the guard's new state into the booking and leaves every other booking as it was |
| `BookingLedger.ApplyAll` | models/sports_booking.py:254-287 | a successful action over a recordset keeps the table's length and ids, and leaves every booking outside the recordset as it was |
| `BookingLedger.StepKeepsConsistent` | models/sports_booking.py:254-287 | one record's action keeps the table consistent, gives that record the state its transition names, and leaves every other record unchanged |
| `BookingLedger.ApplyAllKeepsConsistent` | models/sports_booking.py:254-287 | an action over a recordset keeps the table consistent and changes only states |
| `BookingLedger.ApplyAllDecidedByGuards` | models/sports_booking.py:254-281 | except for reopen, an action over a recordset of distinct ids on a consistent table succeeds exactly when every named booking exists and its guard allows the action |
| `BookingLedger.ApplyAllMovesEach` | models/sports_booking.py:254-287 | after an action over a recordset, every booking it names holds the state its transition gives from its previous state |
| `BookingLedger.ReopenDecidedBySlot` | models/sports_booking.py:212-235 | reopening a cancelled booking succeeds exactly when no other booking would clash with it in draft |
| `BookingLedger.StepDecidedByGuard` | models/sports_booking.py:254-281 | except for reopen, an action on a consistent table succeeds exactly when the booking exists and its guard allows it |
| `BookingLedger.OnlyReopenConflicts` | models/sports_booking.py:254-287 | only reopen can be refused for an overlap |
| `BookingLedger.Ledger.AddField` | models/sports_field.py:99-123 | a field is stored under a fresh id exactly when it passes the field constraints, and only then is the id counter advanced; the table keeps unique codes and valid fields |
| `BookingLedger.Ledger.UpdateField` | models/sports_booking.py:127-130 | a field write that passes the field constraints replaces the field and recomputes the total of every booking on it and nothing else; a refused write changes nothing |
| `BookingLedger.RetotalKeepsStored` | models/sports_booking.py:127-130 | retotalling a field's bookings after a valid write keeps every booking's total equal to duration × its field's rate, and the table consistent |
| `BookingLedger.AppendAdmitted` | models/sports_booking.py:116-120 | appending an admitted booking keeps every booking stored and the table consistent, and adds one to its field's count |
| `BookingLedger.Ledger.Create` | models/sports_booking.py:116-120 | a request is stored as a new draft booking under a fresh id exactly when `AdmitRequest` admits it, and its field's booking count grows by one; a refusal changes nothing, not even the id counter; the invariant is kept |
| `BookingLedger.Ledger.Apply` | models/sports_booking.py:254-287 | an action over a recordset commits exactly `ApplyAll`'s result, in which every named booking holds its transition's state and nothing but states changed, or rolls back with its refusal; the invariant is kept |

## Left out

- The chatter messages (`message_post`), field tracking and the `mail.thread` mixin: side effects with no bearing on admission.
- The column defaults of `create` (models/sports_booking.py:35-40 and 88-91): the source dates a request without a date today (`context_today`) and gives it one participant. `BookingAdmission.Request` carries every value explicitly, so its absent date stands for a date written as empty, which the required column refuses.
- An explicit `state` in the values given to `create`: `state = 'draft'` is only a column default (models/sports_booking.py:66), so the source stores a booking created as `confirmed` in that state, and one created as `cancelled` skips the overlap check (lines 215-216). `BookingAdmission.NewBooking` always creates the booking in draft.
- Reference numbers from `ir.sequence` in `create`: the ledger numbers bookings with its own counter.
- `action_view_bookings`: it only returns a window action for the user interface.
- The related fields (phone, email, sport type, hourly rate), partner, payment status, notes, description, image and `_order`: no rule reads them.
- Writes to a booking's date, hours, field or participants after creation: only state changes are modelled. Such writes would re-run the constraints whose trigger lists name the changed columns.
- Archiving or deleting fields and bookings.
- Timezones: `now` is a parameter on the same scale as the booking instant.
- IEEE floating point: hours are exact reals.
- Python's date range: ordinals are not bounded to 1..3652059.
- Concurrency and transaction isolation: the check runs against one consistent snapshot of the table, and a refused call is rolled back whole.
- The order in which Odoo runs the constraints of one record: the model runs them in declaration order, after the SQL check. This only decides which reason is reported when several rules fail.
- `BookingOverlap.CheckOverlappingBookings`: names some conflicting booking (the first in table order), not the first in the record order `_order` (date, then start, descending) that the error message uses.
