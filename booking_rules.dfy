/** The booking record of models/sports_booking.py, its derived values and
    its single-record constraints, each a pure function that passes or
    names the reason it raises. */
module BookingRules {
  import opened Wrappers
  import opened SportsField
  import opened BookingTime
  import opened BookingLifecycle

  /** A booking. `fieldId` and `date` are optional because the constraints
      test for their absence; `date` is a `date.toordinal()` value.
      `duration` and `totalAmount` are the stored computed fields. */
  datatype Booking = Booking(
    id: nat,
    fieldId: Option<nat>,
    date: Option<int>,
    start: real,
    end: real,
    participants: int,
    state: State,
    duration: real,
    totalAmount: real)

  /** Why a booking is refused: one code per `raise` of the constraints,
      plus the database's own refusals. */
  datatype Reason =
    | MissingRequiredValue
    | FieldNotFound
    | EndNotAfterStart
    | InvalidDatetime
    | PastDatetime
    | InsufficientLeadTime
    | StartOutOfRange
    | EndOutOfRange
    | DurationTooShort
    | DurationTooLong
    | DurationNotHalfHour
    | FieldClosedOnWeekday
    | BeforeOpening
    | AfterClosing
    | Overlapping(conflictId: nat)
    | NoParticipants
    | OverCapacity
    | IllegalTransition
    | BookingNotFound

  const MinDuration: real := 1.0
  const MaxDuration: real := 4.0

  /** `_compute_duration`: the span of the booking, never negative. */
  function Duration(start: real, end: real): (d: real)
    ensures d >= 0.0
    ensures d > 0.0 <==> end > start
    ensures d > 0.0 ==> start + d == end
  {
    if end > start then end - start else 0.0
  }

  /** `_compute_total_amount`; an absent field reads as rate 0. */
  function TotalAmount(duration: real, rate: real): (amount: real)
    ensures duration >= 0.0 && rate >= 0.0 ==> amount >= 0.0
    ensures duration == 0.0 || rate == 0.0 ==> amount == 0.0
    ensures rate > 0.0 && duration > 0.0 ==> amount > 0.0
  {
    duration * rate
  }

  /** The hourly rate `rec.field_id.hourly_rate` reads. */
  function RateOf(field: Option<Field>): (rate: real)
    ensures field.None? ==> rate == 0.0
    ensures field.Some? ==> rate == field.value.hourlyRate
  {
    match field
    case None => 0.0
    case Some(f) => f.hourlyRate
  }

  /** The `check_dates` SQL constraint: `CHECK(end_time > start_time)`. */
  function CheckDates(start: real, end: real): (r: Outcome<Reason>)
    ensures r.Pass? <==> Duration(start, end) > 0.0
  {
    if end > start then Pass else Fail(EndNotAfterStart)
  }

  /** `_check_booking_datetime`: not in the past, and at least two hours
      ahead of `now` (seconds on the same scale as `BookingInstant`). */
  function CheckBookingDatetime(date: Option<int>, start: real, now: int): (r: Outcome<Reason>)
    ensures r.Pass? <==>
      BookingInstant(date, start).Some? && BookingInstant(date, start).value >= now + MinLeadSeconds
    ensures r == Fail(InvalidDatetime) <==> BookingInstant(date, start).None?
    ensures r == Fail(PastDatetime) <==>
      BookingInstant(date, start).Some? && BookingInstant(date, start).value < now
    ensures r == Fail(InsufficientLeadTime) <==>
      BookingInstant(date, start).Some? && now <= BookingInstant(date, start).value < now + MinLeadSeconds
  {
    match BookingInstant(date, start)
    case None => Fail(InvalidDatetime)
    case Some(t) =>
      if t < now then Fail(PastDatetime)
      else if t < now + MinLeadSeconds then Fail(InsufficientLeadTime)
      else Pass
  }

  /** `_check_time_range`. */
  function CheckTimeRange(start: real, end: real): (r: Outcome<Reason>)
    ensures r.Pass? <==> 0.0 <= start < 24.0 && 0.0 < end <= 24.0
    ensures r == Fail(StartOutOfRange) <==> start < 0.0 || start >= 24.0
  {
    if start < 0.0 || start >= 24.0 then Fail(StartOutOfRange)
    else if end <= 0.0 || end > 24.0 then Fail(EndOutOfRange)
    else Pass
  }

  /** `(d * 2) % 1 == 0`: a whole number of half hours. */
  function HalfHourMultiple(d: real): (b: bool)
    ensures b <==> d == (2.0 * d).Floor as real / 2.0
  {
    FracPart(d * 2.0) == 0.0
  }

  /** `_check_duration`: between one and four hours, in half-hour blocks. */
  function CheckDuration(d: real): (r: Outcome<Reason>)
    ensures r.Pass? <==> MinDuration <= d <= MaxDuration && HalfHourMultiple(d)
    ensures r == Fail(DurationTooShort) <==> d < MinDuration
  {
    if d < MinDuration then Fail(DurationTooShort)
    else if d > MaxDuration then Fail(DurationTooLong)
    else if !HalfHourMultiple(d) then Fail(DurationNotHalfHour)
    else Pass
  }

  /** The durations a booking may have. */
  const AllowedDurations: set<real> := {1.0, 1.5, 2.0, 2.5, 3.0, 3.5, 4.0}

  /** The duration check accepts exactly the seven allowed durations. */
  lemma CheckDurationAcceptsExactly(d: real)
    ensures CheckDuration(d).Pass? <==> d in AllowedDurations
  {
    if CheckDuration(d).Pass? {
      var k := (d * 2.0).Floor;
      assert d * 2.0 == k as real;
      assert 2 <= k <= 8;
      assert d == k as real / 2.0;
      assert k == 2 || k == 3 || k == 4 || k == 5 || k == 6 || k == 7 || k == 8;
    }
    if d in AllowedDurations {
      assert (d * 2.0).Floor as real == d * 2.0;
    }
  }

  /** A booking that ends at or before it starts has duration 0 and is
      refused as too short. */
  lemma EmptySpanRejected(start: real, end: real)
    requires end <= start
    ensures CheckDuration(Duration(start, end)) == Fail(DurationTooShort)
    ensures CheckDates(start, end).Fail?
  {
  }

  /** `_check_field_availability_day`; skipped without a field or a date. */
  function CheckFieldAvailabilityDay(field: Option<Field>, date: Option<int>): (r: Outcome<Reason>)
    ensures r.Pass? <==> field.None? || date.None? || OpenOn(field.value, Weekday(date.value))
    ensures r.Fail? ==> r.error == FieldClosedOnWeekday
  {
    if field.None? || date.None? then Pass
    else if !OpenOn(field.value, Weekday(date.value)) then Fail(FieldClosedOnWeekday)
    else Pass
  }

  /** `_check_field_hours`; skipped without a field. */
  function CheckFieldHours(field: Option<Field>, start: real, end: real): (r: Outcome<Reason>)
    ensures r.Pass? <==>
      field.None? || (field.value.openingTime <= start && end <= field.value.closingTime)
    ensures r == Fail(BeforeOpening) <==> field.Some? && start < field.value.openingTime
  {
    match field
    case None => Pass
    case Some(f) =>
      if start < f.openingTime then Fail(BeforeOpening)
      else if end > f.closingTime then Fail(AfterClosing)
      else Pass
  }

  /** `_check_participants`. Without a field the capacity reads as 0, so
      every participant count is refused. */
  function CheckParticipants(field: Option<Field>, participants: int): (r: Outcome<Reason>)
    ensures r.Pass? <==> field.Some? && 1 <= participants <= field.value.capacity
    ensures r == Fail(NoParticipants) <==> participants < 1
  {
    var capacity := match field case None => 0 case Some(f) => f.capacity;
    if participants < 1 then Fail(NoParticipants)
    else if participants > capacity then Fail(OverCapacity)
    else Pass
  }

  /** A booking that passes the duration check on a valid field costs
      between one and four hours at the field's rate. */
  lemma AdmittedAmountBounds(f: Field, start: real, end: real)
    requires FieldValid(f)
    requires CheckDuration(Duration(start, end)).Pass?
    ensures f.hourlyRate <= TotalAmount(Duration(start, end), f.hourlyRate) <= 4.0 * f.hourlyRate
    ensures TotalAmount(Duration(start, end), f.hourlyRate) == (end - start) * f.hourlyRate
  {
    var d := Duration(start, end);
    assert TotalAmount(d, f.hourlyRate) == d * f.hourlyRate;
    assert 1.0 <= d <= 4.0;
    assert f.hourlyRate > 0.0;
    assert TotalAmount(d - 1.0, f.hourlyRate) >= 0.0;
    assert TotalAmount(4.0 - d, f.hourlyRate) >= 0.0;
  }
}
