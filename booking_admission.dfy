/** Creating a booking in models/sports_booking.py: the insert with its
    SQL constraints, then every Python constraint on the new record. */
module BookingAdmission {
  import opened Wrappers
  import opened SportsField
  import opened BookingTime
  import opened BookingLifecycle
  import opened BookingRules
  import opened BookingOverlap

  /** The values a booking is created with. */
  datatype Request = Request(
    fieldId: Option<nat>,
    date: Option<int>,
    start: real,
    end: real,
    participants: int)

  /** The record `create` writes: state `draft` and the computed fields. */
  function NewBooking(id: nat, req: Request, field: Option<Field>): (b: Booking)
    ensures b.id == id && b.state == Draft
    ensures b.fieldId == req.fieldId && b.date == req.date
    ensures b.start == req.start && b.end == req.end && b.participants == req.participants
    ensures b.duration == Duration(req.start, req.end)
    ensures b.totalAmount == TotalAmount(b.duration, RateOf(field))
  {
    var d := Duration(req.start, req.end);
    Booking(id, req.fieldId, req.date, req.start, req.end, req.participants, Draft, d, TotalAmount(d, RateOf(field)))
  }

  /** The first failing verdict, or `Pass` when every one passes. */
  function FirstFailure(verdicts: seq<Outcome<Reason>>): (r: Outcome<Reason>)
    ensures r.Pass? <==> forall i :: 0 <= i < |verdicts| ==> verdicts[i].Pass?
    ensures r.Fail? ==> r in verdicts
  {
    if verdicts == [] then Pass
    else if verdicts[0].Fail? then verdicts[0]
    else FirstFailure(verdicts[1..])
  }

  /** Every constraint on a new record `c` of `field`, against the other
      bookings `bs`: the SQL check, then the Python constraints in the
      order the source declares them. The search excludes the record's own
      id, so checking against the ledger before or after the insert is the same. */
  function AdmissionChecks(c: Booking, field: Option<Field>, bs: seq<Booking>, now: int): (vs: seq<Outcome<Reason>>)
    ensures |vs| == 8
  {
    [
      CheckDates(c.start, c.end),
      CheckBookingDatetime(c.date, c.start, now),
      CheckTimeRange(c.start, c.end),
      CheckDuration(c.duration),
      CheckFieldAvailabilityDay(field, c.date),
      CheckFieldHours(field, c.start, c.end),
      CheckOverlappingBookings(c, bs),
      CheckParticipants(field, c.participants)
    ]
  }

  /** The verdict on a new record: the first constraint that fails, in the
      order above, or `Pass`. */
  function Admit(c: Booking, field: Option<Field>, bs: seq<Booking>, now: int): (r: Outcome<Reason>)
    ensures r.Pass? <==> forall v :: v in AdmissionChecks(c, field, bs, now) ==> v.Pass?
    ensures r.Fail? ==> r in AdmissionChecks(c, field, bs, now)
    ensures CheckDates(c.start, c.end).Fail? ==> r == CheckDates(c.start, c.end)
  {
    FirstFailure(AdmissionChecks(c, field, bs, now))
  }

  /** What an admitted booking satisfies, stated without the checks. */
  ghost predicate Admissible(c: Booking, f: Field, bs: seq<Booking>, now: int) {
    && c.start < c.end
    && BookingInstant(c.date, c.start).Some?
    && BookingInstant(c.date, c.start).value >= now + MinLeadSeconds
    && 0.0 <= c.start < 24.0 && 0.0 < c.end <= 24.0
    && c.duration in AllowedDurations
    && (c.date.Some? ==> OpenOn(f, Weekday(c.date.value)))
    && f.openingTime <= c.start && c.end <= f.closingTime
    && (Active(c) ==> forall b :: b in bs ==> !SearchMatch(c, b))
    && 1 <= c.participants <= f.capacity
  }

  /** Admission passes exactly for a record with a field that satisfies
      every rule; its duration is then one of the seven allowed values and
      equals `end - start`. */
  lemma AdmitAcceptsExactly(c: Booking, field: Option<Field>, bs: seq<Booking>, now: int)
    requires c.duration == Duration(c.start, c.end)
    ensures Admit(c, field, bs, now).Pass? <==> field.Some? && Admissible(c, field.value, bs, now)
    ensures Admit(c, field, bs, now).Pass? ==> c.end - c.start in AllowedDurations
  {
    CheckDurationAcceptsExactly(c.duration);
    var vs := AdmissionChecks(c, field, bs, now);
    assert Admit(c, field, bs, now) == FirstFailure(vs);
    if field.Some? && Admissible(c, field.value, bs, now) {
      forall i | 0 <= i < |vs| ensures vs[i].Pass? {
        if i == 6 && Active(c) {
          assert !(exists b :: b in bs && SearchMatch(c, b));
        }
      }
    }
    if Admit(c, field, bs, now).Pass? {
      assert vs[0].Pass? && vs[1].Pass? && vs[2].Pass? && vs[3].Pass?;
      assert vs[4].Pass? && vs[5].Pass? && vs[6].Pass? && vs[7].Pass?;
      assert field.Some?;
      assert c.duration in AllowedDurations;
      assert Active(c) ==> forall b :: b in bs ==> !SearchMatch(c, b);
    }
  }

  /** `create`: a missing required value or an unknown field is refused by
      the database before any constraint runs; otherwise the new record is
      admitted or refused by `Admit`. */
  function AdmitRequest(fields: map<nat, Field>, bs: seq<Booking>, id: nat, req: Request, now: int): (r: Result<Booking, Reason>)
    ensures r.Ok? ==> req.fieldId.Some? && req.fieldId.value in fields && req.date.Some?
    ensures r.Ok? ==> r.value == NewBooking(id, req, Some(fields[req.fieldId.value]))
    ensures r.Ok? ==> Admissible(r.value, fields[req.fieldId.value], bs, now)
    ensures req.fieldId.None? || req.date.None? ==> r == Err(MissingRequiredValue)
    ensures req.fieldId.Some? && req.fieldId.value !in fields && req.date.Some? ==> r == Err(FieldNotFound)
    ensures req.fieldId.Some? && req.fieldId.value in fields && req.date.Some? ==>
      (r.Ok? <==> Admissible(NewBooking(id, req, Some(fields[req.fieldId.value])), fields[req.fieldId.value], bs, now))
  {
    if req.fieldId.None? || req.date.None? then Err(MissingRequiredValue)
    else if req.fieldId.value !in fields then Err(FieldNotFound)
    else
      var field := Some(fields[req.fieldId.value]);
      var c := NewBooking(id, req, field);
      AdmitAcceptsExactly(c, field, bs, now);
      match Admit(c, field, bs, now)
      case Fail(e) => Err(e)
      case Pass => Ok(c)
  }

  /** Scenario: a court open every day from 7:00 to 22:00 for 10 players at
      rate 20; at 10:00 a request for tomorrow 14:00-15:30 for 4 players
      is admitted with duration 1.5 and amount 30. */
  lemma ScenarioAdmitted(today: int)
    ensures var court := NewField("Court-1", 20.0);
      var req := Request(Some(1), Some(today + 1), 14.0, 15.5, 4);
      var r := AdmitRequest(map[1 := court], [], 7, req, today * SecondsPerDay + 10 * SecondsPerHour);
      r.Ok? && r.value.duration == 1.5 && r.value.totalAmount == 30.0
  {
    var court := NewField("Court-1", 20.0);
    var req := Request(Some(1), Some(today + 1), 14.0, 15.5, 4);
    var now := today * SecondsPerDay + 10 * SecondsPerHour;
    var c := NewBooking(7, req, Some(court));
    InstantOnHalfHours(today + 1, 28);
    assert FracPart(1.5 * 2.0) == 0.0;
    AdmitAcceptsExactly(c, Some(court), [], now);
  }

  /** Scenario: with 14:00-15:30 taken, 15:00-16:00 on the same court and
      day is refused, naming the booking it meets. */
  lemma ScenarioConflict(today: int, taken: Booking)
    requires taken.fieldId == Some(1) && taken.date == Some(today + 1) && taken.id == 7
    requires taken.start == 14.0 && taken.end == 15.5 && taken.state == Draft
    ensures var req := Request(Some(1), Some(today + 1), 15.0, 16.0, 4);
      AdmitRequest(map[1 := NewField("Court-1", 20.0)], [taken], 8, req, today * SecondsPerDay + 10 * SecondsPerHour)
        == Err(Overlapping(7))
  {
    InstantOnHalfHours(today + 1, 30);
    assert FracPart(1.0 * 2.0) == 0.0;
  }

  /** Scenario: 6:00-7:00 on a court that opens at 7:00 is refused as before opening. */
  lemma ScenarioBeforeOpening(today: int)
    ensures var req := Request(Some(1), Some(today + 1), 6.0, 7.0, 4);
      AdmitRequest(map[1 := NewField("Court-1", 20.0)], [], 8, req, today * SecondsPerDay + 10 * SecondsPerHour)
        == Err(BeforeOpening)
  {
    InstantOnHalfHours(today + 1, 12);
    assert FracPart(1.0 * 2.0) == 0.0;
  }

  /** Scenario: 1 hour 45 minutes is refused as not a multiple of half an
      hour; 45 minutes is refused earlier, as shorter than one hour. */
  lemma ScenarioDurations(today: int)
    ensures var now := today * SecondsPerDay + 10 * SecondsPerHour;
      var fields := map[1 := NewField("Court-1", 20.0)];
      && AdmitRequest(fields, [], 8, Request(Some(1), Some(today + 1), 14.0, 15.75, 4), now) == Err(DurationNotHalfHour)
      && AdmitRequest(fields, [], 8, Request(Some(1), Some(today + 1), 14.0, 14.75, 4), now) == Err(DurationTooShort)
  {
    InstantOnHalfHours(today + 1, 28);
    assert (1.75 * 2.0).Floor == 3;
  }

  /** Scenario: today at one hour from now is not in the past but is
      refused for lack of the two-hour lead time. */
  lemma ScenarioLeadTime(today: int)
    ensures var req := Request(Some(1), Some(today), 11.0, 12.0, 4);
      AdmitRequest(map[1 := NewField("Court-1", 20.0)], [], 8, req, today * SecondsPerDay + 10 * SecondsPerHour)
        == Err(InsufficientLeadTime)
  {
    InstantOnHalfHours(today, 22);
  }
}
