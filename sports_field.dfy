/** The sports-field record of models/sports_field.py and its constraints. */
module SportsField {
  import opened Wrappers

  /** A field as the booking rules read it. Times are fractional hours
      (14.5 is 14:30). The weekday flags follow Python's `date.weekday()`. */
  datatype Field = Field(
    code: string,
    capacity: int,
    hourlyRate: real,
    active: bool,
    openingTime: real,
    closingTime: real,
    monday: bool,
    tuesday: bool,
    wednesday: bool,
    thursday: bool,
    friday: bool,
    saturday: bool,
    sunday: bool)

  /** Why a field record is refused. */
  datatype FieldError =
    | CapacityTooSmall
    | OpeningOutOfRange
    | ClosingOutOfRange
    | ClosingNotAfterOpening
    | RateNotPositive
    | DuplicateCode
    | UnknownField

  const MinCapacity: int := 2
  const DefaultCapacity: int := 10
  const DefaultOpening: real := 7.0
  const DefaultClosing: real := 22.0

  /** The flag `day_fields[weekday]`, with 0 = Monday ... 6 = Sunday. */
  function OpenOn(f: Field, weekday: int): bool
    requires 0 <= weekday < 7
  {
    [f.monday, f.tuesday, f.wednesday, f.thursday, f.friday, f.saturday, f.sunday][weekday]
  }

  /** What a valid field is, stated directly: room for two players, a
      non-empty window inside one day, and a positive rate. */
  predicate FieldValid(f: Field) {
    && f.capacity >= MinCapacity
    && 0.0 <= f.openingTime < f.closingTime <= 24.0
    && f.hourlyRate > 0.0
  }

  /** A new field with the declared defaults: capacity 10, open from 7:00
      to 22:00 on all seven days, active. The rate has no default. */
  function NewField(code: string, rate: real): (f: Field)
    ensures f.code == code && f.hourlyRate == rate && f.active
    ensures CheckCapacity(f).Pass? && CheckHours(f).Pass?
    ensures forall w :: 0 <= w < 7 ==> OpenOn(f, w)
    ensures FieldValid(f) <==> rate > 0.0
  {
    Field(code, DefaultCapacity, rate, true, DefaultOpening, DefaultClosing,
          true, true, true, true, true, true, true)
  }

  /** `_check_capacity`. */
  function CheckCapacity(f: Field): (r: Outcome<FieldError>)
    ensures r.Pass? <==> f.capacity >= MinCapacity
    ensures r.Fail? ==> r.error == CapacityTooSmall
  {
    if f.capacity < MinCapacity then Fail(CapacityTooSmall) else Pass
  }

  /** `_check_hours`: the three range tests, in the source's order. */
  function CheckHours(f: Field): (r: Outcome<FieldError>)
    ensures r.Pass? <==> 0.0 <= f.openingTime < f.closingTime <= 24.0
    ensures r.Pass? ==> 0.0 < f.closingTime - f.openingTime <= 24.0
    ensures r == Fail(OpeningOutOfRange) <==> f.openingTime < 0.0 || f.openingTime >= 24.0
  {
    if f.openingTime < 0.0 || f.openingTime >= 24.0 then Fail(OpeningOutOfRange)
    else if f.closingTime < 0.0 || f.closingTime > 24.0 then Fail(ClosingOutOfRange)
    else if f.closingTime <= f.openingTime then Fail(ClosingNotAfterOpening)
    else Pass
  }

  /** `_check_rate`. */
  function CheckRate(f: Field): (r: Outcome<FieldError>)
    ensures r.Pass? <==> f.hourlyRate > 0.0
    ensures r.Fail? ==> r.error == RateNotPositive
  {
    if f.hourlyRate <= 0.0 then Fail(RateNotPositive) else Pass
  }

  /** The `code_unique` SQL constraint over the whole table of fields. */
  ghost predicate CodesUnique(fields: map<nat, Field>) {
    forall i, j :: i in fields && j in fields && i != j ==> fields[i].code != fields[j].code
  }

  /** Does a field other than `id` already use `code`? */
  predicate CodeTaken(fields: map<nat, Field>, id: nat, code: string) {
    exists j :: j in fields && j != id && fields[j].code == code
  }

  /** Writing `f` under `id` into a table whose codes are unique keeps them
      unique exactly when no other field holds `f.code`. */
  lemma WriteKeepsCodesUnique(fields: map<nat, Field>, id: nat, f: Field)
    requires CodesUnique(fields)
    ensures CodesUnique(fields[id := f]) <==> !CodeTaken(fields, id, f.code)
  {
    var t := fields[id := f];
    if CodeTaken(fields, id, f.code) {
      var j :| j in fields && j != id && fields[j].code == f.code;
      assert t[j].code == t[id].code;
    }
  }

  /** All field constraints in the order the record is written: the SQL
      unique index on insert, then the three Python constraints. */
  function ValidateField(fields: map<nat, Field>, id: nat, f: Field): (r: Outcome<FieldError>)
    ensures r.Pass? <==> !CodeTaken(fields, id, f.code) && FieldValid(f)
    ensures r.Fail? && FieldValid(f) ==> r.error == DuplicateCode
  {
    if CodeTaken(fields, id, f.code) then Fail(DuplicateCode)
    else match CheckCapacity(f)
      case Fail(e) => Fail(e)
      case Pass =>
        match CheckHours(f)
        case Fail(e) => Fail(e)
        case Pass => CheckRate(f)
  }
}
