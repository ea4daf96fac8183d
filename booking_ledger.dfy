/** The table of bookings and fields as one object whose methods change it
    in place: creating a booking, writing a field, and the `action_*`
    buttons of models/sports_booking.py. */
module BookingLedger {
  import opened Wrappers
  import opened SportsField
  import opened BookingLifecycle
  import opened BookingRules
  import opened BookingOverlap
  import opened BookingAdmission

  /** `_compute_booking_stats`: how many bookings name the field. */
  function BookingCount(bs: seq<Booking>, fieldId: nat): (n: nat)
    ensures n <= |bs|
  {
    if bs == [] then 0
    else BookingCount(bs[..|bs| - 1], fieldId) + (if bs[|bs| - 1].fieldId == Some(fieldId) then 1 else 0)
  }

  /** A field's count is zero exactly when no booking names it. */
  lemma {:induction false} BookingCountZero(bs: seq<Booking>, fieldId: nat)
    ensures BookingCount(bs, fieldId) == 0 <==> forall b :: b in bs ==> b.fieldId != Some(fieldId)
  {
    if bs != [] {
      var n := |bs| - 1;
      BookingCountZero(bs[..n], fieldId);
      assert bs == bs[..n] + [bs[n]];
    }
  }

  /** The positions of the bookings that name the field. */
  ghost function BookingsOf(bs: seq<Booking>, fieldId: nat): set<nat> {
    set i: nat | i < |bs| && bs[i].fieldId == Some(fieldId)
  }

  /** `booking_count` is the size of the field's `booking_ids`. */
  lemma {:induction false} BookingCountIsSize(bs: seq<Booking>, fieldId: nat)
    ensures BookingCount(bs, fieldId) == |BookingsOf(bs, fieldId)|
  {
    if bs != [] {
      var n := |bs| - 1;
      var front := bs[..n];
      BookingCountIsSize(front, fieldId);
      assert forall i: nat :: i < n ==> front[i] == bs[i];
      if bs[n].fieldId == Some(fieldId) {
        assert BookingsOf(bs, fieldId) == BookingsOf(front, fieldId) + {n};
      } else {
        assert BookingsOf(bs, fieldId) == BookingsOf(front, fieldId);
      }
    }
  }

  /** The first position holding booking `id`. */
  function IndexOf(bs: seq<Booking>, id: nat): (k: Option<nat>)
    ensures k.Some? ==> k.value < |bs| && bs[k.value].id == id
    ensures k.Some? ==> forall j :: 0 <= j < k.value ==> bs[j].id != id
    ensures k.None? <==> forall b :: b in bs ==> b.id != id
  {
    if bs == [] then None
    else if bs[0].id == id then Some(0)
    else match IndexOf(bs[1..], id)
      case None => None
      case Some(k) => Some(k + 1)
  }

  /** One iteration of an action's loop: check the guard, write the new
      state, and run the constraints that list `state`, that is, the overlap
      check of the rewritten record against the rewritten table. */
  function Step(bs: seq<Booking>, id: nat, a: Action): (r: Result<seq<Booking>, Reason>)
    ensures IndexOf(bs, id).None? ==> r == Err(BookingNotFound)
    ensures IndexOf(bs, id).Some? && Transition(bs[IndexOf(bs, id).value].state, a).None? ==>
      r == Err(IllegalTransition)
    ensures r.Ok? ==> IndexOf(bs, id).Some? && |r.value| == |bs|
    ensures r.Ok? ==> var k := IndexOf(bs, id).value;
      && Transition(bs[k].state, a) == Some(r.value[k].state)
      && r.value[k] == bs[k].(state := r.value[k].state)
      && forall i :: 0 <= i < |bs| && i != k ==> r.value[i] == bs[i]
  {
    match IndexOf(bs, id)
    case None => Err(BookingNotFound)
    case Some(k) =>
      match Transition(bs[k].state, a)
      case None => Err(IllegalTransition)
      case Some(s) =>
        var rec := bs[k].(state := s);
        var t := bs[k := rec];
        match CheckOverlappingBookings(rec, t)
        case Fail(e) => Err(e)
        case Pass => Ok(t)
  }

  /** An action on a recordset: `Step` for each record in turn; the first
      error aborts the whole call. */
  function ApplyAll(bs: seq<Booking>, ids: seq<nat>, a: Action): (r: Result<seq<Booking>, Reason>)
    ensures r.Ok? ==> |r.value| == |bs|
    ensures r.Ok? ==> forall i :: 0 <= i < |bs| ==> r.value[i].id == bs[i].id
    ensures r.Ok? ==> forall i :: 0 <= i < |bs| && bs[i].id !in ids ==> r.value[i] == bs[i]
    decreases |ids|
  {
    if ids == [] then Ok(bs)
    else match Step(bs, ids[0], a)
      case Err(e) => Err(e)
      case Ok(t) => ApplyAll(t, ids[1..], a)
  }

  /** `t` differs from `bs` at most in the states of its bookings. */
  ghost predicate StatesOnly(bs: seq<Booking>, t: seq<Booking>) {
    |t| == |bs| && forall i :: 0 <= i < |bs| ==> t[i] == bs[i].(state := t[i].state)
  }

  /** A step changes one state along a lifecycle edge and keeps the table consistent. */
  lemma StepKeepsConsistent(bs: seq<Booking>, id: nat, a: Action)
    requires Consistent(bs) && Step(bs, id, a).Ok?
    ensures Consistent(Step(bs, id, a).value)
    ensures StatesOnly(bs, Step(bs, id, a).value)
    ensures var k, t := IndexOf(bs, id).value, Step(bs, id, a).value;
      && t[k].state == Transition(bs[k].state, a).value
      && forall i :: 0 <= i < |bs| && i != k ==> t[i] == bs[i]
  {
    var k := IndexOf(bs, id).value;
    var rec := bs[k].(state := Transition(bs[k].state, a).value);
    UpdateKeepsNoOverlap(bs, k, rec);
    var t := bs[k := rec];
    assert forall i, j :: 0 <= i < j < |t| ==> t[i].id == bs[i].id && t[j].id == bs[j].id;
  }

  /** A whole action keeps the table consistent and changes only states. */
  lemma {:induction false} ApplyAllKeepsConsistent(bs: seq<Booking>, ids: seq<nat>, a: Action)
    requires Consistent(bs) && ApplyAll(bs, ids, a).Ok?
    ensures Consistent(ApplyAll(bs, ids, a).value)
    ensures StatesOnly(bs, ApplyAll(bs, ids, a).value)
    decreases |ids|
  {
    if ids != [] {
      StepKeepsConsistent(bs, ids[0], a);
      var t := Step(bs, ids[0], a).value;
      ApplyAllKeepsConsistent(t, ids[1..], a);
    }
  }

  /** After an action over a recordset, every booking it names holds the
      state its transition gives from the state it had before. */
  lemma {:induction false} ApplyAllMovesEach(bs: seq<Booking>, ids: seq<nat>, a: Action)
    requires UniqueIds(bs) && ApplyAll(bs, ids, a).Ok?
    ensures forall i :: 0 <= i < |bs| && bs[i].id in ids ==>
      Transition(bs[i].state, a) == Some(ApplyAll(bs, ids, a).value[i].state)
    decreases |ids|
  {
    if ids != [] {
      var k := IndexOf(bs, ids[0]).value;
      var t := Step(bs, ids[0], a).value;
      var r := ApplyAll(bs, ids, a).value;
      assert ApplyAll(t, ids[1..], a).value == r;
      assert forall i :: 0 <= i < |bs| ==> t[i].id == bs[i].id;
      ApplyAllMovesEach(t, ids[1..], a);
      forall i | 0 <= i < |bs| && bs[i].id in ids
        ensures Transition(bs[i].state, a) == Some(r[i].state)
      {
        if i == k {
          if bs[i].id in ids[1..] {
            RepeatedAction(bs[i].state, a);
          }
        } else {
          assert bs[i].id != ids[0];
          assert bs[i].id in ids[1..];
        }
      }
    }
  }

  /** Reopening a cancelled booking succeeds exactly when no other booking
      would clash with it back in draft. */
  lemma ReopenDecidedBySlot(bs: seq<Booking>, k: nat)
    requires Consistent(bs) && k < |bs| && bs[k].state == Cancelled
    ensures Step(bs, bs[k].id, SetToDraft).Ok? <==>
      forall j :: 0 <= j < |bs| && j != k ==> !Clash(bs[k].(state := Draft), bs[j])
  {
    assert IndexOf(bs, bs[k].id) == Some(k);
    var rec := bs[k].(state := Draft);
    var t := bs[k := rec];
    assert Step(bs, bs[k].id, SetToDraft) == if CheckOverlappingBookings(rec, t).Pass? then Ok(t) else Err(CheckOverlappingBookings(rec, t).error);
    forall b | b in t && SearchMatch(rec, b)
      ensures exists j :: 0 <= j < |bs| && j != k && Clash(rec, bs[j])
    {
      var j :| 0 <= j < |t| && t[j] == b;
      SecondDisjunctRedundant(rec, b);
      assert j != k && Clash(rec, bs[j]);
    }
    forall j | 0 <= j < |bs| && j != k && Clash(rec, bs[j])
      ensures bs[j] in t && SearchMatch(rec, bs[j])
    {
      ClashIsFound(rec, bs[j]);
      assert t[j] == bs[j];
    }
  }

  /** Two tables with the same ids in the same order place every id alike. */
  lemma {:induction false} IndexOfSameIds(bs: seq<Booking>, t: seq<Booking>, id: nat)
    requires |t| == |bs| && forall i :: 0 <= i < |bs| ==> t[i].id == bs[i].id
    ensures IndexOf(t, id) == IndexOf(bs, id)
    decreases |bs|
  {
    if bs != [] {
      IndexOfSameIds(bs[1..], t[1..], id);
    }
  }

  /** Except when reopening, an action over a recordset of distinct ids
      succeeds on a consistent table exactly when every record it names
      exists and its guard allows the action. */
  lemma {:induction false} ApplyAllDecidedByGuards(bs: seq<Booking>, ids: seq<nat>, a: Action)
    requires Consistent(bs) && a != SetToDraft
    requires forall i, j :: 0 <= i < j < |ids| ==> ids[i] != ids[j]
    ensures ApplyAll(bs, ids, a).Ok? <==>
      forall id :: id in ids ==> IndexOf(bs, id).Some? && Transition(bs[IndexOf(bs, id).value].state, a).Some?
    decreases |ids|
  {
    if ids != [] {
      StepDecidedByGuard(bs, ids[0], a);
      if Step(bs, ids[0], a).Ok? {
        var k := IndexOf(bs, ids[0]).value;
        var t := Step(bs, ids[0], a).value;
        StepKeepsConsistent(bs, ids[0], a);
        ApplyAllDecidedByGuards(t, ids[1..], a);
        forall id | id in ids[1..]
          ensures IndexOf(t, id) == IndexOf(bs, id)
          ensures IndexOf(bs, id).Some? ==> t[IndexOf(bs, id).value] == bs[IndexOf(bs, id).value]
        {
          IndexOfSameIds(bs, t, id);
          assert id != ids[0];
        }
        assert forall id :: id in ids <==> id == ids[0] || id in ids[1..];
      }
    }
  }

  /** Except when reopening, the guard alone decides a step: the overlap
      check it re-runs always passes on a consistent table. */
  lemma StepDecidedByGuard(bs: seq<Booking>, id: nat, a: Action)
    requires Consistent(bs) && a != SetToDraft
    ensures Step(bs, id, a).Ok? <==>
      IndexOf(bs, id).Some? && Transition(bs[IndexOf(bs, id).value].state, a).Some?
    ensures Step(bs, id, a).Err? ==> Step(bs, id, a).error in {BookingNotFound, IllegalTransition}
  {
    if IndexOf(bs, id).Some? {
      var k := IndexOf(bs, id).value;
      if Transition(bs[k].state, a).Some? && a != Cancel {
        ActiveMoveNeverConflicts(bs, k, Transition(bs[k].state, a).value);
      }
    }
  }

  /** Only reopening can be refused for an overlap. */
  lemma {:induction false} OnlyReopenConflicts(bs: seq<Booking>, ids: seq<nat>, a: Action)
    requires Consistent(bs) && a != SetToDraft
    ensures ApplyAll(bs, ids, a).Err? ==> ApplyAll(bs, ids, a).error in {BookingNotFound, IllegalTransition}
    decreases |ids|
  {
    if ids != [] {
      StepDecidedByGuard(bs, ids[0], a);
      if Step(bs, ids[0], a).Ok? {
        StepKeepsConsistent(bs, ids[0], a);
        OnlyReopenConflicts(Step(bs, ids[0], a).value, ids[1..], a);
      }
    }
  }

  /** A stored booking: fresh id, a known field and a date (both required),
      and its computed fields up to date with its field's rate. */
  ghost predicate Stored(b: Booking, fields: map<nat, Field>, nextId: nat) {
    && b.id < nextId
    && b.fieldId.Some? && b.fieldId.value in fields && b.date.Some?
    && b.duration == Duration(b.start, b.end)
    && b.totalAmount == TotalAmount(b.duration, fields[b.fieldId.value].hourlyRate)
  }

  /** The total a booking gets when field `id` is written with `rate`. */
  function Retotal(b: Booking, id: nat, rate: real): (r: Booking)
    ensures r.(totalAmount := b.totalAmount) == b
  {
    if b.fieldId == Some(id) then b.(totalAmount := TotalAmount(b.duration, rate)) else b
  }

  /** Appending an admitted booking keeps every booking stored and the table
      consistent, and adds one to its field's count. */
  lemma AppendAdmitted(fields: map<nat, Field>, bs: seq<Booking>, nextId: nat, req: Request, now: int)
    requires forall i :: 0 <= i < |bs| ==> Stored(bs[i], fields, nextId)
    requires Consistent(bs)
    requires AdmitRequest(fields, bs, nextId, req, now).Ok?
    ensures var t := bs + [AdmitRequest(fields, bs, nextId, req, now).value];
      && (forall i :: 0 <= i < |t| ==> Stored(t[i], fields, nextId + 1))
      && Consistent(t)
      && BookingCount(t, req.fieldId.value) == BookingCount(bs, req.fieldId.value) + 1
  {
    var b := AdmitRequest(fields, bs, nextId, req, now).value;
    assert CheckOverlappingBookings(b, bs).Pass?;
    InsertKeepsNoOverlap(bs, b);
    var t := bs + [b];
    assert t[..|t| - 1] == bs;
  }

  /** Retotalling the bookings of a field after a valid write keeps every
      booking stored and the table consistent. */
  lemma RetotalKeepsStored(fields: map<nat, Field>, bs: seq<Booking>, nextId: nat, id: nat, f: Field, t: seq<Booking>)
    requires id in fields
    requires forall i :: 0 <= i < |bs| ==> Stored(bs[i], fields, nextId)
    requires Consistent(bs)
    requires |t| == |bs| && forall i :: 0 <= i < |bs| ==> t[i] == Retotal(bs[i], id, f.hourlyRate)
    ensures forall i :: 0 <= i < |t| ==> Stored(t[i], fields[id := f], nextId)
    ensures Consistent(t)
  {
    forall j, k | 0 <= j < k < |t| ensures !Clash(t[j], t[k]) {
      assert !Clash(bs[j], bs[k]);
    }
  }

  class Ledger {
    var fields: map<nat, Field>
    var bookings: seq<Booking>
    var nextFieldId: nat
    /** Stands in for the `ir.sequence` that numbers bookings. */
    var nextBookingId: nat

    ghost predicate Valid()
      reads this
    {
      && CodesUnique(fields)
      && (forall id :: id in fields ==> id < nextFieldId && FieldValid(fields[id]))
      && (forall i :: 0 <= i < |bookings| ==> Stored(bookings[i], fields, nextBookingId))
      && Consistent(bookings)
    }

    constructor ()
      ensures Valid()
      ensures fields == map[] && bookings == []
    {
      fields := map[];
      bookings := [];
      nextFieldId := 0;
      nextBookingId := 0;
    }

    /** Creating a field: refused unless its code is new and it passes the
      field constraints. */
    method AddField(f: Field) returns (r: Result<nat, FieldError>)
      requires Valid()
      modifies this
      ensures Valid()
      ensures bookings == old(bookings) && nextBookingId == old(nextBookingId)
      ensures r.Ok? <==> ValidateField(old(fields), old(nextFieldId), f).Pass?
      ensures nextFieldId == if r.Ok? then old(nextFieldId) + 1 else old(nextFieldId)
      ensures r.Ok? ==> r.value == old(nextFieldId) && fields == old(fields)[r.value := f]
      ensures r.Err? ==> fields == old(fields) && r.error == ValidateField(old(fields), old(nextFieldId), f).error
    {
      var id := nextFieldId;
      var verdict := ValidateField(fields, id, f);
      if verdict.Fail? {
        return Err(verdict.error);
      }
      WriteKeepsCodesUnique(fields, id, f);
      fields := fields[id := f];
      nextFieldId := nextFieldId + 1;
      r := Ok(id);
    }

    /** Writing field `id`: refused unless the field exists, its code stays
      unique and it passes the field constraints; then the stored total of
      every booking of that field is recomputed with the new rate. The
      bookings themselves are not re-validated against the new hours or
      capacity, as no booking constraint lists those. */
    method UpdateField(id: nat, f: Field) returns (r: Outcome<FieldError>)
      requires Valid()
      modifies this
      ensures Valid()
      ensures nextBookingId == old(nextBookingId) && nextFieldId == old(nextFieldId)
      ensures id !in old(fields) ==> r == Fail(UnknownField)
      ensures id in old(fields) ==> r == ValidateField(old(fields), id, f)
      ensures r.Pass? ==> fields == old(fields)[id := f]
      ensures r.Pass? ==> |bookings| == |old(bookings)|
      ensures r.Pass? ==> forall i :: 0 <= i < |bookings| ==> bookings[i] == Retotal(old(bookings)[i], id, f.hourlyRate)
      ensures r.Fail? ==> fields == old(fields) && bookings == old(bookings)
    {
      if id !in fields {
        return Fail(UnknownField);
      }
      r := ValidateField(fields, id, f);
      if r.Fail? {
        return;
      }
      WriteKeepsCodesUnique(fields, id, f);
      fields := fields[id := f];
      var bs := bookings;
      var i := 0;
      while i < |bs|
        invariant 0 <= i <= |bs| == |bookings|
        invariant forall j :: 0 <= j < i ==> bs[j] == Retotal(bookings[j], id, f.hourlyRate)
        invariant forall j :: i <= j < |bs| ==> bs[j] == bookings[j]
      {
        if bs[i].fieldId == Some(id) {
          bs := bs[i := bs[i].(totalAmount := TotalAmount(bs[i].duration, f.hourlyRate))];
        }
        i := i + 1;
      }
      RetotalKeepsStored(old(fields), bookings, nextBookingId, id, f, bs);
      bookings := bs;
    }

    /** `create`: the request is admitted or refused by `AdmitRequest`; an
      admitted booking is appended in `draft` under a fresh id. */
    method Create(req: Request, now: int) returns (r: Result<nat, Reason>)
      requires Valid()
      modifies this
      ensures Valid()
      ensures fields == old(fields) && nextFieldId == old(nextFieldId)
      ensures var v := AdmitRequest(old(fields), old(bookings), old(nextBookingId), req, now);
        && (v.Ok? ==> r == Ok(old(nextBookingId)) && bookings == old(bookings) + [v.value])
        && (v.Err? ==> r == Err(v.error) && bookings == old(bookings))
      ensures nextBookingId == if r.Ok? then old(nextBookingId) + 1 else old(nextBookingId)
      ensures r.Ok? ==> BookingCount(bookings, req.fieldId.value) == BookingCount(old(bookings), req.fieldId.value) + 1
    {
      var v := AdmitRequest(fields, bookings, nextBookingId, req, now);
      if v.Err? {
        return Err(v.error);
      }
      var b := v.value;
      AppendAdmitted(fields, bookings, nextBookingId, req, now);
      bookings := bookings + [b];
      nextBookingId := nextBookingId + 1;
      r := Ok(b.id);
    }

    /** The `action_*` buttons on the bookings `ids`: `Confirm`, `Start`,
      `Complete`, `Cancel` or `SetToDraft` on each record in turn; any
      refusal rolls the whole call back. */
    method Apply(ids: seq<nat>, a: Action) returns (r: Outcome<Reason>)
      requires Valid()
      modifies this
      ensures Valid()
      ensures fields == old(fields) && nextFieldId == old(nextFieldId) && nextBookingId == old(nextBookingId)
      ensures var v := ApplyAll(old(bookings), ids, a);
        && (v.Ok? ==> r == Pass && bookings == v.value)
        && (v.Err? ==> r == Fail(v.error) && bookings == old(bookings))
      ensures r.Pass? ==> StatesOnly(old(bookings), bookings)
      ensures r.Pass? ==> forall i :: 0 <= i < |bookings| && old(bookings)[i].id in ids ==>
        Transition(old(bookings)[i].state, a) == Some(bookings[i].state)
    {
      var work := bookings;
      var i := 0;
      while i < |ids|
        invariant 0 <= i <= |ids|
        invariant ApplyAll(bookings, ids, a) == ApplyAll(work, ids[i..], a)
      {
        assert ids[i..][1..] == ids[i + 1..];
        var step := Step(work, ids[i], a);
        if step.Err? {
          return Fail(step.error);
        }
        work := step.value;
        i := i + 1;
      }
      ApplyAllKeepsConsistent(bookings, ids, a);
      ApplyAllMovesEach(bookings, ids, a);
      bookings := work;
      r := Pass;
    }
  }
}
