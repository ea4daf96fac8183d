/** `_check_overlapping_bookings` of models/sports_booking.py: the search
    for other active bookings of the same field and date whose hours
    intersect, and the ledger invariant it maintains. */
module BookingOverlap {
  import opened Wrappers
  import opened BookingLifecycle
  import opened BookingRules

  /** Only bookings that are not cancelled take part in conflicts. */
  predicate Active(b: Booking) {
    b.state != Cancelled
  }

  /** The half-open intervals [s1, e1) and [s2, e2) share a moment. */
  predicate IntervalsOverlap(s1: real, e1: real, s2: real, e2: real) {
    s1 < e2 && s2 < e1
  }

  /** The part of the search domain that selects candidates by identity:
      another record, same field, same date, not cancelled. */
  predicate SameSlotPeer(rec: Booking, other: Booking) {
    && other.id != rec.id
    && other.fieldId == rec.fieldId
    && other.date == rec.date
    && Active(other)
  }

  /** The search domain as written, with both time disjuncts. */
  predicate SearchMatch(rec: Booking, other: Booking) {
    && SameSlotPeer(rec, other)
    && ((other.start < rec.end && other.end > rec.start)
        || (other.start < rec.start && other.end > rec.start))
  }

  /** For a record with `start < end` the second disjunct adds nothing: the
      search finds exactly the peers whose interval meets the record's. */
  lemma SecondDisjunctRedundant(rec: Booking, other: Booking)
    requires rec.start < rec.end
    ensures SearchMatch(rec, other) <==>
      SameSlotPeer(rec, other) && IntervalsOverlap(other.start, other.end, rec.start, rec.end)
  {
  }

  /** The search result, in ledger order. */
  function Conflicts(rec: Booking, bs: seq<Booking>): (r: seq<Booking>)
    ensures forall b :: b in r <==> b in bs && SearchMatch(rec, b)
    ensures |r| <= |bs|
  {
    if bs == [] then []
    else if SearchMatch(rec, bs[0]) then [bs[0]] + Conflicts(rec, bs[1..])
    else Conflicts(rec, bs[1..])
  }

  /** The constraint: a cancelled record is skipped; an active one is
      refused, naming the first conflicting booking, when the search finds
      anything. */
  function CheckOverlappingBookings(rec: Booking, bs: seq<Booking>): (r: Outcome<Reason>)
    ensures rec.state == Cancelled ==> r.Pass?
    ensures r.Fail? <==> Active(rec) && exists b :: b in bs && SearchMatch(rec, b)
    ensures r.Fail? ==> exists b :: b in bs && SearchMatch(rec, b) && r.error == Overlapping(b.id)
  {
    if rec.state == Cancelled then Pass
    else
      var found := Conflicts(rec, bs);
      if found == [] then Pass
      else
        assert found[0] in found;
        Fail(Overlapping(found[0].id))
  }

  /** Two bookings that may not coexist: both active, same field and date,
      intersecting hours. */
  predicate Clash(a: Booking, b: Booking) {
    && Active(a) && Active(b)
    && a.fieldId == b.fieldId && a.date == b.date
    && IntervalsOverlap(a.start, a.end, b.start, b.end)
  }

  /** No two active bookings on the same field and date overlap. */
  ghost predicate NoOverlap(bs: seq<Booking>) {
    forall i, j :: 0 <= i < j < |bs| ==> !Clash(bs[i], bs[j])
  }

  ghost predicate UniqueIds(bs: seq<Booking>) {
    forall i, j :: 0 <= i < j < |bs| ==> bs[i].id != bs[j].id
  }

  /** What the ledger keeps: distinct ids, every booking ending after it
      starts (the SQL check), and no overlap. */
  ghost predicate Consistent(bs: seq<Booking>) {
    && UniqueIds(bs)
    && (forall i :: 0 <= i < |bs| ==> bs[i].start < bs[i].end)
    && NoOverlap(bs)
  }

  /** A record that clashes with a peer of another id is found by the search. */
  lemma ClashIsFound(rec: Booking, other: Booking)
    requires Clash(rec, other) && rec.id != other.id
    ensures SearchMatch(rec, other)
  {
  }

  /** Inserting a record that passes the check keeps the ledger free of overlaps. */
  lemma InsertKeepsNoOverlap(bs: seq<Booking>, rec: Booking)
    requires NoOverlap(bs)
    requires forall b :: b in bs ==> b.id != rec.id
    requires CheckOverlappingBookings(rec, bs).Pass?
    ensures NoOverlap(bs + [rec])
  {
    var t := bs + [rec];
    forall i, j | 0 <= i < j < |t| ensures !Clash(t[i], t[j]) {
      if j == |bs| {
        assert t[i] in bs;
        if Clash(t[i], rec) {
          ClashIsFound(rec, t[i]);
        }
      }
    }
  }

  /** A record rewritten in place, then re-checked against the rewritten
      ledger, keeps the ledger free of overlaps when the check passes. */
  lemma UpdateKeepsNoOverlap(bs: seq<Booking>, k: nat, rec: Booking)
    requires UniqueIds(bs) && NoOverlap(bs)
    requires k < |bs| && rec.id == bs[k].id
    requires CheckOverlappingBookings(rec, bs[k := rec]).Pass?
    ensures NoOverlap(bs[k := rec])
  {
    var t := bs[k := rec];
    forall i, j | 0 <= i < j < |t| ensures !Clash(t[i], t[j]) {
      if i == k || j == k {
        var m := if i == k then j else i;
        assert t[m] in t && t[m].id != rec.id;
        if Clash(t[i], t[j]) {
          assert Clash(rec, t[m]);
          ClashIsFound(rec, t[m]);
        }
      }
    }
  }

  /** Moving an active booking to another active state never trips the
      check: the invariant already held for the same hours. */
  lemma ActiveMoveNeverConflicts(bs: seq<Booking>, k: nat, s: State)
    requires Consistent(bs)
    requires k < |bs| && Active(bs[k]) && s != Cancelled
    ensures CheckOverlappingBookings(bs[k].(state := s), bs[k := bs[k].(state := s)]).Pass?
  {
    var rec := bs[k].(state := s);
    var t := bs[k := rec];
    forall b | b in t ensures !SearchMatch(rec, b) {
      var m :| 0 <= m < |t| && t[m] == b;
      if m != k {
        if m < k { assert !Clash(bs[m], bs[k]); } else { assert !Clash(bs[k], bs[m]); }
        SecondDisjunctRedundant(rec, b);
      }
    }
  }

  /** Cancelling a booking frees its slot: a candidate whose only conflict
      was that booking passes the check afterwards. */
  lemma CancelFreesSlot(bs: seq<Booking>, k: nat, cand: Booking)
    requires UniqueIds(bs) && k < |bs|
    requires forall b :: b in bs && SearchMatch(cand, b) ==> b == bs[k]
    ensures CheckOverlappingBookings(cand, bs[k := bs[k].(state := Cancelled)]).Pass?
  {
    var t := bs[k := bs[k].(state := Cancelled)];
    forall b | b in t ensures !SearchMatch(cand, b) {
      var m :| 0 <= m < |t| && t[m] == b;
      if m != k {
        assert b in bs && b.id != bs[k].id;
      }
    }
  }
}
