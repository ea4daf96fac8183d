/** Clock arithmetic of models/sports_booking.py: fractional hours, the
    booking instant built with `datetime.combine(...).replace(...)`, and
    the "HH:MM" rendering of `_format_time`. */
module BookingTime {
  import opened Wrappers

  const SecondsPerMinute: int := 60
  const SecondsPerHour: int := 3600
  const SecondsPerDay: int := 86400
  /** `min_advance_hours = 2`, in seconds. */
  const MinLeadSeconds: int := 2 * SecondsPerHour

  /** Python's `int(x)` on a float: truncation toward zero. */
  function Trunc(x: real): (n: int)
    ensures x >= 0.0 ==> n as real <= x < n as real + 1.0
    ensures x < 0.0 ==> n as real - 1.0 < x <= n as real
  {
    if x >= 0.0 then x.Floor else -((-x).Floor)
  }

  /** Python's `x % 1` on a float: the floored fractional part. */
  function FracPart(x: real): (f: real)
    ensures 0.0 <= f < 1.0
    ensures x - f == x.Floor as real
  {
    x - x.Floor as real
  }

  /** `int((t % 1) * 60)`: the whole minutes past the hour. */
  function MinuteOf(t: real): (m: int)
    ensures 0 <= m < 60
  {
    Trunc(FracPart(t) * 60.0)
  }

  /** `date.weekday()` of a proleptic Gregorian ordinal (`date.toordinal()`),
      0 = Monday ... 6 = Sunday; ordinal 1 is Monday 1 January of year 1. */
  function Weekday(ordinal: int): (w: int)
    ensures 0 <= w < 7
  {
    (ordinal + 6) % 7
  }

  /** Consecutive dates fall on consecutive weekdays, Sunday wrapping to Monday. */
  lemma WeekdayNext(ordinal: int)
    ensures Weekday(ordinal + 1) == (Weekday(ordinal) + 1) % 7
    ensures Weekday(ordinal + 7) == Weekday(ordinal)
  {
  }

  /** The instant, in seconds, of the booking's date at `start`:
      `datetime.combine(date, 00:00).replace(hour=int(start), minute=int((start % 1) * 60))`.
      `None` where Python raises: no date, or an hour outside 0..23. */
  function BookingInstant(date: Option<int>, start: real): (r: Option<int>)
    ensures r.Some? <==> date.Some? && -1.0 < start < 24.0
    ensures r.Some? ==>
      r.value == date.value * SecondsPerDay + Trunc(start) * SecondsPerHour + MinuteOf(start) * SecondsPerMinute
    ensures r.Some? && start >= 0.0 ==>
      r.value as real <= (date.value * SecondsPerDay) as real + start * 3600.0 < r.value as real + 60.0
  {
    match date
    case None => None
    case Some(d) =>
      var hour := Trunc(start);
      if 0 <= hour <= 23 then
        var r := d * SecondsPerDay + hour * SecondsPerHour + MinuteOf(start) * SecondsPerMinute;
        assert start >= 0.0 ==> start == hour as real + FracPart(start);
        Some(r)
      else None
  }

  /** A start in (-1, 0) is accepted with hour 0 and the floored minutes of
      its fraction: -0.5 lands on 00:30 and -0.25 on 00:45 of its own day. */
  lemma NegativeStartInstant(d: int)
    ensures BookingInstant(Some(d), -0.5) == Some(d * SecondsPerDay + 30 * SecondsPerMinute)
    ensures BookingInstant(Some(d), -0.25) == Some(d * SecondsPerDay + 45 * SecondsPerMinute)
  {
    assert FracPart(-0.5) == 0.5;
    assert FracPart(-0.25) == 0.75;
  }

  /** At half-hour granularity the truncation to whole minutes is exact:
      `start = k/2` lands on second `k * 1800` of its day. */
  lemma InstantOnHalfHours(d: int, k: int)
    requires 0 <= k < 48
    ensures BookingInstant(Some(d), k as real / 2.0) == Some(d * SecondsPerDay + k * 1800)
  {
    var t := k as real / 2.0;
    var h := k / 2;
    assert t == h as real + (k % 2) as real / 2.0;
    assert t.Floor == h;
    assert Trunc(t) == h;
    if k % 2 == 0 {
      assert FracPart(t) == 0.0;
      assert MinuteOf(t) == 0;
    } else {
      assert FracPart(t) == 0.5;
      assert MinuteOf(t) == 30;
    }
  }

  /** The decimal digits of `n`, most significant first, no leading zero. */
  function NatToString(n: nat): (s: string)
    ensures |s| >= 1 && (n < 10 ==> |s| == 1) && (n < 100 ==> |s| <= 2)
    ensures forall i :: 0 <= i < |s| ==> '0' <= s[i] <= '9'
  {
    if n < 10 then ["0123456789"[n]] else NatToString(n / 10) + ["0123456789"[n % 10]]
  }

  /** Python's `f'{n:02d}'`: at least two characters, zero-padded after any sign. */
  function Pad2(n: int): (s: string)
    ensures |s| >= 2
    ensures 0 <= n < 100 ==> |s| == 2
  {
    if 0 <= n < 10 then "0" + NatToString(n)
    else if n < 0 then "-" + NatToString(-n)
    else NatToString(n)
  }

  /** `_format_time`: "HH:MM" of a fractional hour. */
  function FormatTime(t: real): (s: string)
    ensures |s| >= 5 && s[|s| - 3] == ':'
  {
    Pad2(Trunc(t)) + ":" + Pad2(MinuteOf(t))
  }

  /** Reading decimal digits back, as `int(s)` does on a digit string. */
  function ParseNat(s: string): nat {
    if s == [] then 0
    else ParseNat(s[..|s| - 1]) * 10 + DigitValue(s[|s| - 1])
  }

  function DigitValue(c: char): nat {
    if '0' <= c <= '9' then (c as int - '0' as int) else 0
  }

  /** `int(s)` on an optionally signed digit string. */
  function ParseInt(s: string): int {
    if |s| > 0 && s[0] == '-' then -(ParseNat(s[1..]) as int) else ParseNat(s)
  }

  lemma {:induction false} ParseNatToString(n: nat)
    ensures ParseNat(NatToString(n)) == n
  {
    if n >= 10 {
      var s := NatToString(n);
      var prefix := NatToString(n / 10);
      assert s[..|s| - 1] == prefix;
      ParseNatToString(n / 10);
    } else {
      assert ParseNat(NatToString(n)[..0]) == 0;
    }
  }

  lemma ParsePad2(n: int)
    ensures ParseInt(Pad2(n)) == n
  {
    if 0 <= n < 10 {
      var s := Pad2(n);
      assert s == "0" + NatToString(n);
      ParseNatToString(n);
      assert s[..1] == "0";
      assert ParseNat(s[..1]) == 0;
    } else if n < 0 {
      var s := Pad2(n);
      assert s[1..] == NatToString(-n);
      ParseNatToString(-n);
    } else {
      ParseNatToString(n);
    }
  }

  /** The rendering round-trips: the text before the colon reads back as
      `int(t)` and the two digits after it as the minutes past the hour. */
  lemma FormatTimeRoundTrip(t: real)
    ensures var s := FormatTime(t);
      ParseInt(s[..|s| - 3]) == Trunc(t) && ParseInt(s[|s| - 2..]) == MinuteOf(t)
  {
    var s := FormatTime(t);
    var hh := Pad2(Trunc(t));
    var mm := Pad2(MinuteOf(t));
    assert |mm| == 2;
    assert s[..|s| - 3] == hh;
    assert s[|s| - 2..] == mm;
    ParsePad2(Trunc(t));
    ParsePad2(MinuteOf(t));
  }
}
