/** Start times of history entries and their normalisation to UTC: an aware
    time has its own offset subtracted, a naive one is read as local time (the
    machine's offset is a parameter), and an absent one stays absent. */
module Timestamps {
  import opened Wrappers
  import opened Calendar

  /** A wall-clock reading with Python `datetime`'s fields; the seconds of
      the day and the microsecond are kept apart, as Python does. */
  datatype DateTime = DateTime(date: Date, hour: int, minute: int, second: int, microsecond: int)
  {
    predicate Valid() {
      ValidDate(date) && 0 <= hour < 24 && 0 <= minute < 60 && 0 <= second < 60
      && 0 <= microsecond < 1000000
    }
  }

  type WallClock = t: DateTime | t.Valid()
    witness DateTime(Date(1970, 1, 1), 0, 0, 0, 0)

  /** Python's `tzinfo.utcoffset` must lie strictly within one day; the
      offset is in seconds east of UTC. */
  type UtcOffset = s: int | -86400 < s < 86400

  /** The start time a history entry may carry. */
  datatype Timestamp =
    | Aware(wallClock: WallClock, offset: UtcOffset)
    | Naive(wallClock: WallClock)
    | Absent

  function SecondOfDay(t: WallClock): (s: int)
    ensures 0 <= s < 86400
  {
    t.hour * 3600 + t.minute * 60 + t.second
  }

  /** Whole seconds since the start of day 0 of the ordinal count; the
      microsecond rides along unchanged by every shift below. */
  function Instant(t: WallClock): int {
    Ordinal(t.date) * 86400 + SecondOfDay(t)
  }

  function AtSecondOfDay(d: Date, s: int, us: int): (t: WallClock)
    requires ValidDate(d) && 0 <= s < 86400 && 0 <= us < 1000000
    ensures t.date == d && t.microsecond == us && SecondOfDay(t) == s
  {
    DateTime(d, s / 3600, s % 3600 / 60, s % 60, us)
  }

  lemma {:induction false} AtSecondOfDayOf(t: WallClock)
    ensures AtSecondOfDay(t.date, SecondOfDay(t), t.microsecond) == t
  {
  }

  /** The wall clock `delta` seconds later (Python's `datetime + timedelta`),
      carrying at most one day into the date: the instant moves by exactly
      `delta` seconds and the microsecond stays. */
  function ShiftSeconds(t: WallClock, delta: int): (r: WallClock)
    requires -86400 < delta < 86400
    ensures Instant(r) == Instant(t) + delta && r.microsecond == t.microsecond
  {
    var s := SecondOfDay(t) + delta;
    if s < 0 then AtSecondOfDay(PrevDay(t.date), s + 86400, t.microsecond)
    else if s >= 86400 then AtSecondOfDay(NextDay(t.date), s - 86400, t.microsecond)
    else AtSecondOfDay(t.date, s, t.microsecond)
  }

  /** Shifting forward and back by the same amount gives the wall clock back. */
  lemma {:induction false} ShiftRoundTrip(t: WallClock, delta: int)
    requires -86400 < delta < 86400
    ensures ShiftSeconds(ShiftSeconds(t, delta), -delta) == t
  {
    var s := SecondOfDay(t) + delta;
    var u := ShiftSeconds(t, delta);
    NextPrevInverse(t.date);
    AtSecondOfDayOf(t);
    if s < 0 {
      assert u.date == PrevDay(t.date) && SecondOfDay(u) == s + 86400;
      assert ShiftSeconds(u, -delta) == AtSecondOfDay(NextDay(u.date), SecondOfDay(t), t.microsecond);
    } else if s >= 86400 {
      assert u.date == NextDay(t.date) && SecondOfDay(u) == s - 86400;
      assert ShiftSeconds(u, -delta) == AtSecondOfDay(PrevDay(u.date), SecondOfDay(t), t.microsecond);
    } else {
      assert u.date == t.date && SecondOfDay(u) == s;
      assert ShiftSeconds(u, -delta) == AtSecondOfDay(t.date, SecondOfDay(t), t.microsecond);
    }
  }

  /** The UTC reading of a wall clock that is `offset` seconds east of UTC
      (Python's `astimezone(timezone.utc)`). */
  function ToUtc(t: WallClock, offset: UtcOffset): (r: WallClock)
    ensures Instant(r) == Instant(t) - offset && r.microsecond == t.microsecond
  {
    ShiftSeconds(t, -offset)
  }

  /** The local reading of a UTC wall clock, for a zone `offset` seconds east
      of UTC. */
  function FromUtc(t: WallClock, offset: UtcOffset): (r: WallClock)
    ensures Instant(r) == Instant(t) + offset && r.microsecond == t.microsecond
  {
    ShiftSeconds(t, offset)
  }

  /** Two wall clocks with the same instant and microsecond are the same. */
  lemma {:induction false} InstantInjective(a: WallClock, b: WallClock)
    requires Instant(a) == Instant(b) && a.microsecond == b.microsecond
    ensures a == b
  {
    var sa, sb := SecondOfDay(a), SecondOfDay(b);
    assert Ordinal(a.date) == Ordinal(b.date) && sa == sb by {
      assert (Ordinal(a.date) - Ordinal(b.date)) * 86400 == sb - sa;
    }
    OrdinalInjective(a.date, b.date);
    AtSecondOfDayOf(a);
    AtSecondOfDayOf(b);
  }

  /** The UTC reading is the one wall clock whose instant lies `offset`
      seconds before the local reading's, with the same microsecond. */
  lemma {:induction false} ToUtcUnique(t: WallClock, offset: UtcOffset, r: WallClock)
    requires Instant(r) == Instant(t) - offset && r.microsecond == t.microsecond
    ensures ToUtc(t, offset) == r
  {
    InstantInjective(ToUtc(t, offset), r);
  }

  /** The UTC wall clock of a start time; `localOffset` is the offset the
      machine's local zone has, used for a naive start time. */
  function Normalize(ts: Timestamp, localOffset: UtcOffset): (r: Option<WallClock>)
    ensures ts.Absent? <==> r.None?
    ensures ts.Aware? ==> r.Some? && Instant(r.value) == Instant(ts.wallClock) - ts.offset
    ensures ts.Naive? ==> r.Some? && Instant(r.value) == Instant(ts.wallClock) - localOffset
    ensures r.Some? ==> r.value.microsecond == ts.wallClock.microsecond
  {
    match ts
    case Aware(t, offset) => Some(ToUtc(t, offset))
    case Naive(t) => Some(ToUtc(t, localOffset))
    case Absent => None
  }

  /** A naive start time is the local wall clock of some UTC instant; it
      normalises back to that instant, whatever the local offset is. */
  lemma {:induction false} NaiveRoundTrip(utc: WallClock, localOffset: UtcOffset)
    ensures Normalize(Naive(FromUtc(utc, localOffset)), localOffset) == Some(utc)
  {
    ShiftRoundTrip(utc, localOffset);
  }

  /** An aware start time normalises to the same UTC wall clock whichever
      zone it was written in. */
  lemma {:induction false} AwareIndependentOfZone(utc: WallClock, offset: UtcOffset, localOffset: UtcOffset)
    ensures Normalize(Aware(FromUtc(utc, offset), offset), localOffset) == Some(utc)
  {
    ShiftRoundTrip(utc, offset);
  }
}
