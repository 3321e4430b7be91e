/**
 The proleptic Gregorian calendar behind time.Time. An instant is a number of nanoseconds
 since 0001-01-01 00:00:00 UTC, which is Go's zero time.
 */
module Calendar {
  const NANOS_PER_SECOND: int := 1_000_000_000
  const SECONDS_PER_DAY: int := 86_400

  datatype Date = Date(year: int, month: int, day: int)
  datatype Clock = Clock(hour: int, minute: int, second: int, nanos: int)

  predicate IsLeap(year: int) {
    year % 4 == 0 && (year % 100 != 0 || year % 400 == 0)
  }

  /** Days from 0001-01-01 to the first of January. */
  function DaysBeforeYear(year: int): int {
    var p := year - 1;
    365 * p + p / 4 - p / 100 + p / 400
  }

  /** Days from the first of January to the first of the month, in 1..13. */
  function DaysBeforeMonth(month: int, leap: bool): int
    requires 1 <= month <= 13
  {
    var common := [0, 31, 59, 90, 120, 151, 181, 212, 243, 273, 304, 334, 365][month - 1];
    if leap && month > 2 then common + 1 else common
  }

  function DaysIn(month: int, leap: bool): int
    requires 1 <= month <= 12
  {
    DaysBeforeMonth(month + 1, leap) - DaysBeforeMonth(month, leap)
  }

  predicate IsDate(d: Date) {
    1 <= d.month <= 12 && 1 <= d.day <= DaysIn(d.month, IsLeap(d.year))
  }

  predicate IsClock(c: Clock) {
    0 <= c.hour < 24 && 0 <= c.minute < 60 && 0 <= c.second < 60 && 0 <= c.nanos < NANOS_PER_SECOND
  }

  function DayNumber(d: Date): int
    requires 1 <= d.month <= 12
  {
    DaysBeforeYear(d.year) + DaysBeforeMonth(d.month, IsLeap(d.year)) + d.day - 1
  }

  function Cap(n: int): int {
    if n > 3 then 3 else n
  }

  /** The year a day falls in, and its offset in that year. */
  function YearAndDay(days: int): (int, int) {
    var r400 := days % 146_097;
    var n100 := Cap(r400 / 36_524);
    var r100 := r400 - 36_524 * n100;
    var r4 := r100 % 1_461;
    var n1 := Cap(r4 / 365);
    (400 * (days / 146_097) + 100 * n100 + 4 * (r100 / 1_461) + n1 + 1, r4 - 365 * n1)
  }

  /** The month of a day of the year. */
  function MonthOf(yday: int, leap: bool): (m: int)
    requires 0 <= yday < (if leap then 366 else 365)
    ensures 1 <= m <= 12 && DaysBeforeMonth(m, leap) <= yday < DaysBeforeMonth(m + 1, leap)
  {
    if yday < DaysBeforeMonth(2, leap) then 1
    else if yday < DaysBeforeMonth(3, leap) then 2
    else if yday < DaysBeforeMonth(4, leap) then 3
    else if yday < DaysBeforeMonth(5, leap) then 4
    else if yday < DaysBeforeMonth(6, leap) then 5
    else if yday < DaysBeforeMonth(7, leap) then 6
    else if yday < DaysBeforeMonth(8, leap) then 7
    else if yday < DaysBeforeMonth(9, leap) then 8
    else if yday < DaysBeforeMonth(10, leap) then 9
    else if yday < DaysBeforeMonth(11, leap) then 10
    else if yday < DaysBeforeMonth(12, leap) then 11
    else 12
  }

  lemma By4(p: int, q: int, r: int)
    requires p == 4 * q + r && 0 <= r < 4
    ensures p / 4 == q && p % 4 == r
  {
  }

  lemma By100(p: int, q: int, r: int)
    requires p == 100 * q + r && 0 <= r < 100
    ensures p / 100 == q && p % 100 == r
  {
  }

  lemma By400(p: int, q: int, r: int)
    requires p == 400 * q + r && 0 <= r < 400
    ensures p / 400 == q && p % 400 == r
  {
  }

  /** A year written in its cycles counts its days cycle by cycle. */
  lemma DaysOfCycles(a: int, b: int, c: int, e: int)
    requires 0 <= b <= 3 && 0 <= c <= 24 && 0 <= e <= 3
    ensures DaysBeforeYear(400 * a + 100 * b + 4 * c + e + 1) == 146_097 * a + 36_524 * b + 1_461 * c + 365 * e
  {
    var p := 400 * a + 100 * b + 4 * c + e;
    By4(p, 100 * a + 25 * b + c, e);
    By100(p, 4 * a + b, 4 * c + e);
    By400(p, a, 100 * b + 4 * c + e);
  }

  /** The leap year of a cycle is its fourth, but for the last of a century that ends no cycle. */
  lemma LeapOfCycles(a: int, b: int, c: int, e: int)
    requires 0 <= b <= 3 && 0 <= c <= 24 && 0 <= e <= 3
    ensures IsLeap(400 * a + 100 * b + 4 * c + e + 1) <==> e == 3 && (c != 24 || b == 3)
  {
    var year := 400 * a + 100 * b + 4 * c + e + 1;
    if e < 3 {
      By4(year, 100 * a + 25 * b + c, e + 1);
    } else {
      By4(year, 100 * a + 25 * b + c + 1, 0);
      if c < 24 {
        By100(year, 4 * a + b, 4 * c + 4);
      } else {
        By100(year, 4 * a + b + 1, 0);
        if b < 3 { By400(year, a, 100 * b + 100); } else { By400(year, a + 1, 0); }
      }
    }
  }

  lemma YearAndDayCorrect(days: int)
    ensures var (year, yday) := YearAndDay(days);
      && DaysBeforeYear(year) + yday == days
      && 0 <= yday < (if IsLeap(year) then 366 else 365)
  {
    var a, r400 := days / 146_097, days % 146_097;
    var b := Cap(r400 / 36_524);
    var r100 := r400 - 36_524 * b;
    var c, r4 := r100 / 1_461, r100 % 1_461;
    var e := Cap(r4 / 365);
    assert 0 <= r100 && (b < 3 ==> r100 < 36_524) && r100 <= 36_524;
    DaysOfCycles(a, b, c, e);
    LeapOfCycles(a, b, c, e);
  }

  function DateOf(days: int): Date {
    YearAndDayCorrect(days);
    var (year, yday) := YearAndDay(days);
    var month := MonthOf(yday, IsLeap(year));
    Date(year, month, yday - DaysBeforeMonth(month, IsLeap(year)) + 1)
  }

  /** Every day has a date of the calendar, and the date gives the day back. */
  lemma DateRoundTrip(days: int)
    ensures IsDate(DateOf(days)) && DayNumber(DateOf(days)) == days
  {
    YearAndDayCorrect(days);
  }

  function DayOf(t: int): int {
    t / (SECONDS_PER_DAY * NANOS_PER_SECOND)
  }

  function ClockOf(t: int): Clock {
    var nanos := t % (SECONDS_PER_DAY * NANOS_PER_SECOND);
    var seconds := nanos / NANOS_PER_SECOND;
    Clock(seconds / 3600, seconds % 3600 / 60, seconds % 60, nanos % NANOS_PER_SECOND)
  }

  function Instant(d: Date, c: Clock): int
    requires 1 <= d.month <= 12
  {
    (DayNumber(d) * SECONDS_PER_DAY + c.hour * 3600 + c.minute * 60 + c.second) * NANOS_PER_SECOND + c.nanos
  }

  /** The clock of an instant is valid, and holds the nanoseconds since midnight. */
  lemma ClockRoundTrip(t: int)
    ensures var c := ClockOf(t);
      && IsClock(c)
      && (c.hour * 3600 + c.minute * 60 + c.second) * NANOS_PER_SECOND + c.nanos
         == t % (SECONDS_PER_DAY * NANOS_PER_SECOND)
  {
    var c := ClockOf(t);
    var seconds := t % (SECONDS_PER_DAY * NANOS_PER_SECOND) / NANOS_PER_SECOND;
    assert 0 <= seconds < SECONDS_PER_DAY;
    assert c.hour * 3600 + c.minute * 60 + c.second == seconds;
  }

  lemma DaysAndRest(t: int)
    ensures DayOf(t) * (SECONDS_PER_DAY * NANOS_PER_SECOND) + t % (SECONDS_PER_DAY * NANOS_PER_SECOND) == t
  {
  }

  lemma InstantIsSum(d: Date, c: Clock)
    requires 1 <= d.month <= 12
    ensures Instant(d, c) == DayNumber(d) * (SECONDS_PER_DAY * NANOS_PER_SECOND)
                             + ((c.hour * 3600 + c.minute * 60 + c.second) * NANOS_PER_SECOND + c.nanos)
  {
  }

  /** Splitting an instant into date and clock loses nothing. */
  lemma InstantRoundTrip(t: int)
    ensures IsDate(DateOf(DayOf(t))) && IsClock(ClockOf(t))
    ensures Instant(DateOf(DayOf(t)), ClockOf(t)) == t
  {
    DateRoundTrip(DayOf(t));
    ClockRoundTrip(t);
    DaysAndRest(t);
    InstantIsSum(DateOf(DayOf(t)), ClockOf(t));
  }
}
