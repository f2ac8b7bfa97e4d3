/** The proleptic Gregorian calendar in UTC, as the timestamps of lib/quota.rs mean it. */
module Calendar {

  predicate IsLeap(y: int) {
    y % 4 == 0 && (y % 100 != 0 || y % 400 == 0)
  }

  function YearLength(y: int): int {
    if IsLeap(y) then 366 else 365
  }

  function MonthLength(y: int, m: int): int {
    if m == 2 then (if IsLeap(y) then 29 else 28)
    else if m == 4 || m == 6 || m == 9 || m == 11 then 30
    else 31
  }

  /** Leap years before year `y`, counted from year 1 (and back from it). */
  function LeapsBefore(y: int): int {
    (y - 1) / 4 - (y - 1) / 100 + (y - 1) / 400
  }

  /** Days from 1970-01-01 to the first of January of `y`; 477 leap years precede 1970. */
  function YearStart(y: int): int {
    365 * (y - 1970) + LeapsBefore(y) - 477
  }

  function MonthOffset(y: int, m: int): int
    requires m >= 1
  {
    if m == 1 then 0 else MonthOffset(y, m - 1) + MonthLength(y, m - 1)
  }

  datatype Date = Date(year: int, month: int, day: int) {
    predicate Valid() {
      1 <= month <= 12 && 1 <= day <= MonthLength(year, month)
    }

    /** Days since 1970-01-01. */
    function Number(): int
      requires month >= 1
    {
      YearStart(year) + MonthOffset(year, month) + day - 1
    }
  }

  lemma FloorSteps(y: int)
    ensures y / 4 == (y - 1) / 4 + (if y % 4 == 0 then 1 else 0)
    ensures y / 100 == (y - 1) / 100 + (if y % 100 == 0 then 1 else 0)
    ensures y / 400 == (y - 1) / 400 + (if y % 400 == 0 then 1 else 0)
  {
  }

  lemma Centuries(y: int)
    ensures y % 100 == 0 ==> y % 4 == 0
    ensures y % 400 == 0 ==> y % 100 == 0
  {
    if y % 100 == 0 {
      var c := y / 100;
      assert y == 4 * (25 * c);
    }
    if y % 400 == 0 {
      var c := y / 400;
      assert y == 100 * (4 * c);
    }
  }

  lemma YearStartNext(y: int)
    ensures YearStart(y + 1) == YearStart(y) + YearLength(y)
  {
    FloorSteps(y);
    Centuries(y);
  }

  /** How far year `y` is from the one holding day `n`. */
  function YearGap(n: int, y: int): nat {
    if n < YearStart(y) then YearStart(y) - n
    else if n >= YearStart(y + 1) then n - YearStart(y + 1) + 1
    else 0
  }

  /** The year of day `n`, looked for from `y`. */
  function YearFrom(n: int, y: int): (r: int)
    ensures YearStart(r) <= n < YearStart(r + 1)
    decreases YearGap(n, y)
  {
    YearStartNext(y - 1);
    YearStartNext(y);
    YearStartNext(y + 1);
    if n < YearStart(y) then YearFrom(n, y - 1)
    else if n >= YearStart(y + 1) then YearFrom(n, y + 1)
    else y
  }

  /** The month of day `d` of year `y`, looked for from `m`. */
  function MonthFrom(y: int, d: int, m: int): (r: int)
    requires 1 <= m <= 12 && MonthOffset(y, m) <= d < YearLength(y)
    ensures 1 <= r <= 12 && MonthOffset(y, r) <= d < MonthOffset(y, r) + MonthLength(y, r)
    decreases 12 - m
  {
    if d < MonthOffset(y, m) + MonthLength(y, m) then m
    else
      MonthOffsetEnd(y);
      MonthFrom(y, d, m + 1)
  }

  lemma MonthOffsetEnd(y: int)
    ensures MonthOffset(y, 12) + MonthLength(y, 12) == YearLength(y)
  {
    assert MonthOffset(y, 2) == 31;
    assert MonthOffset(y, 4) == MonthOffset(y, 2) + MonthLength(y, 2) + 31;
    assert MonthOffset(y, 6) == MonthOffset(y, 4) + 61;
    assert MonthOffset(y, 8) == MonthOffset(y, 6) + 61;
    assert MonthOffset(y, 10) == MonthOffset(y, 8) + 61;
    assert MonthOffset(y, 12) == MonthOffset(y, 10) + 61;
  }

  function DateOf(n: int): Date {
    var y := YearFrom(n, 1970);
    var d := n - YearStart(y);
    YearStartNext(y);
    var m := MonthFrom(y, d, 1);
    Date(y, m, d - MonthOffset(y, m) + 1)
  }

  lemma {:induction false} YearStartMonotone(x: int, y: int)
    requires x <= y
    ensures YearStart(x) <= YearStart(y)
    decreases y - x
  {
    if x < y {
      YearStartMonotone(x, y - 1);
      YearStartNext(y - 1);
    }
  }

  lemma {:induction false} MonthOffsetMonotone(y: int, a: int, b: int)
    requires 1 <= a < b
    ensures MonthOffset(y, a) + MonthLength(y, a) <= MonthOffset(y, b)
    decreases b - a
  {
    if a + 1 < b {
      MonthOffsetMonotone(y, a, b - 1);
    }
  }

  /** Every day has a valid date, whose number it is. */
  lemma DateOfNumber(n: int)
    ensures DateOf(n).Valid() && DateOf(n).Number() == n
  {
    YearStartNext(DateOf(n).year);
  }

  /** Numbers tell valid dates apart: a valid date is the date of its number. */
  lemma NumberOfDate(d: Date)
    requires d.Valid()
    ensures DateOf(d.Number()) == d
  {
    hide YearStart, MonthOffset, MonthLength, DateOf;
    var n := d.Number();
    DateInYear(d);
    DateOfNumber(n);
    var e := DateOf(n);
    DateInYear(e);
    if e.year < d.year {
      YearStartMonotone(e.year + 1, d.year);
    } else if d.year < e.year {
      YearStartMonotone(d.year + 1, e.year);
    }
    if e.month < d.month {
      MonthOffsetMonotone(d.year, e.month, d.month);
    } else if d.month < e.month {
      MonthOffsetMonotone(d.year, d.month, e.month);
    }
  }

  lemma DateInYear(d: Date)
    requires d.Valid()
    ensures YearStart(d.year) <= d.Number() < YearStart(d.year + 1)
  {
    YearStartNext(d.year);
    MonthOffsetEnd(d.year);
    MonthOffsetNat(d.year, d.month);
    if d.month < 12 {
      MonthOffsetMonotone(d.year, d.month, 12);
    }
  }

  lemma {:induction false} MonthOffsetNat(y: int, m: int)
    requires m >= 1
    ensures MonthOffset(y, m) >= 0
  {
    if m > 1 {
      MonthOffsetNat(y, m - 1);
    }
  }

  /** Monday is 0; the first of January 1970 was a Thursday. */
  function DaysFromMonday(d: Date): int
    requires d.month >= 1
  {
    (d.Number() + 3) % 7
  }

  // ---------------------------------------------------------------- times

  const DAY := 86400
  const HOUR := 3600

  datatype DateTime = DateTime(date: Date, hour: int, minute: int, second: int) {
    predicate Valid() {
      date.Valid() && 0 <= hour < 24 && 0 <= minute < 60 && 0 <= second < 60
    }

    function Timestamp(): int
      requires date.month >= 1
    {
      date.Number() * DAY + hour * HOUR + minute * 60 + second
    }
  }

  function FromTimestamp(t: int): DateTime {
    var s := t % DAY;
    DateTime(DateOf(t / DAY), s / HOUR, s % HOUR / 60, s % 60)
  }

  /** Timestamps and valid UTC times correspond one to one, also before 1970. */
  lemma TimestampRoundTrip(t: int)
    ensures FromTimestamp(t).Valid() && FromTimestamp(t).Timestamp() == t
  {
    hide DateOf, YearStart, MonthOffset, MonthLength;
    DateOfNumber(t / DAY);
    ClockDigits(t % DAY);
    assert t == t / DAY * DAY + t % DAY;
  }

  lemma ClockDigits(s: int)
    requires 0 <= s < DAY
    ensures s == s / HOUR * HOUR + s % HOUR / 60 * 60 + s % 60
    ensures 0 <= s / HOUR < 24 && 0 <= s % HOUR / 60 < 60 && 0 <= s % 60 < 60
  {
    var h, m := s / HOUR, s % HOUR;
    assert s == 60 * (60 * h) + m;
    assert m == 60 * (m / 60) + m % 60;
    assert s == 60 * (60 * h + m / 60) + m % 60;
  }

  lemma TimeRoundTrip(dt: DateTime)
    requires dt.Valid()
    ensures FromTimestamp(dt.Timestamp()) == dt
  {
    hide DateOf, YearStart, MonthOffset, MonthLength;
    NumberOfDate(dt.date);
    var t, s := dt.Timestamp(), dt.hour * HOUR + dt.minute * 60 + dt.second;
    assert t == dt.date.Number() * DAY + s && 0 <= s < DAY;
    assert t / DAY == dt.date.Number() && t % DAY == s;
    assert s / HOUR == dt.hour && s % HOUR == dt.minute * 60 + dt.second;
    assert s % HOUR / 60 == dt.minute && s % 60 == dt.second;
  }

  // ---------------------------------------------------------------- the calendar, day after day

  /** The last day of its month: thirty days has September, April, June and November. */
  predicate EndsMonth(d: Date) {
    || (d.month in {4, 6, 9, 11} && d.day == 30)
    || (d.month in {1, 3, 5, 7, 8, 10, 12} && d.day == 31)
    || (d.month == 2 && d.day == 29)
    || (d.month == 2 && d.day == 28 && !(d.year % 4 == 0 && (d.year % 100 != 0 || d.year % 400 == 0)))
  }

  function DayAfter(d: Date): Date {
    if !EndsMonth(d) then Date(d.year, d.month, d.day + 1)
    else if d.month == 12 then Date(d.year + 1, 1, 1)
    else Date(d.year, d.month + 1, 1)
  }

  /** Day zero is 1970-01-01, a Thursday. */
  lemma Epoch()
    ensures DateOf(0) == Date(1970, 1, 1) && DaysFromMonday(DateOf(0)) == 3
    ensures FromTimestamp(0) == DateTime(Date(1970, 1, 1), 0, 0, 0)
  {
    hide DateOf;
    var d := Date(1970, 1, 1);
    assert d.Number() == 0;
    NumberOfDate(d);
  }

  /** Each day is followed by the next of its month, or by the first of the next; and by the next weekday. */
  lemma NextDay(n: int)
    ensures DateOf(n + 1) == DayAfter(DateOf(n))
    ensures DaysFromMonday(DateOf(n + 1)) == (DaysFromMonday(DateOf(n)) + 1) % 7
  {
    hide DateOf;
    DateOfNumber(n);
    DateOfNumber(n + 1);
    var d := DateOf(n);
    DayAfterNumber(d);
    NumberOfDate(DayAfter(d));
  }

  lemma DayAfterNumber(d: Date)
    requires d.Valid()
    ensures DayAfter(d).Valid() && DayAfter(d).Number() == d.Number() + 1
  {
    hide YearStart;
    if EndsMonth(d) {
      if d.month == 12 {
        YearStartNext(d.year);
        MonthOffsetEnd(d.year);
      } else {
        assert MonthOffset(d.year, d.month + 1) == MonthOffset(d.year, d.month) + MonthLength(d.year, d.month);
      }
    }
  }

  /** The second after: sixty to the minute, sixty to the hour, twenty-four to the day. */
  function SecondAfter(dt: DateTime): DateTime {
    if dt.second < 59 then dt.(second := dt.second + 1)
    else if dt.minute < 59 then dt.(minute := dt.minute + 1, second := 0)
    else if dt.hour < 23 then dt.(hour := dt.hour + 1, minute := 0, second := 0)
    else DateTime(DayAfter(dt.date), 0, 0, 0)
  }

  lemma NextSecond(t: int)
    ensures FromTimestamp(t + 1) == SecondAfter(FromTimestamp(t))
  {
    hide DateOf, DayAfter, FromTimestamp;
    TimestampRoundTrip(t);
    var dt := FromTimestamp(t);
    NextTimestamp(dt);
    TimeRoundTrip(SecondAfter(dt));
  }

  lemma NextTimestamp(dt: DateTime)
    requires dt.Valid()
    ensures SecondAfter(dt).Valid() && SecondAfter(dt).Timestamp() == dt.Timestamp() + 1
  {
    DayAfterNumber(dt.date);
  }
}
