/** Quota windows of lib/quota.rs: flooring an instant to its UTC hour, day, Monday week or month. */
module Quota {
  import opened Calendar

  datatype Window = Hour | Day | Week | Month

  function StartOfDay(dt: DateTime): DateTime {
    dt.(hour := 0, minute := 0, second := 0)
  }

  function WindowStart(now: int, window: Window): int {
    var dt := FromTimestamp(now);
    DateTimeValid(now);
    match window
    case Hour => StartOfDay(dt).Timestamp() + dt.hour * HOUR
    case Day => StartOfDay(dt).Timestamp()
    case Week =>
      var monday := dt.Timestamp() - DaysFromMonday(dt.date) * DAY;
      DateTimeValid(monday);
      StartOfDay(FromTimestamp(monday)).Timestamp()
    case Month => StartOfDay(dt.(date := dt.date.(day := 1))).Timestamp()
  }

  lemma DateTimeValid(t: int)
    ensures FromTimestamp(t).Valid() && FromTimestamp(t).Timestamp() == t
  {
    TimestampRoundTrip(t);
  }

  /** How long the window that starts at `start` lasts. */
  function Length(start: int, window: Window): int {
    match window
    case Hour => HOUR
    case Day => DAY
    case Week => 7 * DAY
    case Month =>
      var d := DateOf(start / DAY);
      MonthLength(d.year, d.month) * DAY
  }

  function WindowEnd(now: int, window: Window): int {
    WindowStart(now, window) + Length(WindowStart(now, window), window)
  }

  /** Two instants in the same hour, day, Monday week or month of the calendar. */
  predicate SamePeriod(s: int, t: int, window: Window) {
    var x, y := FromTimestamp(s), FromTimestamp(t);
    match window
    case Hour => x.date == y.date && x.hour == y.hour
    case Day => x.date == y.date
    case Week => (s / DAY + 3) / 7 == (t / DAY + 3) / 7
    case Month => x.date.year == y.date.year && x.date.month == y.date.month
  }

  // ---------------------------------------------------------------- what the flooring computes

  lemma DayOf(t: int)
    ensures FromTimestamp(t).date == DateOf(t / DAY) && FromTimestamp(t).hour == t % DAY / HOUR
    ensures StartOfDay(FromTimestamp(t)).Timestamp() == t / DAY * DAY
  {
    hide DateOf;
    DateOfNumber(t / DAY);
  }

  lemma WindowFloors(t: int)
    ensures WindowStart(t, Hour) == t / HOUR * HOUR
    ensures WindowStart(t, Day) == t / DAY * DAY
    ensures WindowStart(t, Week) == (t / DAY - (t / DAY + 3) % 7) * DAY
    ensures WindowStart(t, Month) == (t / DAY - DateOf(t / DAY).day + 1) * DAY
  {
    hide DateOf, FromTimestamp, MonthLength;
    DateTimeValid(t);
    DateOfNumber(t / DAY);
    DayOf(t);
    HoursInDay(t);
    var k := (t / DAY + 3) % 7;
    DateTimeValid(t - k * DAY);
    DayOf(t - k * DAY);
    assert (t - k * DAY) / DAY == t / DAY - k;
  }

  /**
   * A window starts on the hour, at midnight, at the last midnight of a Monday, or at midnight of the first
   * of the month.
   */
  lemma WindowStartsAt(t: int, window: Window)
    ensures var x, y, s := FromTimestamp(WindowStart(t, window)), FromTimestamp(t), WindowStart(t, window);
            match window
            case Hour => x == DateTime(y.date, y.hour, 0, 0)
            case Day => x == DateTime(y.date, 0, 0, 0)
            case Week => x == DateTime(x.date, 0, 0, 0) && DaysFromMonday(x.date) == 0 && s <= t < s + 604800
            case Month => x == DateTime(Date(y.date.year, y.date.month, 1), 0, 0, 0)
  {
    hide DateOf, FromTimestamp, MonthLength, MonthOffset, YearStart;
    DateTimeValid(t);
    var y := FromTimestamp(t);
    match window
    case Hour =>
      TimeRoundTrip(y.(minute := 0, second := 0));
    case Day =>
      TimeRoundTrip(StartOfDay(y));
    case Week =>
      MondayStart(t);
    case Month =>
      TimeRoundTrip(StartOfDay(y.(date := y.date.(day := 1))));
  }

  lemma MondayStart(t: int)
    ensures var x, s := FromTimestamp(WindowStart(t, Week)), WindowStart(t, Week);
            x == StartOfDay(x) && DaysFromMonday(x.date) == 0 && s <= t < s + 604800
  {
    hide DateOf, FromTimestamp, MonthLength, MonthOffset, YearStart;
    WindowFloors(t);
    DateTimeValid(t);
    DayOf(t);
    DateOfNumber(t / DAY);
    var k := (t / DAY + 3) % 7;
    DateTimeValid(t - k * DAY);
    var m := FromTimestamp(t - k * DAY);
    DayOf(t - k * DAY);
    DateOfNumber(t / DAY - k);
    TimeRoundTrip(StartOfDay(m));
  }

  lemma HoursInDay(t: int)
    ensures t / DAY * DAY + t % DAY / HOUR * HOUR == t / HOUR * HOUR
  {
    var d, s := t / DAY, t % DAY;
    var h, m := s / HOUR, s % HOUR;
    assert t == HOUR * (24 * d + h) + m;
    assert t / HOUR == 24 * d + h;
  }

  /** The month holding day `n`: its days share year and month and count from its first. */
  lemma MonthOfDay(n: int, x: int)
    requires var first := n - DateOf(n).day + 1;
             first <= x < first + MonthLength(DateOf(n).year, DateOf(n).month)
    ensures DateOf(x) == DateOf(n).(day := x - (n - DateOf(n).day))
  {
    hide DateOf, YearStart, MonthOffset, MonthLength;
    DateOfNumber(n);
    var d := DateOf(n).(day := x - (n - DateOf(n).day));
    NumberOfDate(d);
  }

  /** A window contains its instant, and every instant in it has the same start. */
  lemma WindowContains(t: int, window: Window)
    ensures WindowStart(t, window) <= t < WindowEnd(t, window)
  {
    hide DateOf, WindowStart, MonthLength;
    WindowFloors(t);
    if window.Month? {
      var n := t / DAY;
      DateOfNumber(n);
      var first := n - DateOf(n).day + 1;
      assert WindowStart(t, Month) == first * DAY && first * DAY / DAY == first;
      MonthOfDay(n, first);
      var len := MonthLength(DateOf(n).year, DateOf(n).month);
      assert n < first + len;
    }
  }

  lemma WindowStartInside(t: int, x: int, window: Window)
    requires WindowStart(t, window) <= x < WindowEnd(t, window)
    ensures WindowStart(x, window) == WindowStart(t, window)
  {
    hide DateOf, WindowStart, MonthLength;
    WindowFloors(t);
    WindowFloors(x);
    match window
    case Hour =>
      HourInside(t, x);
    case Day =>
      DayInside(t / DAY, 1, x);
    case Week =>
      WeekInside(t / DAY, x);
    case Month =>
      var n := t / DAY;
      DateOfNumber(n);
      var first := n - DateOf(n).day + 1;
      DayFloor(first);
      MonthOfDay(n, first);
      MonthInside(n, x);
  }

  lemma DayFloor(n: int)
    ensures n * DAY / DAY == n
  {
  }

  lemma HourInside(t: int, x: int)
    requires t / HOUR * HOUR <= x < t / HOUR * HOUR + HOUR
    ensures x / HOUR == t / HOUR
  {
  }

  lemma DayInside(n: int, len: int, x: int)
    requires n * DAY <= x < n * DAY + len * DAY
    ensures n <= x / DAY < n + len
  {
  }

  lemma WeekInside(n: int, x: int)
    requires var w := n - (n + 3) % 7; w * DAY <= x < w * DAY + 7 * DAY
    ensures x / DAY - (x / DAY + 3) % 7 == n - (n + 3) % 7
  {
    var w := n - (n + 3) % 7;
    DayInside(w, 7, x);
    SameWeek(n, w, x / DAY);
  }

  lemma SameWeek(n: int, w: int, d: int)
    requires w == n - (n + 3) % 7 && w <= d < w + 7
    ensures d - (d + 3) % 7 == w
  {
    var k := (n + 3) / 7;
    assert w + 3 == 7 * k;
    assert (d + 3) / 7 == k;
  }

  lemma WeekNumber(m: int, n: int)
    ensures m - (m + 3) % 7 == n - (n + 3) % 7 <==> (m + 3) / 7 == (n + 3) / 7
  {
    assert m + 3 == 7 * ((m + 3) / 7) + (m + 3) % 7;
    assert n + 3 == 7 * ((n + 3) / 7) + (n + 3) % 7;
  }

  lemma HourNumber(s: int, t: int)
    ensures s / HOUR == t / HOUR <==> s / DAY == t / DAY && s % DAY / HOUR == t % DAY / HOUR
  {
    var h, k := s % DAY / HOUR, t % DAY / HOUR;
    assert s / HOUR == 24 * (s / DAY) + h by {
      HoursInDay(s);
    }
    assert t / HOUR == 24 * (t / DAY) + k by {
      HoursInDay(t);
    }
    assert 0 <= h < 24 && 0 <= k < 24;
  }

  lemma MonthInside(n: int, x: int)
    requires var first := n - DateOf(n).day + 1;
             first * DAY <= x < first * DAY + MonthLength(DateOf(n).year, DateOf(n).month) * DAY
    ensures x / DAY - DateOf(x / DAY).day + 1 == n - DateOf(n).day + 1
  {
    hide DateOf, MonthLength;
    DayInside(n - DateOf(n).day + 1, MonthLength(DateOf(n).year, DateOf(n).month), x);
    MonthOfDay(n, x / DAY);
  }

  // ---------------------------------------------------------------- windows partition time

  /**
   * Windows tile the whole time line: flooring is idempotent and monotone, every window is followed
   * by the one that starts where it ends, and two instants share a window start exactly when each
   * lies in the other's window.
   */
  lemma WindowsPartition(s: int, t: int, window: Window)
    ensures WindowStart(WindowStart(t, window), window) == WindowStart(t, window)
    ensures WindowStart(WindowEnd(t, window), window) == WindowEnd(t, window)
    ensures s <= t ==> WindowStart(s, window) <= WindowStart(t, window)
    ensures WindowStart(s, window) == WindowStart(t, window) <==> WindowStart(t, window) <= s < WindowEnd(t, window)
  {
    hide WindowStart, Length;
    WindowContains(s, window);
    WindowContains(t, window);
    WindowStartInside(t, WindowStart(t, window), window);
    if WindowStart(t, window) <= s < WindowEnd(t, window) {
      WindowStartInside(t, s, window);
    }
    var end := WindowEnd(t, window);
    WindowContains(end, window);
    NextStartsLater(t, end, window);
    if s <= t && WindowStart(t, window) < WindowStart(s, window) {
      WindowStartInside(t, WindowStart(s, window), window);
      WindowStartInside(s, WindowStart(s, window), window);
    }
  }

  lemma NextStartsLater(t: int, x: int, window: Window)
    requires WindowEnd(t, window) <= x
    ensures WindowEnd(t, window) <= WindowStart(x, window)
  {
    hide WindowStart, Length;
    WindowContains(t, window);
    WindowContains(x, window);
    if WindowStart(x, window) < WindowEnd(t, window) {
      var y := WindowEnd(t, window) - 1;
      WindowStartInside(t, y, window);
      WindowStartInside(x, y, window);
    }
  }

  /** Instants share a window exactly when the calendar puts them in the same period. */
  lemma WindowIsPeriod(s: int, t: int, window: Window)
    ensures WindowStart(s, window) == WindowStart(t, window) <==> SamePeriod(s, t, window)
  {
    hide DateOf, WindowStart, MonthLength, FromTimestamp;
    WindowFloors(s);
    WindowFloors(t);
    DayOf(s);
    DayOf(t);
    DateOfNumber(s / DAY);
    DateOfNumber(t / DAY);
    match window
    case Hour =>
      HourNumber(s, t);
      DateNumber(s / DAY, t / DAY);
    case Day =>
      DateNumber(s / DAY, t / DAY);
    case Week =>
      WeekNumber(s / DAY, t / DAY);
    case Month =>
      MonthIsPeriod(s / DAY, t / DAY);
  }

  lemma DateNumber(m: int, n: int)
    ensures m == n <==> DateOf(m) == DateOf(n)
  {
    hide DateOf;
    DateOfNumber(m);
    DateOfNumber(n);
  }

  lemma MonthIsPeriod(m: int, n: int)
    ensures m - DateOf(m).day == n - DateOf(n).day
            <==> DateOf(m).year == DateOf(n).year && DateOf(m).month == DateOf(n).month
  {
    hide DateOf, MonthLength, YearStart, MonthOffset;
    DateOfNumber(m);
    DateOfNumber(n);
    if m - DateOf(m).day == n - DateOf(n).day {
      var first := n - DateOf(n).day + 1;
      MonthOfDay(n, first);
      MonthOfDay(m, first);
    }
  }

  /** Hours nest in days, and days in weeks and in months. */
  lemma WindowsNest(s: int, t: int)
    ensures SamePeriod(s, t, Hour) ==> SamePeriod(s, t, Day)
    ensures SamePeriod(s, t, Day) ==> SamePeriod(s, t, Week) && SamePeriod(s, t, Month)
  {
    hide DateOf;
    DayOf(s);
    DayOf(t);
    DateOfNumber(s / DAY);
    DateOfNumber(t / DAY);
  }

  /** The shortest a window of each kind gets. */
  function MinLength(window: Window): int {
    match window
    case Hour => HOUR
    case Day => DAY
    case Week => 7 * DAY
    case Month => 28 * DAY
  }

  /** An interval no longer than the shortest window meets at most two windows. */
  lemma TwoWindows(t: int, x: int, window: Window)
    requires t <= x < t + MinLength(window)
    ensures WindowStart(x, window) == WindowStart(t, window) || WindowStart(x, window) == WindowEnd(t, window)
  {
    hide WindowStart, DateOf;
    WindowContains(t, window);
    if x < WindowEnd(t, window) {
      WindowStartInside(t, x, window);
    } else {
      var end := WindowEnd(t, window);
      WindowsPartition(t, t, window);
      assert Length(end, window) >= MinLength(window);
      WindowStartInside(end, x, window);
    }
  }
}
