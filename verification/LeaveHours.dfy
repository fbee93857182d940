/** Hour and day arithmetic of leave requests, in exact numbers
    (asoud_erp/services/leave_hours.py:68-137, 183-192, 239-254). */
module LeaveHours {
  import opened Basics
  import opened Rounding

  const MIN_MINUTES := 15

  datatype LeaveError = InvalidTimeRange | HourlyExceedsDay | InsufficientBalance

  datatype Result<T> = Ok(value: T) | Err(error: LeaveError)

  /* ---------- times ---------- */

  predicate Digit(c: char) {
    '0' <= c <= '9'
  }

  function DigitValue(c: char): int {
    c as int - '0' as int
  }

  /** HH:MM of a 24-hour day; like the pattern's end mark, one final newline is let through. */
  predicate IsTime(s: string) {
    && (|s| == 5 || (|s| == 6 && s[5] == '\n'))
    && Digit(s[0]) && Digit(s[1]) && s[2] == ':' && '0' <= s[3] <= '5' && Digit(s[4])
    && (s[0] == '0' || s[0] == '1' || (s[0] == '2' && s[1] <= '3'))
  }

  function ParseTime(s: string): (r: Result<int>)
    ensures r.Ok? ==> 0 <= r.value < 24 * 60
  {
    if !IsTime(s) then Err(InvalidTimeRange) else
      Ok((10 * DigitValue(s[0]) + DigitValue(s[1])) * 60 + 10 * DigitValue(s[3]) + DigitValue(s[4]))
  }

  /* ---------- durations ---------- */

  /** A company without a positive figure works eight hours a day. */
  function DailyHours(value: Option<real>): (r: real)
    ensures r > 0.0
  {
    if value.Some? && value.value > 0.0 then value.value else 8.0
  }

  function HoursFromMinutes(minutes: int): real {
    RoundHalfUp(minutes as real / 60.0, 2)
  }

  function DayEquivalent(hours: real, daily: Option<real>): real {
    RoundHalfUp(hours / DailyHours(daily), 4)
  }

  /** The amount posted, negative. */
  function LedgerLeaves(hours: real, daily: Option<real>): real {
    -RoundHalfUp(hours / DailyHours(daily), 6)
  }

  datatype Duration = Duration(hours: real, dayEquivalent: real)

  function HourlyDuration(start: string, end: string, daily: Option<real>, otherMinutes: int): Result<Duration> {
    var s, e := ParseTime(start), ParseTime(end);
    if s.Err? || e.Err? || e.value <= s.value || e.value - s.value < MIN_MINUTES then Err(InvalidTimeRange)
    else
      var minutes, limit := e.value - s.value, DailyHours(daily) * 60.0;
      if minutes as real > limit || (minutes + if otherMinutes > 0 then otherMinutes else 0) as real > limit
      then Err(HourlyExceedsDay)
      else
        var hours := HoursFromMinutes(minutes);
        Ok(Duration(hours, DayEquivalent(hours, daily)))
  }

  /* ---------- checks ---------- */

  function Remaining(native: real, hourlyTaken: real): real {
    RoundHalfUp(native - hourlyTaken, 3)
  }

  predicate ExceedsRemaining(dayEquivalent: real, remaining: real, unlimited: bool) {
    !unlimited && dayEquivalent > remaining
  }

  predicate OverlayInsufficient(consumption: real, hourlyTaken: real, days: real) {
    RoundHalfUp(consumption - hourlyTaken, 3) < RoundHalfUp(days, 3)
  }

  /** A request is for at least fifteen minutes of one day and, together with other leaves of that day, no
      longer than the working day; the errors come in this order. */
  lemma DurationExactly(start: string, end: string, daily: Option<real>, otherMinutes: int)
    ensures var r := HourlyDuration(start, end, daily, otherMinutes);
      if ParseTime(start).Err? || ParseTime(end).Err? || ParseTime(end).value < ParseTime(start).value + 15
      then r == Err(InvalidTimeRange)
      else
        var minutes := ParseTime(end).value - ParseTime(start).value;
        var day := if daily.Some? && daily.value > 0.0 then daily.value * 60.0 else 480.0;
        if minutes as real > day || (minutes + otherMinutes) as real > day then r == Err(HourlyExceedsDay)
        else r.Ok? && r.value.hours == HoursFromMinutes(minutes)
             && r.value.dayEquivalent == RoundHalfUp(r.value.hours / (day / 60.0), 4)
  {
  }

  /* ---------- rounding errors ---------- */

  lemma Powers()
    ensures PowerOfTen(2) == 100.0 && PowerOfTen(3) == 1000.0 && PowerOfTen(4) == 10000.0 && PowerOfTen(6) == 1000000.0
  {
    assert PowerOfTen(1) == 10.0;
    assert PowerOfTen(2) == 100.0;
    assert PowerOfTen(3) == 1000.0;
    assert PowerOfTen(4) == 10000.0;
    assert PowerOfTen(5) == 100000.0;
  }

  /** Rounding as an integer count of the last decimal. */
  lemma Counts(x: real)
    ensures RoundHalfUp(x, 2) == RoundAt(x, 100.0) && RoundHalfUp(x, 3) == RoundAt(x, 1000.0)
    ensures RoundHalfUp(x, 4) == RoundAt(x, 10000.0) && RoundHalfUp(x, 6) == RoundAt(x, 1000000.0)
  {
    Powers();
  }

  lemma RoundedTo2(x: real)
    ensures x - 0.005 <= RoundHalfUp(x, 2) <= x + 0.005
  {
    Counts(x);
  }

  lemma RoundedTo3(x: real)
    ensures x - 0.0005 <= RoundHalfUp(x, 3) <= x + 0.0005
  {
    Counts(x);
  }

  lemma RoundedTo4(x: real)
    ensures x - 0.00005 <= RoundHalfUp(x, 4) <= x + 0.00005
    ensures x >= 0.0 ==> x - 0.00005 < RoundHalfUp(x, 4)
  {
    Counts(x);
  }

  lemma RoundedTo6(x: real)
    ensures x - 0.0000005 <= RoundHalfUp(x, 6) <= x + 0.0000005
  {
    Counts(x);
  }

  predicate Whole(x: real) {
    x == x.Floor as real
  }

  lemma WholeIsNearest(x: real)
    requires Whole(x)
    ensures Nearest(x) as real == x
  {
    NearestOfInt(x.Floor);
  }

  lemma NearestOfInt(n: int)
    ensures Nearest(n as real) == n
  {
  }

  function Millionths(n: int): real {
    n as real / 1000000.0
  }

  /** A whole number of millionths is its own rounding. */
  lemma MillionthsAreExact(n: int)
    ensures RoundHalfUp(Millionths(n), 6) == Millionths(n)
  {
    Counts(Millionths(n));
    assert Millionths(n) * 1000000.0 == n as real;
    NearestOfInt(n);
  }

  lemma ThousandthsAreExact(x: real)
    requires Whole(x * 1000.0)
    ensures RoundHalfUp(x, 3) == x
  {
    Counts(x);
    WholeIsNearest(x * 1000.0);
  }

  /** Rounding to hundredths adds at most one three-hundredth, so in a leave of at least fifteen
      minutes at most one part in eighty. */
  lemma HoursNear(minutes: int)
    requires minutes >= MIN_MINUTES
    ensures 0.0 <= HoursFromMinutes(minutes) <= 1.0125 * (minutes as real / 60.0)
  {
    Counts(minutes as real / 60.0);
    ThirdsNear(minutes, Nearest(minutes as real / 60.0 * 100.0));
  }

  lemma ThirdsNear(minutes: int, n: int)
    requires minutes >= MIN_MINUTES
             && minutes as real / 60.0 * 100.0 - 0.5 <= n as real <= minutes as real / 60.0 * 100.0 + 0.5
    ensures 0.0 <= n as real / 100.0 <= 1.0125 * (minutes as real / 60.0)
  {
    assert (5 * minutes) as real - 1.5 <= (3 * n) as real <= (5 * minutes) as real + 1.5;
    assert 3 * n <= 5 * minutes + 1;
    assert minutes == 15 ==> n <= 25;
  }

  /** The stored hours are the true hours exactly for whole multiples of three minutes, and so for
      every quarter of an hour. */
  lemma ExactHours(minutes: int)
    ensures HoursFromMinutes(minutes) == minutes as real / 60.0 <==> minutes % 3 == 0
    ensures minutes % 15 == 0 ==> HoursFromMinutes(minutes) == minutes as real / 60.0
  {
    Powers();
    var hundredths := minutes as real / 60.0 * 100.0;
    if minutes % 3 == 0 {
      var n := minutes / 3 * 5;
      assert hundredths == n as real;
      assert Nearest(n as real) == n;
    }
    if minutes % 15 == 0 {
      assert minutes == 3 * (5 * (minutes / 15));
    }
  }
}
