/** Solar Hijri dates (asoud_erp/services/jalali.py). The Jalali year is the one the code
    defines, with eight leap years in every 33. */
module Jalali {
  import opened Basics
  import opened Gregorian

  datatype JalaliDate = JalaliDate(year: int, month: int, day: int)

  /* ---------- the calendar ---------- */

  /** Position of a year in its 33-year cycle. */
  function Phase(y: int): int { (y + 1595) % 33 }

  predicate LeapYear(y: int) { Phase(y) % 4 == 0 && Phase(y) != 32 }

  function JalaliYearLength(y: int): int { if LeapYear(y) then 366 else 365 }

  function JalaliMonthLength(y: int, m: int): int {
    if m <= 6 then 31 else if m <= 11 || LeapYear(y) then 30 else 29
  }

  predicate ValidJalali(d: JalaliDate) {
    1 <= d.month <= 12 && 1 <= d.day <= JalaliMonthLength(d.year, d.month)
  }

  /** What the conversion accepts: it allows day 30 of month 12 in every year. */
  predicate Accepted(d: JalaliDate) {
    1 <= d.month <= 12 && 1 <= d.day <= (if d.month <= 6 then 31 else 30)
  }

  function EarlierJalali(a: JalaliDate, b: JalaliDate): bool {
    a.year < b.year || (a.year == b.year && (a.month < b.month || (a.month == b.month && a.day < b.day)))
  }

  /** Days from Nowruz of year -1595 to Nowruz of year `cycleYear - 1595`, year by year. */
  function DaysOfYears(cycleYear: nat): nat {
    if cycleYear == 0 then 0 else DaysOfYears(cycleYear - 1) + JalaliYearLength(cycleYear - 1 - 1595)
  }

  /** The day count of the code, before its sums over months and days. */
  function YearDays(y: int): int {
    var jy := y + 1595;
    365 * jy + (jy / 33) * 8 + (jy % 33 + 3) / 4
  }

  function MonthDays(m: int): int {
    if m < 7 then (m - 1) * 31 else (m - 7) * 30 + 186
  }

  /** The ordinal (of Gregorian's numbering) that belongs to a Jalali date. */
  function JalaliOrdinal(d: JalaliDate): int {
    YearDays(d.year) + MonthDays(d.month) + d.day - 355668 - 365
  }

  function Nowruz(y: int): int { JalaliOrdinal(JalaliDate(y, 1, 1)) }

  /** The anchor of the day count: 1 Farvardin 1405 is 21 March 2026. */
  lemma NowruzOf1405()
    ensures Nowruz(1405) == Ordinal(Date(2026, 3, 21))
  {
    MonthTable(2026);
  }

  lemma YearDaysStep(y: int)
    ensures YearDays(y + 1) == YearDays(y) + JalaliYearLength(y)
  {
    var jy := y + 1595;
    if jy % 33 == 32 {
      assert (jy + 1) / 33 == jy / 33 + 1 && (jy + 1) % 33 == 0;
    } else {
      assert (jy + 1) / 33 == jy / 33 && (jy + 1) % 33 == jy % 33 + 1;
    }
  }

  /** The closed form with its 33-year cycles counts the days of the years one by one. */
  lemma {:induction false} ClosedFormCountsYears(cycleYear: nat)
    ensures YearDays(cycleYear - 1595) == DaysOfYears(cycleYear)
  {
    if cycleYear > 0 {
      ClosedFormCountsYears(cycleYear - 1);
      YearDaysStep(cycleYear - 1 - 1595);
    }
  }

  lemma {:induction false} NowruzGrows(y: int, z: int)
    requires y < z
    ensures Nowruz(y) + JalaliYearLength(y) <= Nowruz(z)
    decreases z - y
  {
    YearDaysStep(z - 1);
    if y < z - 1 {
      NowruzGrows(y, z - 1);
    }
  }

  lemma OrdinalInJalaliYear(d: JalaliDate)
    requires ValidJalali(d)
    ensures Nowruz(d.year) <= JalaliOrdinal(d) < Nowruz(d.year) + JalaliYearLength(d.year)
  {
  }

  /** Ordinals order Jalali dates. */
  lemma JalaliOrdinalOrders(a: JalaliDate, b: JalaliDate)
    requires ValidJalali(a) && ValidJalali(b)
    ensures EarlierJalali(a, b) <==> JalaliOrdinal(a) < JalaliOrdinal(b)
    ensures a == b <==> JalaliOrdinal(a) == JalaliOrdinal(b)
  {
    OrdinalInJalaliYear(a);
    OrdinalInJalaliYear(b);
    if a.year < b.year {
      NowruzGrows(a.year, b.year);
    } else if b.year < a.year {
      NowruzGrows(b.year, a.year);
    }
  }

  /* ---------- Jalali to Gregorian ---------- */

  /** What converting a Jalali date gives: an error for a day the code refuses and for a result
      outside Python's dates, otherwise the Gregorian date with the same ordinal. */
  ghost predicate Converts(d: JalaliDate, r: Option<Date>) {
    match r
    case None => !Accepted(d) || !(1 <= JalaliOrdinal(d) <= 3652059)
    case Some(g) => Accepted(d) && Valid(g) && InRange(g) && Ordinal(g) == JalaliOrdinal(d)
  }

  method JalaliToGregorian(year: int, month: int, day: int) returns (r: Option<Date>)
    ensures Converts(JalaliDate(year, month, day), r)
  {
    var jy := year + 1595;
    if !(1 <= month <= 12) {
      return None;
    }
    var monthDays := if month <= 6 then 31 else 30;
    if !(1 <= day <= monthDays) {
      return None;
    }
    var days := -355668 + 365 * jy + (jy / 33) * 8 + (jy % 33 + 3) / 4 + day;
    days := days + (if month < 7 then (month - 1) * 31 else (month - 7) * 30 + 186);
    assert days == JalaliOrdinal(JalaliDate(year, month, day)) + 365;
    var gy, yearDay := SplitYear(days);
    var gm, gd := SplitMonth(gy, yearDay);
    RangeOfOrdinals(Date(gy, gm, gd));
    if !(1 <= gy <= 9999) {
      return None;
    }
    return Some(Date(gy, gm, gd));
  }

  /** Days from 1 January of year 0 to 1 January of year y. */
  function DaysSinceYearZero(y: int): int { DaysBeforeYear(y) + 366 }

  /** The 400-, 100- and 4-year cycles give the year and the day within it. */
  method SplitYear(total: int) returns (gy: int, yearDay: int)
    ensures 0 <= yearDay < YearLength(gy)
    ensures DaysSinceYearZero(gy) + yearDay == total
  {
    var days := total;
    gy := 400 * (days / 146097);
    days := days % 146097;
    ghost var a, b, c, d := total / 146097, 0, 0, 0;
    if days > 36524 {
      days := days - 1;
      b := days / 36524;
      gy := gy + 100 * (days / 36524);
      days := days % 36524;
      if days >= 365 {
        days := days + 1;
      }
    }
    c := days / 1461;
    gy := gy + 4 * (days / 1461);
    days := days % 1461;
    if days > 365 {
      d := (days - 1) / 365;
      gy := gy + (days - 1) / 365;
      days := (days - 1) % 365;
    }
    yearDay := days;
    YearStart(a, b, c, d);
    YearLengthOf(a, b, c, d);
  }

  /** Where the year 400 a + 100 b + 4 c + d starts. */
  lemma YearStart(a: int, b: int, c: int, d: int)
    requires 0 <= b <= 3 && 0 <= c <= 24 && 0 <= d <= 3
    ensures DaysSinceYearZero(400 * a + 100 * b + 4 * c + d)
            == 146097 * a + 36524 * b + 1461 * c + 365 * d + (if d > 0 then 1 else 0)
               - (if c > 0 || d > 0 then 1 else 0) + (if b > 0 || c > 0 || d > 0 then 1 else 0)
  {
    var y := 400 * a + 100 * b + 4 * c + d - 1;
    assert y / 4 == 100 * a + 25 * b + c + (if d > 0 then 0 else -1);
    assert y / 100 == 4 * a + b + (if c > 0 || d > 0 then 0 else -1);
    assert y / 400 == a + (if b > 0 || c > 0 || d > 0 then 0 else -1);
  }

  lemma YearLengthOf(a: int, b: int, c: int, d: int)
    requires 0 <= b <= 3 && 0 <= c <= 24 && 0 <= d <= 3
    ensures YearLength(400 * a + 100 * b + 4 * c + d) == if d == 0 && (c != 0 || b == 0) then 366 else 365
  {
    RestOfFour(100 * a + 25 * b + c, d);
    RestOfHundred(4 * a + b, 4 * c + d);
    RestOfFourHundred(a, 100 * b + 4 * c + d);
  }

  lemma RestOfFour(q: int, r: int)
    requires 0 <= r < 4
    ensures (4 * q + r) % 4 == r
  {
  }

  lemma RestOfHundred(q: int, r: int)
    requires 0 <= r < 100
    ensures (100 * q + r) % 100 == r
  {
  }

  lemma RestOfFourHundred(q: int, r: int)
    requires 0 <= r < 400
    ensures (400 * q + r) % 400 == r
  {
  }

  /** The month loop. It stops inside the year, so it never runs past December. */
  method SplitMonth(gy: int, yearDay: int) returns (gm: int, gd: int)
    requires 0 <= yearDay < YearLength(gy)
    ensures Valid(Date(gy, gm, gd)) && DaysBeforeMonth(gy, gm) + gd == yearDay + 1
  {
    gd := yearDay + 1;
    gm := 1;
    MonthTable(gy);
    while gd > MonthLength(gy, gm)
      invariant 1 <= gm <= 12 && gd >= 1
      invariant DaysBeforeMonth(gy, gm) + gd == yearDay + 1
      decreases 12 - gm
    {
      gd := gd - MonthLength(gy, gm);
      gm := gm + 1;
    }
  }

  /** Conversion is a function: its result is determined. */
  lemma ConvertsOnce(d: JalaliDate, r: Option<Date>, s: Option<Date>)
    requires Converts(d, r) && Converts(d, s)
    ensures r == s
  {
    if r.Some? { RangeOfOrdinals(r.value); }
    if s.Some? { RangeOfOrdinals(s.value); }
    if r.Some? && s.Some? { OrdinalOrders(r.value, s.value); }
  }

  /** Conversion keeps the order of dates, strictly. */
  lemma ConversionIncreases(d: JalaliDate, e: JalaliDate, g: Date, h: Date)
    requires ValidJalali(d) && ValidJalali(e) && Converts(d, Some(g)) && Converts(e, Some(h))
    ensures EarlierJalali(d, e) <==> Earlier(g, h)
  {
    JalaliOrdinalOrders(d, e);
    OrdinalOrders(g, h);
  }

  /** Day 30 of month 12 is accepted in every year; in a common year it is the next Nowruz. */
  lemma ThirtiethOfEsfand(y: int, r: Option<Date>, s: Option<Date>)
    requires Converts(JalaliDate(y, 12, 30), r) && Converts(JalaliDate(y + 1, 1, 1), s)
    requires 1 <= Nowruz(y) && Nowruz(y + 1) <= 3652059
    ensures r == s <==> !LeapYear(y)
  {
    YearDaysStep(y);
    if !LeapYear(y) {
      assert JalaliOrdinal(JalaliDate(y, 12, 30)) == Nowruz(y + 1);
      assert Accepted(JalaliDate(y, 12, 30)) && Accepted(JalaliDate(y + 1, 1, 1));
      OrdinalOrders(r.value, s.value);
    }
  }

  /* ---------- Gregorian to Jalali ---------- */

  lemma JalaliLeapsDrift(jy: int)
    ensures 8 * jy <= 33 * ((jy / 33) * 8 + (jy % 33 + 3) / 4) <= 8 * jy + 32
  {
    var q, r := jy / 33, jy % 33;
    assert jy == 33 * q + r;
  }

  lemma GregorianLeapsDrift(g: int)
    ensures 97 * g - 591 <= 400 * (g / 4 - g / 100 + g / 400) <= 97 * g + 288
  {
    var q, r := g / 400, g % 400;
    assert g == 400 * q + r && g / 4 == 100 * q + r / 4 && g / 100 == 4 * q + r / 100;
    var c, s := r / 100, r % 100;
    assert r == 100 * c + s && r / 4 == 25 * c + s / 4;
  }

  /** Over all of Python's years Nowruz of year y falls between the 78th and the 81st day of
      Gregorian year y + 621, that is, around 20 March. */
  lemma NowruzInMarch(y: int)
    requires -621 <= y <= 9379
    ensures DaysBeforeYear(y + 621) + 78 <= Nowruz(y) <= DaysBeforeYear(y + 621) + 81
  {
    JalaliLeapsDrift(y + 1595);
    GregorianLeapsDrift(y + 620);
  }

  /** What converting back gives: an error before the first Nowruz of Python's dates, otherwise
      the valid Jalali date with the same ordinal. */
  ghost predicate Inverts(g: Date, r: Option<JalaliDate>)
    requires Valid(g)
  {
    match r
    case None => Ordinal(g) < Nowruz(-620)
    case Some(d) => Nowruz(-620) <= Ordinal(g) && ValidJalali(d) && JalaliOrdinal(d) == Ordinal(g)
  }

  /** The day with this ordinal lies in Jalali year y, within Python's dates. */
  ghost predicate InYear(y: int, ordinal: int) {
    Nowruz(-620) <= Nowruz(y) <= ordinal < Nowruz(y) + JalaliYearLength(y)
  }

  /** The year guessed from the Gregorian year is right or one too late; the guess itself never
      leaves Python's dates, and the corrected year leaves them only before the first Nowruz. */
  lemma GuessedYear(g: Date)
    requires Valid(g) && InRange(g)
    ensures var y := g.year - 621;
      && 1 <= Nowruz(y) <= 3652059 && (1 <= Nowruz(y - 1) <= 3652059 <==> y > -620)
      && (Nowruz(y) <= Ordinal(g) ==> InYear(y, Ordinal(g)))
      && (Ordinal(g) < Nowruz(y) ==> if y > -620 then InYear(y - 1, Ordinal(g)) else Ordinal(g) < Nowruz(-620))
  {
    var y := g.year - 621;
    GuessBounds(g);
    NextNowruz(y);
    NextNowruz(y - 1);
  }

  lemma NextNowruz(y: int)
    ensures Nowruz(y + 1) == Nowruz(y) + JalaliYearLength(y)
  {
    YearDaysStep(y);
  }

  lemma GuessBounds(g: Date)
    requires Valid(g) && InRange(g)
    ensures var y := g.year - 621;
      && Nowruz(y - 1) < Ordinal(g) < Nowruz(y + 1)
      && 1 <= Nowruz(y) <= 3652059 && (1 <= Nowruz(y - 1) <= 3652059 <==> y > -620)
      && Nowruz(-620) <= Nowruz(y) && (y > -620 ==> Nowruz(-620) <= Nowruz(y - 1))
  {
    var y := g.year - 621;
    OrdinalInYear(g);
    NowruzInMarch(y - 1);
    NowruzInMarch(y);
    NowruzInMarch(y + 1);
    YearStep(g.year - 1);
    YearStep(g.year);
    if g.year > 1 { YearsGrow(1, g.year); NowruzGrows(-620, y); }
    if g.year > 2 { YearsGrow(1, g.year - 1); NowruzGrows(-620, y - 1); }
    if g.year < 9999 { YearsGrow(g.year, 9999); }
  }

  method GregorianToJalali(value: Date) returns (r: Option<JalaliDate>)
    requires Valid(value) && InRange(value)
    ensures Inverts(value, r)
  {
    var year, start := YearOf(value);
    if start == None {
      return None;
    }
    var month, day := SplitJalaliYear(year, Ordinal(value) - Ordinal(start.value));
    return Some(JalaliDate(year, month, day));
  }

  /** The guess and its single correction. */
  method YearOf(value: Date) returns (year: int, start: Option<Date>)
    requires Valid(value) && InRange(value)
    ensures start == None ==> Ordinal(value) < Nowruz(-620)
    ensures start.Some? ==> Valid(start.value) && Ordinal(start.value) == Nowruz(year)
    ensures start.Some? ==> InYear(year, Ordinal(value))
  {
    year := value.year - 621;
    GuessedYear(value);
    start := NowruzDate(year);
    OrdinalOrders(value, start.value);
    if Earlier(value, start.value) {
      year := year - 1;
      start := NowruzDate(year);
    }
  }

  /** The first day of a Jalali year as a Gregorian date. */
  method NowruzDate(year: int) returns (start: Option<Date>)
    ensures start == None <==> !(1 <= Nowruz(year) <= 3652059)
    ensures start.Some? ==> Valid(start.value) && Ordinal(start.value) == Nowruz(year)
  {
    start := JalaliToGregorian(year, 1, 1);
    if start.Some? {
      RangeOfOrdinals(start.value);
    }
  }

  method SplitJalaliYear(year: int, dayOfYear: int) returns (month: int, day: int)
    requires 0 <= dayOfYear < JalaliYearLength(year)
    ensures ValidJalali(JalaliDate(year, month, day))
    ensures MonthDays(month) + day == dayOfYear + 1
  {
    var days := dayOfYear;
    month := 1;
    while month < 12
      invariant 1 <= month <= 12 && days >= 0
      invariant MonthDays(month) + days == dayOfYear
    {
      var length := if month <= 6 then 31 else 30;
      if days < length {
        return month, days + 1;
      }
      days := days - length;
      month := month + 1;
    }
    day := days + 1;
  }

  /* ---------- round trips ---------- */

  /** Gregorian to Jalali and back is the identity. */
  lemma RoundTripGregorian(g: Date, d: JalaliDate, back: Option<Date>)
    requires Valid(g) && InRange(g) && Inverts(g, Some(d)) && Converts(d, back)
    ensures back == Some(g)
  {
    RangeOfOrdinals(g);
    OrdinalOrders(g, back.value);
  }

  /** Jalali to Gregorian and back is the identity exactly for the valid dates from year -620 on;
      the one accepted date that is not valid comes back as the next Nowruz. */
  lemma RoundTripJalali(d: JalaliDate, g: Date, back: Option<JalaliDate>)
    requires Converts(d, Some(g)) && Inverts(g, back)
    ensures back == Some(d) <==> ValidJalali(d) && d.year >= -620
    ensures back.Some? && !ValidJalali(d) ==> back == Some(JalaliDate(d.year + 1, 1, 1))
  {
    YearDaysStep(d.year);
    if d.year < -620 {
      NowruzGrows(d.year, -620);
      if ValidJalali(d) { OrdinalInJalaliYear(d); }
    } else if d.year > -620 {
      NowruzGrows(-620, d.year);
    }
    var valid := if ValidJalali(d) then d else JalaliDate(d.year + 1, 1, 1);
    assert JalaliOrdinal(valid) == JalaliOrdinal(d);
    if back.Some? {
      JalaliOrdinalOrders(valid, back.value);
    }
  }

  /* ---------- the current year and fiscal periods ---------- */

  method CurrentJalaliYear(today: Date) returns (year: int)
    requires Valid(today) && InRange(today)
    ensures Nowruz(year) <= Ordinal(today) < Nowruz(year + 1)
  {
    GuessBounds(today);
    var candidate := today.year - 621;
    var start := NowruzDate(candidate);
    OrdinalOrders(today, start.value);
    year := if !Earlier(today, start.value) then candidate else candidate - 1;
  }

  function PreviousDay(d: Date): (p: Date)
    requires Valid(d)
  {
    if d.day > 1 then d.(day := d.day - 1)
    else if d.month > 1 then Date(d.year, d.month - 1, MonthLength(d.year, d.month - 1))
    else Date(d.year - 1, 12, 31)
  }

  lemma PreviousDayIsOneLess(d: Date)
    requires Valid(d)
    ensures Valid(PreviousDay(d)) && Ordinal(PreviousDay(d)) == Ordinal(d) - 1
  {
    MonthTable(d.year);
    MonthTable(d.year - 1);
    YearStep(d.year - 1);
  }

  /** A fiscal period starts on a Jalali date and ends the day before the same date a year later,
      so it lasts a whole Jalali year and consecutive periods meet without a gap. */
  method FiscalPeriod(year: int, month: int, day: int) returns (period: Option<(Date, Date)>)
    ensures period.Some? ==>
      && Converts(JalaliDate(year, month, day), Some(period.value.0)) && Valid(period.value.1)
      && Ordinal(period.value.1) + 1 == JalaliOrdinal(JalaliDate(year + 1, month, day))
      && Ordinal(period.value.1) - Ordinal(period.value.0) + 1 == JalaliYearLength(year)
    ensures period.None? <==>
      Converts(JalaliDate(year, month, day), None) || Converts(JalaliDate(year + 1, month, day), None)
  {
    var start := JalaliToGregorian(year, month, day);
    var next := JalaliToGregorian(year + 1, month, day);
    if start == None || next == None {
      return None;
    }
    RangeOfOrdinals(start.value);
    RangeOfOrdinals(next.value);
    PreviousDayIsOneLess(next.value);
    YearDaysStep(year);
    return Some((start.value, PreviousDay(next.value)));
  }
}
