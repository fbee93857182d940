/** When the exact balance of a paid leave type can go below zero, and when it cannot
    (asoud_erp/services/leave_hours.py:68-137, 239-254,
    asoud_erp/services/request_native_documents.py:225-251, asoud_erp/services/leave_balance.py:156-182). */
module LeaveOverdraft {
  import opened Basics
  import opened Rounding
  import opened LeaveHours
  import opened LeaveAccount

  /* ---------- hourly leave ---------- */

  /** No hourly leave that is accepted now takes the balance below zero. */
  ghost predicate NoHourlyOverdraft(a: Account) {
    forall leave | NewPosting(a, leave, false).Ok? :: Balance(a) + NewPosting(a, leave, false).value.leaves >= 0.0
  }

  /** The balance exceeds its own rounding by the half that the check gives away; or it is rounded to
      less than nothing, or to more than any leave of one day can take. */
  predicate CoversRounding(balance: real) {
    var shown := RoundHalfUp(balance, 3);
    shown < 0.0 || shown >= 1.013 || balance >= shown + 0.00005
  }

  lemma DivideTwice(h: real, x: real)
    requires h > 0.0 && x > 0.0
    ensures h / x > 0.0 && h / x * x == h && h / (h / x) == x
  {
    var d := h / x;
    assert d * x == h;
    assert h / d == x;
  }

  lemma QuotientAtMost(h: real, d: real, c: real)
    requires d > 0.0 && h <= c * d
    ensures h / d <= c
  {
  }

  lemma Scale(c: real, t: real, d: real)
    requires c >= 0.0 && t <= d
    ensures c * t <= c * d
  {
  }

  lemma WithinADay(minutes: int, daily: real)
    requires minutes >= MIN_MINUTES && minutes as real <= daily * 60.0 && daily > 0.0
    ensures 0.0 <= HoursFromMinutes(minutes) / daily <= 1.0125
  {
    HoursNear(minutes);
    Scale(1.0125, minutes as real / 60.0, daily);
    QuotientAtMost(HoursFromMinutes(minutes), daily, 1.0125);
  }

  /** What an accepted hourly leave comes to, in days: x before rounding. */
  lemma AcceptedHourly(a: Account, leave: Leave) returns (x: real)
    requires NewPosting(a, leave, false).Ok?
    ensures 0.0 <= x <= 1.0125
    ensures RoundHalfUp(x, 4) <= RoundHalfUp(Balance(a), 3)
    ensures NewPosting(a, leave, false).value.leaves == -RoundHalfUp(x, 6)
  {
    var minutes := ParseTime(leave.end).value - ParseTime(leave.start).value;
    WithinADay(minutes, DailyHours(leave.daily));
    x := HoursFromMinutes(minutes) / DailyHours(leave.daily);
    assert a.native - -Total(a.ledger) == Balance(a);
  }

  /** A leave that passes at four decimals against n thousandths is posted as at most n thousandths
      and a half of the fourth decimal. */
  lemma PostedAtMost(x: real, n: int)
    requires x >= 0.0 && Nearest(x * 10000.0) <= 10 * n
    ensures n >= 0 && Nearest(x * 1000000.0) <= 1000 * n + 50
  {
    assert x * 10000.0 < (10 * n) as real + 0.5;
    assert x * 1000000.0 < (1000 * n + 50) as real;
  }

  lemma CoveredBalanceHolds(balance: real, x: real)
    requires CoversRounding(balance) && 0.0 <= x <= 1.0125 && RoundHalfUp(x, 4) <= RoundHalfUp(balance, 3)
    ensures RoundHalfUp(x, 6) <= balance
  {
    Counts(x);
    Counts(balance);
    PostedAtMost(x, Nearest(balance * 1000.0));
    assert Nearest(x * 1000000.0) <= 1012500;
  }

  /** The leave that is posted as exactly that much. */
  lemma EdgeIsPosted(n: nat) returns (x: real)
    ensures x == ((1000 * n + 50) as real - 0.4) / 1000000.0
    ensures Nearest(x * 10000.0) == 10 * n && Nearest(x * 1000000.0) == 1000 * n + 50
  {
    x := ((1000 * n + 50) as real - 0.4) / 1000000.0;
    assert x * 10000.0 == (10 * n) as real + 0.496;
    assert x * 1000000.0 == (1000 * n + 50) as real - 0.4;
  }

  /** Sixteen minutes of a working day of the right length come to x days. */
  function EdgeLeave(x: real): Leave
    requires x > 0.0
  {
    Leave("", "00:00", "00:16", Some(0.27 / x))
  }

  lemma EdgeDuration(x: real)
    requires 0.0 < x <= 1.0125
    ensures HourlyDuration("00:00", "00:16", Some(0.27 / x), 0) == Ok(Duration(0.27, RoundHalfUp(x, 4)))
    ensures LedgerLeaves(0.27, Some(0.27 / x)) == -RoundHalfUp(x, 6)
  {
    DivideTwice(0.27, x);
    var daily := 0.27 / x;
    assert DailyHours(Some(daily)) == daily;
    assert ParseTime("00:00") == Ok(0) && ParseTime("00:16") == Ok(16);
    SixteenMinutes();
    assert daily * 60.0 >= 16.0 by {
      EdgeFits(daily, x);
    }
  }

  lemma SixteenMinutes()
    ensures HoursFromMinutes(16) == 0.27
  {
    Counts(16.0 / 60.0);
    assert Nearest(16.0 / 60.0 * 100.0) == 27;
  }

  lemma StrictScale(q: real, r: real, x: real)
    requires q < r && x > 0.0
    ensures q * x < r * x
  {
  }

  lemma FactorAtLeast(q: real, x: real, r: real, c: real)
    requires 0.0 < x <= c && r >= 0.0 && q * x == r * c
    ensures q >= r
  {
    if q < r {
      StrictScale(q, r, x);
      Scale(r, x, c);
    }
  }

  lemma EdgeFits(daily: real, x: real)
    requires 0.0 < x <= 1.0125 && daily * x == 0.27
    ensures daily * 60.0 >= 16.0
  {
    FactorAtLeast(daily, x, 16.0 / 60.0, 1.0125);
  }

  lemma EdgeOverdraws(a: Account)
    requires !CoversRounding(Balance(a))
    ensures exists leave ::
      NewPosting(a, leave, false).Ok? && Balance(a) + NewPosting(a, leave, false).value.leaves < 0.0
  {
    var n := Nearest(Balance(a) * 1000.0);
    Counts(Balance(a));
    assert 0 <= n < 1013;
    var x := EdgeIsPosted(n);
    EdgeDuration(x);
    Counts(x);
    var leave := EdgeLeave(x);
    assert a.native - -Total(a.ledger) == Balance(a);
    assert NewPosting(a, leave, false) == Ok(Posting("", -((1000 * n + 50) as real / 1000000.0)));
  }

  /** Exactly the accounts whose balance covers its rounding cannot be overdrawn by an hourly leave. */
  lemma HourlyOverdraftExactly(a: Account)
    ensures NoHourlyOverdraft(a) <==> CoversRounding(Balance(a))
  {
    if CoversRounding(Balance(a)) {
      forall leave | NewPosting(a, leave, false).Ok?
        ensures Balance(a) + NewPosting(a, leave, false).value.leaves >= 0.0
      {
        var x := AcceptedHourly(a, leave);
        CoveredBalanceHolds(Balance(a), x);
      }
    } else {
      EdgeOverdraws(a);
    }
  }

  /* ---------- hourly leave in a company with fixed working hours ---------- */

  /** No hourly leave of this working day that is accepted now takes the balance below zero. */
  ghost predicate NoOverdraftAt(a: Account, daily: Option<real>) {
    forall leave: Leave | leave.daily == daily && NewPosting(a, leave, false).Ok? ::
      Balance(a) + NewPosting(a, leave, false).value.leaves >= 0.0
  }

  /** A leave of so many minutes fits into the working day and passes the check of the balance. */
  predicate MinutesOk(a: Account, daily: Option<real>, minutes: int) {
    && MIN_MINUTES <= minutes < 24 * 60 && minutes as real <= DailyHours(daily) * 60.0
    && DayEquivalent(HoursFromMinutes(minutes), daily) <= RoundHalfUp(Balance(a), 3)
  }

  function Amount(minutes: int, daily: Option<real>): real {
    -LedgerLeaves(HoursFromMinutes(minutes), daily)
  }

  /** The longest leave up to this length that is accepted. */
  function LongestUpTo(a: Account, daily: Option<real>, minutes: nat): (longest: Option<int>)
    ensures longest.Some? ==> MinutesOk(a, daily, longest.value)
    ensures forall m | MinutesOk(a, daily, m) && m <= minutes :: longest.Some? && m <= longest.value
  {
    if MinutesOk(a, daily, minutes) then Some(minutes)
    else if minutes == 0 then None
    else LongestUpTo(a, daily, minutes - 1)
  }

  function Longest(a: Account, daily: Option<real>): Option<int> {
    LongestUpTo(a, daily, 24 * 60 - 1)
  }

  function DigitChar(n: int): char
    requires 0 <= n < 10
  {
    ('0' as int + n) as char
  }

  /** A time of the day, as it is written. */
  function Clock(minutes: int): string
    requires 0 <= minutes < 24 * 60
  {
    var h, m := minutes / 60, minutes % 60;
    [DigitChar(h / 10), DigitChar(h % 10), ':', DigitChar(m / 10), DigitChar(m % 10)]
  }

  lemma ClockIsRead(minutes: int)
    requires 0 <= minutes < 24 * 60
    ensures ParseTime(Clock(minutes)) == Ok(minutes)
  {
    var h, m := minutes / 60, minutes % 60;
    assert 0 <= h < 24 && 0 <= m < 60 && minutes == 60 * h + m;
    assert h == 10 * (h / 10) + h % 10 && m == 10 * (m / 10) + m % 10;
    assert forall n | 0 <= n < 10 :: DigitValue(DigitChar(n)) == n && Digit(DigitChar(n));
  }

  /** Exactly the times of a day are read, written with two digits each; one final newline is let through. */
  lemma TimesExactly(s: string, minutes: int)
    ensures ParseTime(s) == Ok(minutes) <==>
      0 <= minutes < 24 * 60 && (s == Clock(minutes) || s == Clock(minutes) + "\n")
  {
    if 0 <= minutes < 24 * 60 {
      ClockIsRead(minutes);
      WithNewline(Clock(minutes));
    }
    if IsTime(s) {
      TimeIsClock(s);
    }
  }

  lemma WithNewline(s: string)
    requires IsTime(s) && |s| == 5
    ensures ParseTime(s + "\n") == ParseTime(s)
  {
  }

  lemma TimeIsClock(s: string)
    requires IsTime(s)
    ensures ParseTime(s).Ok?
    ensures s == Clock(ParseTime(s).value) || s == Clock(ParseTime(s).value) + "\n"
  {
    var h := 10 * DigitValue(s[0]) + DigitValue(s[1]);
    var m := 10 * DigitValue(s[3]) + DigitValue(s[4]);
    var minutes := 60 * h + m;
    assert 0 <= m < 60 && minutes / 60 == h && minutes % 60 == m;
    assert h / 10 == DigitValue(s[0]) && h % 10 == DigitValue(s[1]);
    assert m / 10 == DigitValue(s[3]) && m % 10 == DigitValue(s[4]);
    assert forall c: char | Digit(c) :: DigitChar(DigitValue(c)) == c;
    var clock := Clock(minutes);
    assert clock[0] == s[0] && clock[1] == s[1] && clock[2] == s[2] && clock[3] == s[3] && clock[4] == s[4];
    if |s| == 5 {
      assert s == clock;
    } else {
      assert s == clock + "\n";
    }
  }

  function LeaveOf(minutes: int, daily: Option<real>): Leave
    requires 0 <= minutes < 24 * 60
  {
    Leave("", Clock(0), Clock(minutes), daily)
  }

  /** Every accepted leave is as long as one that starts at midnight, and every accepted length is one. */
  lemma AcceptedByLength(a: Account, leave: Leave)
    requires NewPosting(a, leave, false).Ok?
    ensures var minutes := ParseTime(leave.end).value - ParseTime(leave.start).value;
      && MinutesOk(a, leave.daily, minutes)
      && NewPosting(a, leave, false).value.leaves == -Amount(minutes, leave.daily)
  {
    assert a.native - -Total(a.ledger) == Balance(a);
  }

  lemma LengthIsAccepted(a: Account, daily: Option<real>, minutes: int)
    requires MinutesOk(a, daily, minutes)
    ensures NewPosting(a, LeaveOf(minutes, daily), false) == Ok(Posting("", -Amount(minutes, daily)))
  {
    ClockIsRead(0);
    ClockIsRead(minutes);
    assert a.native - -Total(a.ledger) == Balance(a);
  }

  lemma LongerIsMore(m: int, n: int, daily: Option<real>)
    requires m <= n
    ensures Amount(m, daily) <= Amount(n, daily)
  {
    LongerIsMoreHours(m, n);
    var x, y, d := HoursFromMinutes(m), HoursFromMinutes(n), DailyHours(daily);
    QuotientGrows(x, y, d);
    RoundingGrows(x / d, y / d);
  }

  lemma LongerIsMoreHours(m: int, n: int)
    requires m <= n
    ensures HoursFromMinutes(m) <= HoursFromMinutes(n)
  {
    RoundingGrows(m as real / 60.0, n as real / 60.0);
  }

  lemma RoundingGrows(x: real, y: real)
    requires x <= y
    ensures RoundHalfUp(x, 2) <= RoundHalfUp(y, 2) && RoundHalfUp(x, 6) <= RoundHalfUp(y, 6)
  {
    Counts(x);
    Counts(y);
    NearestGrows(x * 100.0, y * 100.0);
    NearestGrows(x * 1000000.0, y * 1000000.0);
  }

  lemma NearestGrows(x: real, y: real)
    requires x <= y
    ensures Nearest(x) <= Nearest(y)
  {
  }

  lemma QuotientGrows(x: real, y: real, d: real)
    requires x <= y && d > 0.0
    ensures x / d <= y / d
  {
  }

  /** With a fixed working day, an account cannot be overdrawn exactly when its balance covers the
      longest leave that is accepted. */
  lemma FixedDayOverdraftExactly(a: Account, daily: Option<real>)
    ensures NoOverdraftAt(a, daily)
       <==> Longest(a, daily) == None || Amount(Longest(a, daily).value, daily) <= Balance(a)
  {
    var longest := Longest(a, daily);
    if longest == None || Amount(longest.value, daily) <= Balance(a) {
      forall leave: Leave | leave.daily == daily && NewPosting(a, leave, false).Ok?
        ensures Balance(a) + NewPosting(a, leave, false).value.leaves >= 0.0
      {
        AcceptedByLength(a, leave);
        LongerIsMore(ParseTime(leave.end).value - ParseTime(leave.start).value, longest.value, daily);
      }
    } else {
      LengthIsAccepted(a, daily, longest.value);
      assert LeaveOf(longest.value, daily).daily == daily;
    }
  }

  lemma HalvesRoundUp(k: nat)
    ensures Nearest(k as real / 2.0) as real >= k as real / 2.0
  {
    var m := (k + 1) / 2;
    assert k <= 2 * m <= k + 1;
    AtLeast(k as real / 2.0, m);
  }

  lemma AtLeast(x: real, m: nat)
    requires 0.0 <= x <= m as real <= x + 0.5
    ensures Nearest(x) >= m
  {
    FloorAtLeast(x + 0.5, m);
  }

  lemma FloorAtLeast(y: real, m: int)
    requires m as real <= y
    ensures m <= y.Floor
  {
  }

  lemma RoundedUp(x: real)
    requires Nearest(x * 10000.0) as real >= x * 10000.0
    ensures x <= RoundHalfUp(x, 4)
  {
    Counts(x);
  }

  lemma HundredthsInDays(n: nat)
    ensures n as real / 100.0 / 8.0 == Millionths(1250 * n)
            && n as real / 100.0 / 8.0 * 10000.0 == (25 * n) as real / 2.0
  {
  }

  /** In a working day of eight hours the posted amount is exact and the checked one not smaller. */
  lemma EightHours(minutes: int)
    requires minutes >= MIN_MINUTES
    ensures Amount(minutes, None) == HoursFromMinutes(minutes) / 8.0 <= DayEquivalent(HoursFromMinutes(minutes), None)
  {
    var n := Nearest(minutes as real / 60.0 * 100.0);
    Counts(minutes as real / 60.0);
    assert HoursFromMinutes(minutes) == n as real / 100.0;
    HundredthsInDays(n);
    MillionthsAreExact(1250 * n);
    HalvesRoundUp(25 * n);
    RoundedUp(n as real / 100.0 / 8.0);
  }

  /** So with eight hours a day only a balance that is rounded up can be overdrawn. */
  lemma EightHoursCoverThousandths(a: Account)
    requires RoundHalfUp(Balance(a), 3) <= Balance(a)
    ensures NoOverdraftAt(a, None)
  {
    FixedDayOverdraftExactly(a, None);
    if Longest(a, None).Some? {
      EightHours(Longest(a, None).value);
    }
  }

  /* ---------- daily leave ---------- */

  /** k steps of n thousandths of a day; half days are steps of 500. */
  function Days(n: nat, k: int): real {
    (n * k) as real / 1000.0
  }

  ghost predicate OnOffer(days: real, n: nat) {
    exists k :: Days(n, k) == days
  }

  /** No daily leave in such steps that is accepted now takes the balance below zero. */
  ghost predicate NoDailyOverdraft(a: Account, n: nat) {
    forall k | ApplicationOk(a, Days(n, k), false) :: Balance(Applied(a, Days(n, k), false)) >= 0.0
  }

  /** No hourly leave was taken, or the balance is not rounded up to a length that is on offer. */
  ghost predicate CoversSteps(a: Account, n: nat) {
    var shown := RoundHalfUp(Balance(a), 3);
    Total(a.ledger) == 0.0 || shown <= Balance(a) || shown > a.native || !OnOffer(shown, n)
  }

  lemma DaysAreThousandths(n: nat, k: int)
    ensures RoundHalfUp(Days(n, k), 3) == Days(n, k)
  {
    assert Days(n, k) * 1000.0 == (n * k) as real;
    ThousandthsAreExact(Days(n, k));
  }

  /** A whole number of thousandths between a balance and its rounding is the rounding. */
  lemma ShownIsOnOffer(balance: real, count: int)
    requires balance < count as real / 1000.0 <= RoundHalfUp(balance, 3)
    ensures count as real / 1000.0 == RoundHalfUp(balance, 3)
  {
    Counts(balance);
    assert count as real > balance * 1000.0;
    assert count <= Nearest(balance * 1000.0);
  }

  lemma AcceptedDaily(a: Account, n: nat, k: int)
    requires InMillionths(a.ledger) && ApplicationOk(a, Days(n, k), false) && CoversSteps(a, n)
    ensures Days(n, k) <= Balance(a)
  {
    ApplicationMeans(a, Days(n, k));
    DaysAreThousandths(n, k);
    Counts(Balance(a));
    if Total(a.ledger) != 0.0 && Days(n, k) > Balance(a) {
      ShownIsOnOffer(Balance(a), n * k);
    }
  }

  /** For daily leaves in steps of n thousandths the condition is exact. */
  lemma DailyOverdraftExactly(a: Account, n: nat)
    requires InMillionths(a.ledger)
    ensures NoDailyOverdraft(a, n) <==> CoversSteps(a, n)
  {
    if CoversSteps(a, n) {
      forall k | ApplicationOk(a, Days(n, k), false) ensures Balance(Applied(a, Days(n, k), false)) >= 0.0 {
        AcceptedDaily(a, n, k);
      }
    } else {
      var k :| Days(n, k) == RoundHalfUp(Balance(a), 3);
      DaysAreThousandths(n, k);
      ApplicationMeans(a, Days(n, k));
      assert Balance(Applied(a, Days(n, k), false)) == Balance(a) - Days(n, k);
    }
  }

  /** If days could have any length, an account would be safe exactly while no hourly leave is taken. */
  lemma AnyLengthOverdraftExactly(a: Account)
    requires InMillionths(a.ledger) && Balance(a) >= 0.0
    ensures (forall days | ApplicationOk(a, days, false) :: days <= Balance(a)) <==> Total(a.ledger) >= 0.0
  {
    if Total(a.ledger) < 0.0 {
      var b := Balance(a);
      var n := Nearest(b * 1000.0);
      var unrounded := (n as real + 0.5) / 1000.0;
      var room := if a.native < unrounded then a.native - b else unrounded - b;
      assert room > 0.0;
      var days := b + room / 2.0;
      assert Nearest(days * 1000.0) == n;
      Counts(b);
      Counts(days);
      ApplicationMeans(a, days);
      assert ApplicationOk(a, days, false) && days > b;
    } else {
      forall days | ApplicationOk(a, days, false) ensures days <= Balance(a) {
        ApplicationMeans(a, days);
      }
    }
  }
}
