/** Hourly and daily leave of one employee, leave type and allocation period: what is checked, what is
    posted, and how far the exact balance can fall
    (asoud_erp/services/request_native_documents.py:47-98, 225-251,
    asoud_erp/services/leave_balance.py:117-126, 141-182, asoud_erp/services/native_payloads.py:149-175). */
module LeaveAccount {
  import opened Basics
  import opened Rounding
  import opened LeaveHours

  /** A submitted hourly ledger entry; `leaves` is negative. */
  datatype Posting = Posting(request: string, leaves: real)

  datatype NativeStatus = Created | Failed(error: LeaveError)

  /** `native` is HRMS's figure, which does not see hourly leave. */
  datatype Account = Account(native: real, ledger: seq<Posting>, statuses: map<string, NativeStatus>)

  function Total(ledger: seq<Posting>): real {
    if ledger == [] then 0.0 else Total(ledger[..|ledger| - 1]) + ledger[|ledger| - 1].leaves
  }

  /** The exact balance. */
  function Balance(a: Account): real {
    a.native + Total(a.ledger)
  }

  predicate HasPosting(ledger: seq<Posting>, request: string) {
    exists p :: p in ledger && p.request == request
  }

  /* ---------- specification of the operations ---------- */

  datatype Leave = Leave(request: string, start: string, end: string, daily: Option<real>)

  function NewPosting(a: Account, leave: Leave, unlimited: bool): Result<Posting> {
    var duration := HourlyDuration(leave.start, leave.end, leave.daily, 0);
    if duration.Err? then Err(duration.error)
    else if ExceedsRemaining(duration.value.dayEquivalent, Remaining(a.native, -Total(a.ledger)), unlimited)
    then Err(InsufficientBalance)
    else Ok(Posting(leave.request, LedgerLeaves(duration.value.hours, leave.daily)))
  }

  function Posted(a: Account, leave: Leave, unlimited: bool): (Account, NativeStatus) {
    if HasPosting(a.ledger, leave.request) then (a, Created) else
      var posting := NewPosting(a, leave, unlimited);
      if posting.Err? then (a, Failed(posting.error)) else (a.(ledger := a.ledger + [posting.value]), Created)
  }

  function Dispatched(a: Account, leave: Leave, unlimited: bool): Account {
    if leave.request in a.statuses && a.statuses[leave.request] == Created then a else
      var (after, status) := Posted(a, leave, unlimited);
      after.(statuses := after.statuses[leave.request := status])
  }

  /** The overlay on a daily application, after HRMS's own check that `days` are within its figure. */
  predicate ApplicationOk(a: Account, days: real, unlimited: bool) {
    unlimited
    || (&& days <= a.native
        && var hourly := RoundHalfUp(-Total(a.ledger), 6);
           hourly == 0.0 || !OverlayInsufficient(a.native, hourly, days))
  }

  function Applied(a: Account, days: real, unlimited: bool): Account {
    if ApplicationOk(a, days, unlimited) then a.(native := a.native - days) else a
  }

  /* ---------- one operation ---------- */

  /** Amounts are posted in whole millionths of a day. */
  ghost predicate InMillionths(ledger: seq<Posting>) {
    exists n :: Total(ledger) == Millionths(n)
  }

  lemma TotalOfMore(ledger: seq<Posting>, p: Posting)
    ensures Total(ledger + [p]) == Total(ledger) + p.leaves
  {
    assert (ledger + [p])[..|ledger|] == ledger;
  }

  lemma LedgerCount(hours: real, daily: Option<real>) returns (count: int)
    ensures LedgerLeaves(hours, daily) == -Millionths(count)
  {
    Counts(hours / DailyHours(daily));
    count := Nearest(hours / DailyHours(daily) * 1000000.0);
  }

  lemma PostingKeepsMillionths(ledger: seq<Posting>, p: Posting, hours: real, daily: Option<real>)
    requires InMillionths(ledger) && p.leaves == LedgerLeaves(hours, daily)
    ensures InMillionths(ledger + [p])
  {
    var n :| Total(ledger) == Millionths(n);
    var count := LedgerCount(hours, daily);
    TotalOfMore(ledger, p);
    assert Total(ledger + [p]) == Millionths(n - count);
  }

  /** The check rounds the request to four decimals and the balance to three, the posting rounds to
      six; together they can let the exact balance go below zero by less than 0.0005505 of a day. */
  lemma PostingBound(a: Account, leave: Leave)
    requires NewPosting(a, leave, false).Ok?
    ensures Balance(a) + NewPosting(a, leave, false).value.leaves > -0.0005505
  {
    var duration := HourlyDuration(leave.start, leave.end, leave.daily, 0).value;
    HoursNear(ParseTime(leave.end).value - ParseTime(leave.start).value);
    var x := duration.hours / DailyHours(leave.daily);
    assert x >= 0.0;
    RoundedTo4(x);
    RoundedTo6(x);
    RoundedTo3(Balance(a));
    assert a.native - -Total(a.ledger) == Balance(a);
  }

  /** The amount posted is the length of the leave in days, up to the rounding of the hours to
      hundredths and of the amount to millionths. */
  lemma PostedAmount(a: Account, leave: Leave, unlimited: bool)
    requires NewPosting(a, leave, unlimited).Ok?
    ensures var minutes := ParseTime(leave.end).value - ParseTime(leave.start).value;
      var daily, amount := DailyHours(leave.daily), -NewPosting(a, leave, unlimited).value.leaves;
      && MIN_MINUTES <= minutes && minutes as real <= daily * 60.0
      && minutes as real / 60.0 / daily - 0.005 / daily - 0.0000005 <= amount
      && amount <= minutes as real / 60.0 / daily + 0.005 / daily + 0.0000005
      && (minutes % 3 == 0 ==>
            minutes as real / 60.0 / daily - 0.0000005 <= amount <= minutes as real / 60.0 / daily + 0.0000005)
  {
    var minutes := ParseTime(leave.end).value - ParseTime(leave.start).value;
    var hours := HoursFromMinutes(minutes);
    RoundedTo2(minutes as real / 60.0);
    RoundedTo6(hours / DailyHours(leave.daily));
    ExactHours(minutes);
    QuotientsNear(hours, minutes as real / 60.0, 0.005, DailyHours(leave.daily));
  }

  lemma QuotientsNear(x: real, y: real, e: real, d: real)
    requires y - e <= x <= y + e && d > 0.0
    ensures y / d - e / d <= x / d <= y / d + e / d
  {
    assert (y - e) / d == y / d - e / d && (y + e) / d == y / d + e / d;
  }

  /** A leave is refused for want of balance only if it is longer than the balance, less 0.00055. */
  lemma RefusalMeansShort(a: Account, leave: Leave)
    requires NewPosting(a, leave, false) == Err(InsufficientBalance)
    ensures HoursFromMinutes(ParseTime(leave.end).value - ParseTime(leave.start).value) / DailyHours(leave.daily)
            > Balance(a) - 0.00055
  {
    var duration := HourlyDuration(leave.start, leave.end, leave.daily, 0).value;
    RoundedTo4(duration.hours / DailyHours(leave.daily));
    RoundedTo3(Balance(a));
    assert a.native - -Total(a.ledger) == Balance(a);
  }

  lemma DispatchBound(a: Account, leave: Leave)
    ensures Balance(Dispatched(a, leave, false)) == Balance(a) || Balance(Dispatched(a, leave, false)) > -0.0005505
  {
    if !HasPosting(a.ledger, leave.request) && NewPosting(a, leave, false).Ok? {
      var p := NewPosting(a, leave, false).value;
      PostingBound(a, leave);
      TotalOfMore(a.ledger, p);
    }
  }

  /** The overlay's own rounding of the sum posted changes nothing. */
  lemma TakenIsExact(a: Account)
    requires InMillionths(a.ledger)
    ensures RoundHalfUp(-Total(a.ledger), 6) == -Total(a.ledger)
    ensures a.native - -Total(a.ledger) == Balance(a)
  {
    var n :| Total(a.ledger) == Millionths(n);
    assert -Total(a.ledger) == Millionths(-n);
    MillionthsAreExact(-n);
  }

  /** So the overlay compares the balance and the days, each rounded to three decimals. */
  lemma ApplicationMeans(a: Account, days: real)
    requires InMillionths(a.ledger)
    ensures ApplicationOk(a, days, false) <==>
      days <= a.native && (Total(a.ledger) == 0.0 || RoundHalfUp(days, 3) <= RoundHalfUp(Balance(a), 3))
  {
    TakenIsExact(a);
  }

  /** The overlay compares two figures of three decimals. */
  lemma ApplicationBound(a: Account, days: real)
    requires InMillionths(a.ledger) && ApplicationOk(a, days, false)
    ensures Balance(Applied(a, days, false)) >= -0.001
    ensures Whole(days * 1000.0) ==> Balance(Applied(a, days, false)) >= -0.0005
  {
    ApplicationMeans(a, days);
    RoundedTo3(Balance(a));
    RoundedTo3(days);
    assert Balance(Applied(a, days, false)) == Balance(a) - days;
    if Whole(days * 1000.0) {
      ThousandthsAreExact(days);
    }
  }

  /** A daily leave is refused only if it exceeds the native figure, or the balance less 0.001. */
  lemma ApplicationRefusalMeansShort(a: Account, days: real)
    requires InMillionths(a.ledger) && !ApplicationOk(a, days, false)
    ensures days > a.native || days > Balance(a) - 0.001
  {
    ApplicationMeans(a, days);
    RoundedTo3(Balance(a));
    RoundedTo3(days);
  }

  /* ---------- any sequence of operations ---------- */

  datatype Event = Approve(leave: Leave) | Apply(days: real) | Grant(days: real)

  function Step(a: Account, event: Event, unlimited: bool): Account {
    match event
    case Approve(leave) => Dispatched(a, leave, unlimited)
    case Apply(days) => Applied(a, days, unlimited)
    case Grant(days) => if days >= 0.0 then a.(native := a.native + days) else a
  }

  function Run(a: Account, events: seq<Event>, unlimited: bool): Account {
    if events == [] then a else Step(Run(a, events[..|events| - 1], unlimited), events[|events| - 1], unlimited)
  }

  /** Granting days adds them to the balance; nothing is taken by a grant. */
  lemma GrantsAdd(a: Account, days: real, unlimited: bool)
    ensures Balance(Step(a, Grant(days), unlimited)) == Balance(a) + if days > 0.0 then days else 0.0
    ensures Step(a, Grant(days), unlimited).ledger == a.ledger && Step(a, Grant(days), unlimited).statuses == a.statuses
  {
  }

  predicate OnePerRequest(ledger: seq<Posting>) {
    forall i, j | 0 <= i < j < |ledger| :: ledger[i].request != ledger[j].request
  }

  ghost predicate CreatedArePosted(ledger: seq<Posting>, statuses: map<string, NativeStatus>) {
    forall r | r in statuses && statuses[r] == Created :: HasPosting(ledger, r)
  }

  ghost predicate LedgerOk(a: Account) {
    InMillionths(a.ledger) && OnePerRequest(a.ledger) && CreatedArePosted(a.ledger, a.statuses)
  }

  lemma AppendKeeps(ledger: seq<Posting>, p: Posting)
    requires OnePerRequest(ledger) && !HasPosting(ledger, p.request)
    ensures OnePerRequest(ledger + [p])
    ensures forall r | HasPosting(ledger, r) || r == p.request :: HasPosting(ledger + [p], r)
  {
    assert forall i | 0 <= i < |ledger| :: ledger[i] in ledger;
    assert p in ledger + [p];
    assert forall q | q in ledger :: q in ledger + [p];
  }

  lemma PostKeepsLedger(a: Account, leave: Leave, unlimited: bool)
    requires LedgerOk(a)
    ensures LedgerOk(Posted(a, leave, unlimited).0) && a.ledger <= Posted(a, leave, unlimited).0.ledger
    ensures Posted(a, leave, unlimited).1 == Created ==> HasPosting(Posted(a, leave, unlimited).0.ledger, leave.request)
  {
    if !HasPosting(a.ledger, leave.request) && NewPosting(a, leave, unlimited).Ok? {
      var p := NewPosting(a, leave, unlimited).value;
      var duration := HourlyDuration(leave.start, leave.end, leave.daily, 0).value;
      PostingKeepsMillionths(a.ledger, p, duration.hours, leave.daily);
      AppendKeeps(a.ledger, p);
    }
  }

  lemma StatusKeepsLedger(a: Account, request: string, status: NativeStatus)
    requires LedgerOk(a) && (status == Created ==> HasPosting(a.ledger, request))
    ensures LedgerOk(a.(statuses := a.statuses[request := status]))
  {
  }

  lemma OnlyNativeChanges(a: Account, native: real)
    requires LedgerOk(a)
    ensures LedgerOk(a.(native := native))
  {
  }

  lemma DispatchKeepsLedger(a: Account, leave: Leave, unlimited: bool)
    requires LedgerOk(a)
    ensures LedgerOk(Dispatched(a, leave, unlimited)) && a.ledger <= Dispatched(a, leave, unlimited).ledger
  {
    var (after, status) := Posted(a, leave, unlimited);
    PostKeepsLedger(a, leave, unlimited);
    StatusKeepsLedger(after, leave.request, status);
  }

  lemma StepKeepsLedger(a: Account, event: Event, unlimited: bool)
    requires LedgerOk(a)
    ensures LedgerOk(Step(a, event, unlimited)) && a.ledger <= Step(a, event, unlimited).ledger
  {
    match event
    case Approve(leave) => DispatchKeepsLedger(a, leave, unlimited);
    case Apply(days) => OnlyNativeChanges(a, if ApplicationOk(a, days, unlimited) then a.native - days else a.native);
    case Grant(days) => OnlyNativeChanges(a, if days >= 0.0 then a.native + days else a.native);
  }

  /** Every request is posted at most once, however often it is dispatched or retried. */
  lemma {:induction false} PostedOnce(events: seq<Event>, native: real, unlimited: bool)
    ensures LedgerOk(Run(Account(native, [], map[]), events, unlimited))
  {
    if events == [] {
      assert Total([]) == Millionths(0);
    } else {
      PostedOnce(events[..|events| - 1], native, unlimited);
      var before := Run(Account(native, [], map[]), events[..|events| - 1], unlimited);
      StepKeepsLedger(before, events[|events| - 1], unlimited);
    }
  }

  predicate HourlyOnly(events: seq<Event>) {
    forall e | e in events :: !e.Apply?
  }

  /** For a paid type that may not go negative, no run takes the exact balance below -0.001 of a day,
      nor, while only hourly leave is taken, to -0.0005505. */
  lemma {:induction false} OverdraftBound(events: seq<Event>, native: real)
    requires native >= 0.0
    ensures Balance(Run(Account(native, [], map[]), events, false)) >= -0.001
    ensures HourlyOnly(events) ==> Balance(Run(Account(native, [], map[]), events, false)) > -0.0005505
  {
    if events != [] {
      var before, last := Run(Account(native, [], map[]), events[..|events| - 1], false), events[|events| - 1];
      OverdraftBound(events[..|events| - 1], native);
      PostedOnce(events[..|events| - 1], native, false);
      assert HourlyOnly(events) ==> HourlyOnly(events[..|events| - 1]) && last in events;
      match last
      case Approve(leave) => DispatchBound(before, leave);
      case Apply(days) => if ApplicationOk(before, days, false) { ApplicationBound(before, days); }
      case Grant(days) =>
    }
  }

  lemma {:induction false} CreatedStays(a: Account, events: seq<Event>, unlimited: bool, request: string)
    requires request in a.statuses && a.statuses[request] == Created
    ensures var later := Run(a, events, unlimited);
            request in later.statuses && later.statuses[request] == Created
  {
    if events != [] {
      CreatedStays(a, events[..|events| - 1], unlimited, request);
    }
  }

  /** Once a request is created, whatever happens in between, dispatching it again changes nothing. */
  lemma RedispatchChangesNothing(a: Account, leave: Leave, events: seq<Event>, again: Leave, unlimited: bool)
    requires again.request == leave.request && leave.request in Dispatched(a, leave, unlimited).statuses
    requires Dispatched(a, leave, unlimited).statuses[leave.request] == Created
    ensures var later := Run(Dispatched(a, leave, unlimited), events, unlimited);
            Dispatched(later, again, unlimited) == later
  {
    CreatedStays(Dispatched(a, leave, unlimited), events, unlimited, leave.request);
  }

  /** The balance can go below zero: one hour of an eight-hour day with 0.1245 of a day left. */
  lemma OverdraftHappens(request: string)
    ensures Balance(Dispatched(Account(0.1245, [], map[]), Leave(request, "09:00", "10:00", None), false)) == -0.0005
  {
    var a, leave := Account(0.1245, [], map[]), Leave(request, "09:00", "10:00", None);
    Powers();
    ExactHours(60);
    assert ParseTime("09:00") == Ok(540) && ParseTime("10:00") == Ok(600);
    assert HoursFromMinutes(60) == 1.0;
    assert Nearest(1250.0) == 1250 && DayEquivalent(1.0, None) == 0.125;
    assert Nearest(125000.0) == 125000 && LedgerLeaves(1.0, None) == -0.125;
    assert Nearest(124.5) == 125 && Remaining(0.1245, 0.0) == 0.125;
    assert NewPosting(a, leave, false) == Ok(Posting(request, -0.125));
    TotalOfMore([], Posting(request, -0.125));
  }

  /* ---------- the records, updated in place ---------- */

  class Records {
    const unlimited: bool
    var native: real
    var ledger: seq<Posting>
    var statuses: map<string, NativeStatus>

    constructor (native: real, unlimited: bool)
      ensures Now() == Account(native, [], map[]) && this.unlimited == unlimited
    {
      this.unlimited := unlimited;
      this.native := native;
      ledger := [];
      statuses := map[];
    }

    ghost function Now(): Account
      reads this
    {
      Account(native, ledger, statuses)
    }

    /** The sum over the hourly entries. */
    method HourlyTaken() returns (taken: real)
      ensures taken == -Total(ledger)
    {
      var sum := 0.0;
      for i := 0 to |ledger|
        invariant sum == Total(ledger[..i])
      {
        assert ledger[..i + 1][..i] == ledger[..i];
        sum := sum + ledger[i].leaves;
      }
      assert ledger[..|ledger|] == ledger;
      taken := -sum;
    }

    method Existing(request: string) returns (found: bool)
      ensures found == HasPosting(ledger, request)
    {
      for i := 0 to |ledger|
        invariant forall j | 0 <= j < i :: ledger[j].request != request
      {
        if ledger[i].request == request {
          assert ledger[i] in ledger;
          return true;
        }
      }
      found := false;
    }

    /** _create_hourly_ledger_entry: check against the rounded remainder, then post. */
    method CreateHourlyLedgerEntry(leave: Leave) returns (status: NativeStatus)
      modifies this`ledger
      ensures (Now(), status) == Posted(old(Now()), leave, unlimited)
    {
      var existing := Existing(leave.request);
      if existing {
        return Created;
      }
      var duration := HourlyDuration(leave.start, leave.end, leave.daily, 0);
      if duration.Err? {
        return Failed(duration.error);
      }
      var taken := HourlyTaken();
      if ExceedsRemaining(duration.value.dayEquivalent, Remaining(native, taken), unlimited) {
        return Failed(InsufficientBalance);
      }
      ledger := ledger + [Posting(leave.request, LedgerLeaves(duration.value.hours, leave.daily))];
      status := Created;
    }

    /** dispatch of an approved hourly leave: created ones are left alone, failed ones tried again. */
    method Dispatch(leave: Leave)
      modifies this
      ensures Now() == Dispatched(old(Now()), leave, unlimited)
    {
      if leave.request in statuses && statuses[leave.request] == Created {
        return;
      }
      var status := CreateHourlyLedgerEntry(leave);
      statuses := statuses[leave.request := status];
    }

    /** A daily application: HRMS's own check, then the overlay. */
    method Apply(days: real)
      modifies this`native
      ensures Now() == Applied(old(Now()), days, unlimited)
    {
      if !unlimited {
        if days > native {
          return;
        }
        var taken := HourlyTaken();
        var hourly := RoundHalfUp(taken, 6);
        if hourly != 0.0 && OverlayInsufficient(native, hourly, days) {
          return;
        }
      }
      native := native - days;
    }
  }
}
