/** What the assignment history keeps, over one save and over any sequence of accepted saves
    (asoud_erp/services/organization_assignments.py:23-54, with the order of a save in
    asoud_erp/asoud_erp/doctype/asoud_organization_chart/asoud_organization_chart.py:21-30). */
module OrganizationHistory {
  import opened Basics
  import opened OrganizationContract
  import opened OrganizationAssignments

  /* ---------- open entries ---------- */

  function OpenCount(history: seq<Entry>, employee: string): nat {
    if history == [] then 0 else
      var last := history[|history| - 1];
      OpenCount(history[..|history| - 1], employee) + (if Open(last) && last.employee == employee then 1 else 0)
  }

  /** The open entries are exactly the occupants, once each. */
  ghost predicate OpenAre(history: seq<Entry>, occupants: seq<string>) {
    forall e :: OpenCount(history, e) == if e in occupants then 1 else 0
  }

  lemma {:induction false} OpenCountJoin(a: seq<Entry>, b: seq<Entry>, e: string)
    ensures OpenCount(a + b, e) == OpenCount(a, e) + OpenCount(b, e)
  {
    if b == [] {
      assert a + b == a;
    } else {
      assert (a + b)[..|a + b| - 1] == a + b[..|b| - 1];
      OpenCountJoin(a, b[..|b| - 1], e);
    }
  }

  lemma {:induction false} ClosedCount(history: seq<Entry>, occupants: seq<string>, stamp: Stamp, e: string)
    requires stamp.time != ""
    ensures OpenCount(Closed(history, occupants, stamp), e) == if e in occupants then OpenCount(history, e) else 0
  {
    if history != [] {
      ClosedCount(history[..|history| - 1], occupants, stamp, e);
      var closed := Closed(history, occupants, stamp);
      assert closed[..|closed| - 1] == Closed(history[..|history| - 1], occupants, stamp);
    }
  }

  lemma DistinctPrefix(s: seq<string>)
    requires Distinct(s) && s != []
    ensures Distinct(s[..|s| - 1]) && s[|s| - 1] !in s[..|s| - 1]
    ensures forall e :: e in s <==> e in s[..|s| - 1] || e == s[|s| - 1]
  {
    assert s == s[..|s| - 1] + [s[|s| - 1]];
  }

  lemma OpenCountOne(x: Entry, e: string)
    ensures OpenCount([x], e) == if Open(x) && x.employee == e then 1 else 0
  {
    assert [x][..0] == [];
  }

  lemma {:induction false} OpenedCount(occupants: seq<string>, prior: seq<string>, stamp: Stamp, e: string)
    requires Distinct(occupants)
    ensures OpenCount(Opened(occupants, prior, stamp), e) == if e in occupants && e !in prior then 1 else 0
  {
    if occupants != [] {
      var last := occupants[|occupants| - 1];
      DistinctPrefix(occupants);
      OpenedCount(occupants[..|occupants| - 1], prior, stamp, e);
      var more := if last in prior then [] else [Started(last, stamp)];
      OpenCountJoin(Opened(occupants[..|occupants| - 1], prior, stamp), more, e);
      OpenCountOne(Started(last, stamp), e);
    }
  }

  lemma {:induction false} ConvertedCount(prior: seq<string>, e: string)
    requires Distinct(prior)
    ensures OpenCount(Converted(prior), e) == if e in prior then 1 else 0
  {
    if prior != [] {
      DistinctPrefix(prior);
      ConvertedCount(prior[..|prior| - 1], e);
      assert Converted(prior)[..|prior| - 1] == Converted(prior[..|prior| - 1]);
    }
  }

  /* ---------- what a stored row keeps ---------- */

  /** A row as a save leaves it. */
  ghost predicate SavedRow(row: Row) {
    if row.occupants.Some?
    then row.history.Some? && Distinct(row.occupants.value) && OpenAre(row.history.value, row.occupants.value)
    else row.history == None
  }

  /** A row as it may have been stored before any history was kept: with nothing recorded yet, whether
      it names one employee or several occupants. */
  ghost predicate GoodRow(row: Row) {
    SavedRow(row)
    || (Recorded(row.history) == [] && (row.occupants.Some? ==> Distinct(row.occupants.value)))
  }

  lemma HistoryMatchesPrior(before: Option<Row>)
    requires before.Some? ==> GoodRow(before.value)
    ensures Distinct(PriorOf(before)) && OpenAre(HistoryOf(before), PriorOf(before))
    ensures before.Some? ==> Recorded(before.value.history) <= HistoryOf(before)
  {
    forall e ensures OpenCount(HistoryOf(before), e) == if e in PriorOf(before) then 1 else 0 {
      ConvertedCount(PriorOf(before), e);
    }
  }

  /** After a save the open entries of a position are its occupants again. */
  lemma OpenEntriesAreOccupants(row: Row, before: Option<Row>, stamp: Stamp)
    requires stamp.time != "" && (before.Some? ==> GoodRow(before.value))
    requires if row.occupants.Some? then Distinct(row.occupants.value) else row.history == None
    requires Reconciled(row, before, stamp).Kept?
    ensures SavedRow(Reconciled(row, before, stamp).value)
  {
    if row.occupants.Some? {
      var occupants := row.occupants.value;
      HistoryMatchesPrior(before);
      forall e ensures OpenCount(NewHistory(before, occupants, stamp), e) == if e in occupants then 1 else 0 {
        ClosedCount(HistoryOf(before), occupants, stamp, e);
        OpenedCount(occupants, PriorOf(before), stamp, e);
        OpenCountJoin(Closed(HistoryOf(before), occupants, stamp), Opened(occupants, PriorOf(before), stamp), e);
      }
    }
  }

  /* ---------- the history only grows ---------- */

  /** An entry stays as it is, or, if it was open, is closed. */
  predicate Continues(x: Entry, y: Entry) {
    x == y || (Open(x) && !Open(y) && y == x.(endedAt := y.endedAt, endedBy := y.endedBy))
  }

  predicate Extends(a: seq<Entry>, b: seq<Entry>) {
    |a| <= |b| && forall k | 0 <= k < |a| :: Continues(a[k], b[k])
  }

  lemma ExtendsJoin(a: seq<Entry>, b: seq<Entry>, c: seq<Entry>)
    requires Extends(a, b) && Extends(b, c)
    ensures Extends(a, c)
  {
    forall k | 0 <= k < |a| ensures Continues(a[k], c[k]) {
      assert Continues(a[k], b[k]) && Continues(b[k], c[k]);
    }
  }

  lemma {:induction false} OpenedAreNew(occupants: seq<string>, prior: seq<string>, stamp: Stamp)
    ensures forall x | x in Opened(occupants, prior, stamp) ::
              x == Started(x.employee, stamp) && x.employee in occupants && x.employee !in prior
  {
    if occupants != [] {
      OpenedAreNew(occupants[..|occupants| - 1], prior, stamp);
    }
  }

  /** One save keeps every entry in its place and appends only entries of newcomers, with the
      server's own stamp. */
  lemma HistoryStep(before: Row, occupants: seq<string>, stamp: Stamp)
    requires stamp.time != ""
    ensures var h := NewHistory(Some(before), occupants, stamp);
            && Extends(Recorded(before.history), h)
            && forall k | |HistoryOf(Some(before))| <= k < |h| ::
                 && h[k] == Entry(h[k].employee, Some(stamp.time), None, Some(stamp.actor), None, false)
                 && h[k].employee in occupants && h[k].employee !in PriorOf(Some(before))
    ensures var start, h := HistoryOf(Some(before)), NewHistory(Some(before), occupants, stamp);
            forall k | 0 <= k < |start| && Open(start[k]) ::
              h[k] == if start[k].employee in occupants then start[k]
                      else start[k].(endedAt := Some(stamp.time), endedBy := Some(stamp.actor))
  {
    OpenedAreNew(occupants, PriorOf(Some(before)), stamp);
  }

  /** An assignment from before there was a history keeps its unknown start. */
  lemma LegacyStartStaysUnknown(before: Row, occupants: seq<string>, stamp: Stamp)
    requires before.occupants == None && before.employee != "" && Recorded(before.history) == [] && stamp.time != ""
    ensures var h := NewHistory(Some(before), occupants, stamp);
            && h != [] && h[0].employee == before.employee && h[0].startedAt == None && h[0].legacy
            && (Open(h[0]) <==> before.employee in occupants)
  {
    assert HistoryOf(Some(before)) == Converted([before.employee]);
  }

  /** A client of the old version is let through exactly where it leaves the assignment as it is stored. */
  lemma OldClientsKeepAssignments(row: Row, before: Option<Row>, stamp: Stamp)
    requires row.occupants == None
    ensures Reconciled(row, before, stamp)
         == if before.Some? && before.value.occupants.Some? then Refused(OldClient)
            else if before == None || before.value.employee in {"", row.employee} then Kept(row)
            else Refused(LegacyAssignmentErased)
  {
  }

  /** Whatever history a client sends, the server stores its own. */
  lemma SentHistoryIsIgnored(row: Row, sent: Option<seq<Entry>>, before: Option<Row>, stamp: Stamp)
    ensures Reconciled(Normalized(row.(history := sent)), before, stamp) == Reconciled(Normalized(row), before, stamp)
  {
  }

  /* ---------- one save of a chart ---------- */

  ghost predicate GoodChart(rows: seq<Row>) {
    CodesDistinct(rows) && forall row | row in rows :: GoodRow(row)
  }

  ghost predicate SavedChart(rows: seq<Row>) {
    CodesDistinct(rows) && forall row | row in rows :: SavedRow(row)
  }

  datatype Save = Save(rows: seq<Row>, stamp: Stamp)

  /** An accepted save: the rows are validated, then reconciled with the stored ones. */
  ghost predicate Step(previous: seq<Row>, save: Save, next: seq<Row>) {
    var rows := AllNormalized(save.rows);
    && save.stamp.time != "" && ValidChart(rows) && Accepts(previous, rows, save.stamp)
    && next == AllReconciled(previous, rows, save.stamp)
  }

  lemma {:induction false} LastRowFinds(rows: seq<Row>, code: string)
    ensures LastRow(rows, code).Some? <==> code in Codes(rows)
    ensures LastRow(rows, code).Some? ==> LastRow(rows, code).value in rows && LastRow(rows, code).value.code == code
  {
    if rows != [] {
      LastRowFinds(rows[..|rows| - 1], code);
      assert forall row :: row in rows <==> row == rows[|rows| - 1] || row in rows[..|rows| - 1];
    }
  }

  lemma SameCodes(previous: seq<Row>, rows: seq<Row>, stamp: Stamp)
    ensures Codes(AllReconciled(previous, rows, stamp)) == Codes(rows)
    ensures CodesDistinct(rows) ==> CodesDistinct(AllReconciled(previous, rows, stamp))
  {
    var next := AllReconciled(previous, rows, stamp);
    assert forall i | 0 <= i < |rows| :: next[i].code == rows[i].code;
    forall c | c in Codes(rows) ensures c in Codes(next) {
      var i :| 0 <= i < |rows| && rows[i].code == c;
      assert next[i] in next;
    }
    forall c | c in Codes(next) ensures c in Codes(rows) {
      var i :| 0 <= i < |next| && next[i].code == c;
      assert rows[i] in rows;
    }
  }

  lemma StepKeepsGood(previous: seq<Row>, save: Save, next: seq<Row>)
    requires GoodChart(previous) && Step(previous, save, next)
    ensures SavedChart(next) && GoodChart(next)
  {
    var rows := AllNormalized(save.rows);
    SameCodes(previous, rows, save.stamp);
    forall row | row in next ensures SavedRow(row) {
      var i :| 0 <= i < |next| && next[i] == row;
      assert rows[i] in rows && RowOk(rows[i]) && Against(previous, rows[i], save.stamp).Kept?;
      LastRowFinds(previous, rows[i].code);
      OpenEntriesAreOccupants(rows[i], LastRow(previous, rows[i].code), save.stamp);
    }
  }

  /** A position once held stays in the chart, with its history. */
  ghost predicate Remembers(before: Row, rows: seq<Row>) {
    exists row :: row in rows && row.code == before.code && Extends(Recorded(before.history), Recorded(row.history))
  }

  lemma HeldIsNotDeletable(rows: seq<Row>, row: Row)
    requires CodesDistinct(rows) && row in rows && Recorded(row.history) != []
    ensures !Deletable(rows, row.code)
  {
    DeletableExactly(rows, row.code);
    FirstRowFinds(rows, row.code);
    OneRowPerCode(rows, row, FirstRow(rows, row.code).value);
  }

  lemma StepRemembers(previous: seq<Row>, save: Save, next: seq<Row>, before: Row)
    requires GoodChart(previous) && Step(previous, save, next)
    requires before in previous && Recorded(before.history) != []
    ensures Remembers(before, next)
  {
    var rows, code := AllNormalized(save.rows), before.code;
    HeldIsNotDeletable(previous, before);
    assert code in Codes(previous) && code in Codes(rows);
    var i :| 0 <= i < |rows| && rows[i].code == code;
    LastRowFinds(previous, code);
    OneRowPerCode(previous, before, LastRow(previous, code).value);
    assert Against(previous, rows[i], save.stamp).Kept?;
    assert GoodRow(before) && rows[i].occupants.Some?;
    HistoryStep(before, rows[i].occupants.value, save.stamp);
    assert next[i] in next && next[i].code == code;
  }

  lemma StillRemembers(previous: seq<Row>, save: Save, next: seq<Row>, before: Row)
    requires GoodChart(previous) && Step(previous, save, next)
    requires Remembers(before, previous) && Recorded(before.history) != []
    ensures Remembers(before, next)
  {
    var middle :| middle in previous && middle.code == before.code
                  && Extends(Recorded(before.history), Recorded(middle.history));
    StepRemembers(previous, save, next, middle);
    var last :| last in next && last.code == middle.code
                && Extends(Recorded(middle.history), Recorded(last.history));
    ExtendsJoin(Recorded(before.history), Recorded(middle.history), Recorded(last.history));
  }

  lemma OneRowPerCode(rows: seq<Row>, a: Row, b: Row)
    requires CodesDistinct(rows) && a in rows && b in rows && a.code == b.code
    ensures a == b
  {
  }

  /* ---------- any sequence of saves ---------- */

  /** A run starts from an empty chart, or from one stored before histories were kept. */
  ghost predicate IsRun(charts: seq<seq<Row>>, saves: seq<Save>) {
    && |charts| == |saves| + 1 && GoodChart(charts[0])
    && forall i | 0 <= i < |saves| :: Step(charts[i], saves[i], charts[i + 1])
  }

  lemma {:induction false} RunIsGood(charts: seq<seq<Row>>, saves: seq<Save>, i: nat)
    requires IsRun(charts, saves) && i < |charts|
    ensures GoodChart(charts[i]) && (i > 0 ==> SavedChart(charts[i]))
  {
    if i > 0 {
      RunIsGood(charts, saves, i - 1);
      StepKeepsGood(charts[i - 1], saves[i - 1], charts[i]);
    }
  }

  /** Whatever one chart remembers, the other does. */
  ghost predicate Preserves(previous: seq<Row>, next: seq<Row>) {
    forall before: Row | Recorded(before.history) != [] && Remembers(before, previous) :: Remembers(before, next)
  }

  lemma RunPreserves(charts: seq<seq<Row>>, saves: seq<Save>, k: nat)
    requires IsRun(charts, saves) && k < |saves|
    ensures Preserves(charts[k], charts[k + 1])
  {
    RunIsGood(charts, saves, k);
    forall before: Row | Recorded(before.history) != [] && Remembers(before, charts[k])
      ensures Remembers(before, charts[k + 1])
    {
      StillRemembers(charts[k], saves[k], charts[k + 1], before);
    }
  }

  lemma {:induction false} KeptAlong(charts: seq<seq<Row>>, i: nat, j: nat, before: Row)
    requires i <= j < |charts| && Recorded(before.history) != [] && Remembers(before, charts[i])
    requires forall k | i <= k < j :: Preserves(charts[k], charts[k + 1])
    ensures Remembers(before, charts[j])
    decreases j - i
  {
    if i < j {
      KeptAlong(charts, i, j - 1, before);
      assert Preserves(charts[j - 1], charts[j - 1 + 1]);
    }
  }

  lemma RemembersItself(row: Row, rows: seq<Row>)
    requires row in rows
    ensures Remembers(row, rows)
  {
    assert Extends(Recorded(row.history), Recorded(row.history));
  }

  /** From any save to any later one, a position with a history keeps its place in the chart, and no
      entry is dropped, moved or altered except to close an open one. */
  lemma HistoryIsKept(charts: seq<seq<Row>>, saves: seq<Save>, i: nat, j: nat, before: Row)
    requires IsRun(charts, saves) && i <= j < |charts|
    requires before in charts[i] && Recorded(before.history) != []
    ensures Remembers(before, charts[j])
  {
    RemembersItself(before, charts[i]);
    forall k | i <= k < j ensures Preserves(charts[k], charts[k + 1]) {
      RunPreserves(charts, saves, k);
    }
    KeptAlong(charts, i, j, before);
  }

  /** After the first save, at every point of every run, the open entries of each position are its
      occupants, once each: also of positions that were held before any history was kept. */
  lemma OccupantsAreOpenEntries(charts: seq<seq<Row>>, saves: seq<Save>, i: nat, row: Row)
    requires IsRun(charts, saves) && 0 < i < |charts| && row in charts[i] && row.occupants.Some?
    ensures row.history.Some? && OpenAre(row.history.value, row.occupants.value)
  {
    RunIsGood(charts, saves, i);
  }

  /** Nor can a position that is held, or reported to, leave the chart. */
  lemma HeldPositionsStay(previous: seq<Row>, save: Save, next: seq<Row>, row: Row)
    requires GoodChart(previous) && Step(previous, save, next) && row in previous
    requires Listed(row.occupants) != [] || row.employee != ""
             || exists other :: other in previous && other.parent == row.code
    ensures row.code in Codes(next)
  {
    var code := row.code;
    assert code in Codes(previous);
    DeletableExactly(previous, code);
    FirstRowFinds(previous, code);
    OneRowPerCode(previous, row, FirstRow(previous, code).value);
    SameCodes(previous, AllNormalized(save.rows), save.stamp);
  }

  /* ---------- sent histories ---------- */

  predicate SameBut(a: Row, b: Row) {
    b == a.(history := b.history)
  }

  /** Two saves that differ in nothing but the histories their rows come with. */
  ghost predicate SameIntent(a: Save, b: Save) {
    && a.stamp == b.stamp && |a.rows| == |b.rows|
    && forall i | 0 <= i < |a.rows| :: SameBut(a.rows[i], b.rows[i])
  }

  ghost predicate SameButHistories(x: seq<Row>, y: seq<Row>) {
    |x| == |y| && forall i | 0 <= i < |x| :: SameBut(x[i], y[i])
  }

  lemma RowsAlike(x: seq<Row>, y: seq<Row>, row: Row) returns (other: Row)
    requires SameButHistories(x, y) && row in x
    ensures other in y && SameBut(row, other)
  {
    var i :| 0 <= i < |x| && x[i] == row;
    other := y[i];
  }

  /** The checks of a chart look at no history. */
  lemma ChecksIgnoreHistories(x: seq<Row>, y: seq<Row>)
    requires SameButHistories(x, y) && ValidChart(x)
    ensures ValidChart(y) && Codes(y) == Codes(x)
  {
    SubsetOfParents(x, y);
    SubsetOfParents(y, x);
    assert ParentGraph(x) == ParentGraph(y);
    forall row | row in y ensures RowOk(row) {
      var other := RowsAlike(y, x, row);
    }
    forall row | row in y && row.parent != "" ensures row.parent in Codes(y) {
      var other := RowsAlike(y, x, row);
    }
    assert CodesDistinct(y) && EmployeesDistinct(y) by {
      assert forall i | 0 <= i < |x| :: SameBut(x[i], y[i]);
    }
  }

  lemma SubsetOfParents(x: seq<Row>, y: seq<Row>)
    requires SameButHistories(x, y)
    ensures Codes(x) <= Codes(y) && ParentGraph(x) <= ParentGraph(y)
    ensures SameButHistories(y, x)
  {
    forall code | code in Codes(x) ensures code in Codes(y) {
      var row :| row in x && row.code == code;
      var other := RowsAlike(x, y, row);
    }
    forall e | e in ParentGraph(x) ensures e in ParentGraph(y) {
      var row :| row in x && row.parent != "" && (row.code, row.parent) == e;
      var other := RowsAlike(x, y, row);
    }
  }

  lemma SameIntentSameStep(previous: seq<Row>, a: Save, b: Save, next: seq<Row>)
    requires SameIntent(a, b) && Step(previous, a, next)
    ensures Step(previous, b, next)
  {
    var x, y := AllNormalized(a.rows), AllNormalized(b.rows);
    forall i | 0 <= i < |x|
      ensures SameBut(x[i], y[i]) && Against(previous, y[i], b.stamp) == Against(previous, x[i], a.stamp)
    {
      assert SameBut(a.rows[i], b.rows[i]);
      SentHistoryIsIgnored(a.rows[i], b.rows[i].history, LastRow(previous, x[i].code), a.stamp);
    }
    ChecksIgnoreHistories(x, y);
    forall i | 0 <= i < |x| ensures KeptRow(previous, x[i], a.stamp) == KeptRow(previous, y[i], b.stamp) {
      assert Against(previous, x[i], a.stamp).Kept?;
    }
    assert AllReconciled(previous, y, b.stamp) == AllReconciled(previous, x, a.stamp);
  }

  /** Over whole runs: with whatever other histories clients had sent, the same saves would have been
      accepted and the same charts stored. */
  lemma SentHistoriesNeverMatter(charts: seq<seq<Row>>, saves: seq<Save>, others: seq<Save>)
    requires IsRun(charts, saves) && |saves| == |others|
    requires forall k | 0 <= k < |saves| :: SameIntent(saves[k], others[k])
    ensures IsRun(charts, others)
  {
    forall k | 0 <= k < |others| ensures Step(charts[k], others[k], charts[k + 1]) {
      SameIntentSameStep(charts[k], saves[k], others[k], charts[k + 1]);
    }
  }
}
