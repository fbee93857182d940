/** Server-owned assignment history of the positions of a chart
    (asoud_erp/services/organization_assignments.py:5-54), over any sequence of accepted saves. */
module OrganizationAssignments {
  import opened Basics
  import opened OrganizationContract

  datatype Refusal = PositionNotEmpty | OldClient | LegacyAssignmentErased

  datatype Stamp = Stamp(time: string, actor: string)

  /* ---------- deletion ---------- */

  datatype Review = Review(occupants: nat, subordinates: nat, history: nat)

  /** The first row with this code. */
  function FirstRow(rows: seq<Row>, code: string): Option<Row> {
    if rows == [] then None else if rows[0].code == code then Some(rows[0]) else FirstRow(rows[1..], code)
  }

  /** The last row with this code: what a dictionary keyed by code keeps. */
  function LastRow(rows: seq<Row>, code: string): Option<Row> {
    if rows == [] then None
    else if rows[|rows| - 1].code == code then Some(rows[|rows| - 1])
    else LastRow(rows[..|rows| - 1], code)
  }

  function Listed(occupants: Option<seq<string>>): seq<string> {
    if occupants.Some? then occupants.value else []
  }

  function Recorded(history: Option<seq<Entry>>): seq<Entry> {
    if history.Some? then history.value else []
  }

  function Subordinates(rows: seq<Row>, code: string): nat {
    if rows == [] then 0 else (if rows[0].parent == code then 1 else 0) + Subordinates(rows[1..], code)
  }

  /** None is the raised error for an unknown position. */
  function DeletionReview(rows: seq<Row>, code: string): Option<Review> {
    match FirstRow(rows, code)
    case None => None
    case Some(p) =>
      var occupants := (set x | x in Listed(p.occupants)) + (if p.employee != "" then {p.employee} else {});
      Some(Review(|occupants|, Subordinates(rows, code), |Recorded(p.history)|))
  }

  predicate Deletable(rows: seq<Row>, code: string) {
    var review := DeletionReview(rows, code);
    review.Some? && review.value.occupants == 0 && review.value.subordinates == 0 && review.value.history == 0
  }

  lemma {:induction false} SubordinatesExist(rows: seq<Row>, code: string)
    ensures Subordinates(rows, code) == 0 <==> forall row | row in rows :: row.parent != code
  {
    if rows != [] {
      SubordinatesExist(rows[1..], code);
    }
  }

  function Parents(rows: seq<Row>): (r: seq<string>)
    ensures |r| == |rows|
  {
    seq(|rows|, i requires 0 <= i < |rows| => rows[i].parent)
  }

  /** Every row that reports to a position counts once. */
  lemma {:induction false} SubordinatesCount(rows: seq<Row>, code: string)
    ensures Subordinates(rows, code) == multiset(Parents(rows))[code]
  {
    if rows != [] {
      SubordinatesCount(rows[1..], code);
      assert Parents(rows) == [rows[0].parent] + Parents(rows[1..]);
    }
  }

  lemma {:induction false} FirstRowFinds(rows: seq<Row>, code: string)
    ensures FirstRow(rows, code).Some? <==> code in Codes(rows)
    ensures FirstRow(rows, code).Some? ==> FirstRow(rows, code).value in rows && FirstRow(rows, code).value.code == code
  {
    if rows != [] {
      FirstRowFinds(rows[1..], code);
      assert forall row :: row in rows <==> row == rows[0] || row in rows[1..];
    }
  }

  /** A position may go exactly when nobody holds it, nobody ever did and nobody reports to it. */
  lemma DeletableExactly(rows: seq<Row>, code: string)
    requires code in Codes(rows)
    ensures FirstRow(rows, code).Some?
    ensures var p := FirstRow(rows, code).value;
            Deletable(rows, code) <==>
              Listed(p.occupants) == [] && p.employee == "" && Recorded(p.history) == []
              && forall row | row in rows :: row.parent != code
    ensures var p, review := FirstRow(rows, code).value, DeletionReview(rows, code);
      && review.Some? && review.value.history == |Recorded(p.history)|
      && (review.value.occupants == 0 <==> Listed(p.occupants) == [] && p.employee == "")
      && (review.value.subordinates == 0 <==> forall row | row in rows :: row.parent != code)
  {
    FirstRowFinds(rows, code);
    SubordinatesExist(rows, code);
    var p := FirstRow(rows, code).value;
    var occupants := (set x | x in Listed(p.occupants)) + (if p.employee != "" then {p.employee} else {});
    assert Listed(p.occupants) != [] ==> Listed(p.occupants)[0] in occupants;
  }

  /* ---------- the history of one position ---------- */

  predicate Open(e: Entry) {
    e.endedAt == None || e.endedAt == Some("")
  }

  function Started(employee: string, stamp: Stamp): Entry {
    Entry(employee, Some(stamp.time), None, Some(stamp.actor), None, false)
  }

  /** An assignment from before there was a history: its start is unknown. */
  function Unknown(employee: string): Entry {
    Entry(employee, None, None, None, None, true)
  }

  function Converted(prior: seq<string>): (r: seq<Entry>)
    ensures |r| == |prior|
  {
    seq(|prior|, i requires 0 <= i < |prior| => Unknown(prior[i]))
  }

  function ClosedEntry(e: Entry, occupants: seq<string>, stamp: Stamp): Entry {
    if Open(e) && e.employee !in occupants then e.(endedAt := Some(stamp.time), endedBy := Some(stamp.actor)) else e
  }

  function Closed(history: seq<Entry>, occupants: seq<string>, stamp: Stamp): (r: seq<Entry>)
    ensures |r| == |history|
  {
    seq(|history|, i requires 0 <= i < |history| => ClosedEntry(history[i], occupants, stamp))
  }

  function Opened(occupants: seq<string>, prior: seq<string>, stamp: Stamp): seq<Entry> {
    if occupants == [] then [] else
      var last := occupants[|occupants| - 1];
      Opened(occupants[..|occupants| - 1], prior, stamp) + (if last in prior then [] else [Started(last, stamp)])
  }

  /** The occupants before the save, whichever version the row was. */
  function PriorOf(before: Option<Row>): seq<string> {
    if before.None? then []
    else if before.value.occupants.Some? then before.value.occupants.value
    else if before.value.employee != "" then [before.value.employee] else []
  }

  function HistoryOf(before: Option<Row>): seq<Entry> {
    var recorded := if before.None? then [] else Recorded(before.value.history);
    if recorded == [] then Converted(PriorOf(before)) else recorded
  }

  function NewHistory(before: Option<Row>, occupants: seq<string>, stamp: Stamp): seq<Entry> {
    Closed(HistoryOf(before), occupants, stamp) + Opened(occupants, PriorOf(before), stamp)
  }

  datatype Outcome<T> = Kept(value: T) | Refused(reason: Refusal)

  /** One row of a save against the row stored before. */
  function Reconciled(row: Row, before: Option<Row>, stamp: Stamp): Outcome<Row> {
    if row.occupants.Some? then Kept(row.(history := Some(NewHistory(before, row.occupants.value, stamp))))
    else if before.Some? && before.value.occupants.Some? then Refused(OldClient)
    else if before.Some? && before.value.employee != "" && before.value.employee != row.employee
    then Refused(LegacyAssignmentErased)
    else Kept(row)
  }

  /* ---------- the loops ---------- */

  method BuildHistory(before: Option<Row>, occupants: seq<string>, stamp: Stamp) returns (history: seq<Entry>)
    ensures history == NewHistory(before, occupants, stamp)
  {
    history := if before.None? then [] else Recorded(before.value.history);
    var prior := PriorOf(before);
    if prior != [] && history == [] {
      history := Converted(prior);
    }
    ghost var start := history;
    assert start == HistoryOf(before);
    for i := 0 to |history|
      invariant |history| == |start|
      invariant forall j | 0 <= j < i :: history[j] == ClosedEntry(start[j], occupants, stamp)
      invariant forall j | i <= j < |start| :: history[j] == start[j]
    {
      if Open(history[i]) && history[i].employee !in occupants {
        history := history[i := history[i].(endedAt := Some(stamp.time), endedBy := Some(stamp.actor))];
      }
    }
    ghost var closed := history;
    assert closed == Closed(start, occupants, stamp);
    for i := 0 to |occupants|
      invariant history == closed + Opened(occupants[..i], prior, stamp)
    {
      assert occupants[..i + 1][..i] == occupants[..i];
      if occupants[i] !in prior {
        history := history + [Started(occupants[i], stamp)];
      }
    }
    assert occupants[..|occupants|] == occupants;
  }

  /** Every position that a save drops may be deleted. */
  ghost predicate DeletionsAllowed(previous: seq<Row>, rows: seq<Row>) {
    forall code | code in Codes(previous) && code !in Codes(rows) :: Deletable(previous, code)
  }

  method CheckDeletions(previous: seq<Row>, rows: seq<Row>) returns (ok: bool)
    ensures ok <==> DeletionsAllowed(previous, rows)
  {
    var kept := Codes(rows);
    for i := 0 to |previous|
      invariant forall j | 0 <= j < i && previous[j].code !in kept :: Deletable(previous, previous[j].code)
    {
      var code := previous[i].code;
      if code !in kept && !Deletable(previous, code) {
        assert code in Codes(previous);
        return false;
      }
    }
    ok := true;
  }

  function Against(previous: seq<Row>, row: Row, stamp: Stamp): Outcome<Row> {
    Reconciled(row, LastRow(previous, row.code), stamp)
  }

  function KeptRow(previous: seq<Row>, row: Row, stamp: Stamp): Row {
    var outcome := Against(previous, row, stamp);
    if outcome.Kept? then outcome.value else row
  }

  function AllReconciled(previous: seq<Row>, rows: seq<Row>, stamp: Stamp): (r: seq<Row>)
    ensures |r| == |rows|
  {
    seq(|rows|, i requires 0 <= i < |rows| => KeptRow(previous, rows[i], stamp))
  }

  ghost predicate Accepts(previous: seq<Row>, rows: seq<Row>, stamp: Stamp) {
    && DeletionsAllowed(previous, rows)
    && forall i | 0 <= i < |rows| :: Against(previous, rows[i], stamp).Kept?
  }

  /** The refusal raised: for a dropped position first, then for the first row that is refused. */
  ghost predicate RefusedFor(previous: seq<Row>, rows: seq<Row>, stamp: Stamp, reason: Refusal) {
    if !DeletionsAllowed(previous, rows) then reason == PositionNotEmpty else
      exists i :: 0 <= i < |rows| && Against(previous, rows[i], stamp) == Refused(reason)
                  && forall j | 0 <= j < i :: Against(previous, rows[j], stamp).Kept?
  }

  /** `reconcile`: the rows are completed in place. */
  method Reconcile(rows: array<Row>, previous: seq<Row>, stamp: Stamp) returns (refusal: Option<Refusal>)
    modifies rows
    ensures refusal == None <==> Accepts(previous, old(rows[..]), stamp)
    ensures refusal == None ==> rows[..] == AllReconciled(previous, old(rows[..]), stamp)
    ensures refusal.Some? ==> RefusedFor(previous, old(rows[..]), stamp, refusal.value)
    ensures forall i | 0 <= i < rows.Length ::
      rows[i] == old(rows[i]) || rows[i] == KeptRow(previous, old(rows[i]), stamp)
  {
    ghost var sent := rows[..];
    var allowed := CheckDeletions(previous, rows[..]);
    if !allowed {
      return Some(PositionNotEmpty);
    }
    for i := 0 to rows.Length
      invariant forall j | 0 <= j < i ::
        Against(previous, sent[j], stamp).Kept? && rows[j] == KeptRow(previous, sent[j], stamp)
      invariant forall j | i <= j < rows.Length :: rows[j] == sent[j]
    {
      var row, before := rows[i], LastRow(previous, rows[i].code);
      assert row == sent[i];
      if before.Some? && before.value.occupants.Some? && row.occupants.None? {
        assert Against(previous, sent[i], stamp) == Refused(OldClient);
        return Some(OldClient);
      }
      if row.occupants.None? {
        if before.Some? && before.value.employee != "" && before.value.employee != row.employee {
          assert Against(previous, sent[i], stamp) == Refused(LegacyAssignmentErased);
          return Some(LegacyAssignmentErased);
        }
        continue;
      }
      var history := BuildHistory(before, row.occupants.value, stamp);
      rows[i] := row.(history := Some(history));
    }
    assert forall i | 0 <= i < |sent| :: rows[i] == AllReconciled(previous, sent, stamp)[i];
    refusal := None;
  }
}
