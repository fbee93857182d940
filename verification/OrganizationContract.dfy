/** The rows of an organization chart and the checks they pass before a save
    (asoud_erp/services/organization_contract.py:10-57). */
module OrganizationContract {
  import opened Basics
  import opened Paths

  /** One period of an employee in a position. An empty end counts as no end. */
  datatype Entry = Entry(employee: string, startedAt: Option<string>, endedAt: Option<string>,
                         assignedBy: Option<string>, endedBy: Option<string>, legacy: bool)

  /** A row with occupants is of the second version; without them it names one employee or none. */
  datatype Row = Row(code: string, title: string, parent: string, department: string, employee: string,
                     occupants: Option<seq<string>>, capacity: int, history: Option<seq<Entry>>)

  /* ---------- normalization ---------- */

  function StripLeft(s: string): string {
    if s != [] && IsSpace(s[0]) then StripLeft(s[1..]) else s
  }

  function StripRight(s: string): string {
    if s != [] && IsSpace(s[|s| - 1]) then StripRight(s[..|s| - 1]) else s
  }

  function Strip(s: string): string {
    StripRight(StripLeft(s))
  }

  function StripAll(s: seq<string>): (r: seq<string>)
    ensures |r| == |s|
  {
    seq(|s|, i requires 0 <= i < |s| => Strip(s[i]))
  }

  function Normalized(row: Row): Row {
    Row(Strip(row.code), Strip(row.title), Strip(row.parent), Strip(row.department),
        if row.occupants.Some? then "" else Strip(row.employee),
        if row.occupants.Some? then Some(StripAll(row.occupants.value)) else None,
        if row.occupants.Some? then row.capacity else 1,
        if row.occupants.Some? then row.history else None)
  }

  function AllNormalized(rows: seq<Row>): (r: seq<Row>)
    ensures |r| == |rows|
  {
    seq(|rows|, i requires 0 <= i < |rows| => Normalized(rows[i]))
  }

  /** The rules a row keeps by itself. */
  predicate RowOk(row: Row) {
    && row.code != "" && row.title != ""
    && (row.occupants.Some? ==>
          (forall x | x in row.occupants.value :: x != "")
          && Distinct(row.occupants.value) && 1 <= row.capacity && |row.occupants.value| <= row.capacity)
  }

  /* ---------- the rules between rows ---------- */

  predicate CodesDistinct(rows: seq<Row>) {
    forall i, j | 0 <= i < j < |rows| :: rows[i].code != rows[j].code
  }

  predicate EmployeesDistinct(rows: seq<Row>) {
    forall i, j | 0 <= i < j < |rows| && rows[i].employee != "" :: rows[i].employee != rows[j].employee
  }

  function Codes(rows: seq<Row>): set<string> {
    set row | row in rows :: row.code
  }

  function Employees(rows: seq<Row>): set<string> {
    set row | row in rows && row.employee != "" :: row.employee
  }

  predicate ParentsExist(rows: seq<Row>) {
    forall row | row in rows && row.parent != "" :: row.parent in Codes(rows)
  }

  ghost function ParentGraph(rows: seq<Row>): Graph<string> {
    set row | row in rows && row.parent != "" :: (row.code, row.parent)
  }

  ghost predicate ValidChart(rows: seq<Row>) {
    && |rows| <= 500
    && (forall row | row in rows :: RowOk(row))
    && CodesDistinct(rows) && EmployeesDistinct(rows) && ParentsExist(rows) && Acyclic(ParentGraph(rows))
  }

  /* ---------- the first loop: rows one by one ---------- */

  ghost predicate RowsFit(rows: seq<Row>) {
    (forall row | row in rows :: RowOk(row)) && CodesDistinct(rows) && EmployeesDistinct(rows)
  }

  lemma OneMoreFits(rows: seq<Row>, row: Row)
    requires RowsFit(rows)
    ensures RowsFit(rows + [row]) <==>
      RowOk(row) && row.code !in Codes(rows) && row.employee !in Employees(rows)
    ensures Codes(rows + [row]) == Codes(rows) + {row.code}
    ensures Employees(rows + [row]) == Employees(rows) + if row.employee != "" then {row.employee} else {}
  {
    var more := rows + [row];
    assert forall i | 0 <= i < |rows| :: more[i] == rows[i];
    assert more[|rows|] == row;
    assert forall r :: r in more <==> r in rows || r == row;
    if RowsFit(more) {
      assert forall i | 0 <= i < |rows| :: more[i].code != more[|rows|].code;
      assert row in more;
    }
  }

  lemma PrefixFits(rows: seq<Row>, n: nat)
    requires n <= |rows| && RowsFit(rows)
    ensures RowsFit(rows[..n])
  {
  }

  lemma NextRow(all: seq<Row>, i: nat, rows: seq<Row>)
    requires i < |all| && rows == all[..i] && RowsFit(rows)
    ensures all[..i + 1] == rows + [all[i]]
    ensures Codes(all[..i + 1]) == Codes(rows) + {all[i].code}
    ensures Employees(all[..i + 1]) == Employees(rows) + if all[i].employee != "" then {all[i].employee} else {}
    ensures var fits := RowOk(all[i]) && all[i].code !in Codes(rows) && all[i].employee !in Employees(rows);
            (fits ==> RowsFit(rows + [all[i]])) && (!fits ==> !RowsFit(all))
  {
    OneMoreFits(rows, all[i]);
    assert all[..i + 1] == rows + [all[i]];
    if RowsFit(all) {
      PrefixFits(all, i + 1);
    }
  }

  method CheckRows(sources: seq<Row>) returns (normalized: Option<seq<Row>>)
    ensures normalized == if RowsFit(AllNormalized(sources)) then Some(AllNormalized(sources)) else None
  {
    var rows: seq<Row> := [];
    var positions: set<string> := {};
    var employees: set<string> := {};
    for i := 0 to |sources|
      invariant rows == AllNormalized(sources)[..i] && RowsFit(rows)
      invariant positions == Codes(rows)
      invariant employees == Employees(rows)
    {
      var row := Normalized(sources[i]);
      NextRow(AllNormalized(sources), i, rows);
      if !RowOk(row) || row.code in positions || row.employee in employees {
        return None;
      }
      if row.employee != "" {
        employees := employees + {row.employee};
      }
      positions := positions + {row.code};
      rows := rows + [row];
    }
    assert AllNormalized(sources)[..|sources|] == AllNormalized(sources);
    normalized := Some(rows);
  }

  /* ---------- the second loop: parents ---------- */

  function RowOf(rows: seq<Row>, code: string): Row
    requires code in Codes(rows)
  {
    if rows[0].code == code then rows[0] else RowOf(rows[1..], code)
  }

  lemma {:induction false} RowOfFinds(rows: seq<Row>, code: string)
    requires code in Codes(rows)
    ensures RowOf(rows, code) in rows && RowOf(rows, code).code == code
  {
    if rows[0].code != code {
      RowOfFinds(rows[1..], code);
    }
  }

  ghost predicate Functional(g: Graph<string>) {
    forall e, f | e in g && f in g && e.0 == f.0 :: e == f
  }

  lemma ParentIsFunctional(rows: seq<Row>)
    requires CodesDistinct(rows)
    ensures Functional(ParentGraph(rows))
  {
  }

  ghost predicate Simple(p: seq<string>) {
    forall i, j | 0 <= i < j < |p| :: p[i] != p[j]
  }

  /** In a functional graph every path from the start of p runs along p and stops where p stops. */
  lemma {:induction false} FollowsPath(g: Graph<string>, p: seq<string>, q: seq<string>)
    requires Functional(g) && IsPath(g, p) && IsPath(g, q) && p[0] == q[0]
    requires forall e | e in g :: e.0 != p[|p| - 1]
    ensures |q| <= |p| && q == p[..|q|]
  {
    if |q| > 1 {
      assert (q[0], q[1]) in g;
      assert |p| > 1;
      assert (p[0], p[1]) in g;
      FollowsPath(g, p[1..], q[1..]);
    }
  }

  lemma EndedWalkHasNoCycle(g: Graph<string>, p: seq<string>)
    requires Functional(g) && IsPath(g, p) && Simple(p)
    requires forall e | e in g :: e.0 != p[|p| - 1]
    ensures !ReachesVia(g, p[0], p[0])
  {
    if ReachesVia(g, p[0], p[0]) {
      var q :| PathBetween(g, q, p[0], p[0]) && |q| >= 2;
      FollowsPath(g, p, q);
    }
  }

  /** The walk from one row up to its root. */
  method WalkUp(rows: seq<Row>, code: string) returns (ok: bool)
    requires CodesDistinct(rows) && code in Codes(rows)
    ensures ok ==> RowOf(rows, code).parent == "" || RowOf(rows, code).parent in Codes(rows)
    ensures ok ==> !ReachesVia(ParentGraph(rows), code, code)
    ensures !ok ==> !ParentsExist(rows) || !Acyclic(ParentGraph(rows))
  {
    var visited, parent := {code}, RowOf(rows, code).parent;
    ghost var g := ParentGraph(rows);
    ghost var p := [code];
    ParentIsFunctional(rows);
    while parent != ""
      invariant IsPath(g, p) && Simple(p) && p[0] == code && p[|p| - 1] in Codes(rows)
      invariant visited == (set x | x in p) && visited <= Codes(rows)
      invariant parent == RowOf(rows, p[|p| - 1]).parent
      invariant |p| > 1 ==> RowOf(rows, code).parent in Codes(rows)
      decreases Codes(rows) - visited
    {
      ghost var last := p[|p| - 1];
      RowOfFinds(rows, last);
      if parent !in Codes(rows) {
        return false;
      }
      assert (last, parent) in g;
      if parent in visited {
        ghost var i :| 0 <= i < |p| && p[i] == parent;
        assert PathBetween(g, p[i..] + [parent], parent, parent);
        assert ReachesVia(g, parent, parent);
        return false;
      }
      p := p + [parent];
      visited := visited + {parent};
      parent := RowOf(rows, parent).parent;
    }
    ghost var last := p[|p| - 1];
    RowOfFinds(rows, last);
    RootHasNoParent(rows, last);
    EndedWalkHasNoCycle(g, p);
    ok := true;
  }

  lemma RootHasNoParent(rows: seq<Row>, code: string)
    requires CodesDistinct(rows) && code in Codes(rows) && RowOf(rows, code).parent == ""
    ensures forall e | e in ParentGraph(rows) :: e.0 != code
  {
    RowOfFinds(rows, code);
  }

  lemma RowOfIndex(rows: seq<Row>, i: nat)
    requires CodesDistinct(rows) && i < |rows|
    ensures rows[i].code in Codes(rows) && RowOf(rows, rows[i].code) == rows[i]
  {
    assert rows[i] in rows;
    RowOfFinds(rows, rows[i].code);
  }

  lemma CycleStartsAtRow(rows: seq<Row>, a: string)
    requires ReachesVia(ParentGraph(rows), a, a)
    ensures exists j :: 0 <= j < |rows| && rows[j].code == a
  {
    var p :| PathBetween(ParentGraph(rows), p, a, a) && |p| >= 2;
    assert (p[0], p[1]) in ParentGraph(rows);
  }

  method CheckParents(rows: seq<Row>) returns (ok: bool)
    requires CodesDistinct(rows)
    ensures ok <==> ParentsExist(rows) && Acyclic(ParentGraph(rows))
  {
    ghost var g := ParentGraph(rows);
    for i := 0 to |rows|
      invariant forall j | 0 <= j < i :: rows[j].parent == "" || rows[j].parent in Codes(rows)
      invariant forall j | 0 <= j < i :: !ReachesVia(g, rows[j].code, rows[j].code)
    {
      RowOfIndex(rows, i);
      ok := WalkUp(rows, rows[i].code);
      if !ok {
        return;
      }
    }
    forall a ensures !ReachesVia(g, a, a) {
      if ReachesVia(g, a, a) {
        CycleStartsAtRow(rows, a);
      }
    }
    ok := true;
  }

  /** Rows are accepted exactly when they form a valid chart, and come back normalized. */
  method ValidateRows(sources: seq<Row>) returns (normalized: Option<seq<Row>>)
    ensures normalized.Some? <==> ValidChart(AllNormalized(sources))
    ensures normalized.Some? ==> normalized.value == AllNormalized(sources)
  {
    if |sources| > 500 {
      return None;
    }
    normalized := CheckRows(sources);
    if normalized.Some? {
      var ok := CheckParents(normalized.value);
      if !ok {
        normalized := None;
      }
    }
  }

  /* ---------- what is accepted, as it was sent ---------- */

  predicate AllSpaces(s: string) {
    forall c | c in s :: IsSpace(c)
  }

  lemma {:induction false} StripLeftCuts(s: string) returns (cut: string)
    ensures s == cut + StripLeft(s) && AllSpaces(cut)
    ensures StripLeft(s) != [] ==> !IsSpace(StripLeft(s)[0])
  {
    if s != [] && IsSpace(s[0]) {
      var rest := StripLeftCuts(s[1..]);
      cut := [s[0]] + rest;
      assert s == [s[0]] + s[1..];
    } else {
      cut := [];
    }
  }

  lemma {:induction false} StripRightCuts(s: string) returns (cut: string)
    ensures s == StripRight(s) + cut && AllSpaces(cut)
    ensures StripRight(s) != [] ==> !IsSpace(StripRight(s)[|StripRight(s)| - 1])
    ensures StripRight(s) != [] ==> s != [] && StripRight(s)[0] == s[0]
  {
    if s != [] && IsSpace(s[|s| - 1]) {
      var before := StripRightCuts(s[..|s| - 1]);
      cut := before + [s[|s| - 1]];
      assert s == s[..|s| - 1] + [s[|s| - 1]];
    } else {
      cut := [];
    }
  }

  /** Stripping cuts spaces from both ends and nothing else. */
  lemma StripCuts(s: string) returns (left: string, right: string)
    ensures s == left + Strip(s) + right && AllSpaces(left) && AllSpaces(right)
    ensures Strip(s) != "" ==> !IsSpace(Strip(s)[0]) && !IsSpace(Strip(s)[|Strip(s)| - 1])
  {
    left := StripLeftCuts(s);
    right := StripRightCuts(StripLeft(s));
    assert left + Strip(s) + right == left + (Strip(s) + right);
  }

  /** A row that is sent is kept but for spaces around its texts. One with occupants names no employee
      besides; one without has room for one and no history. */
  lemma NormalizedKeeps(row: Row)
    ensures var n := Normalized(row);
      && n.code == Strip(row.code) && n.title == Strip(row.title)
      && n.parent == Strip(row.parent) && n.department == Strip(row.department)
      && (match row.occupants
          case None => n.employee == Strip(row.employee) && n.occupants == None && n.capacity == 1 && n.history == None
          case Some(occupants) =>
            && n.employee == "" && n.capacity == row.capacity && n.history == row.history
            && n.occupants.Some? && |n.occupants.value| == |occupants|
            && forall i | 0 <= i < |occupants| :: n.occupants.value[i] == Strip(occupants[i]))
  {
  }

  /** The rows that pass by themselves, in terms of what was sent. */
  lemma RowAccepted(row: Row)
    ensures RowOk(Normalized(row)) <==>
      && Strip(row.code) != "" && Strip(row.title) != ""
      && (match row.occupants
          case None => true
          case Some(occupants) =>
            && (forall i | 0 <= i < |occupants| :: Strip(occupants[i]) != "")
            && (forall i, j | 0 <= i < j < |occupants| :: Strip(occupants[i]) != Strip(occupants[j]))
            && row.capacity >= 1 && row.capacity >= |occupants|)
  {
    if row.occupants.Some? {
      var sent, kept := row.occupants.value, Normalized(row).occupants.value;
      assert (forall x | x in kept :: x != "") <==> forall i | 0 <= i < |sent| :: Strip(sent[i]) != "" by {
        assert forall i | 0 <= i < |sent| :: kept[i] == Strip(sent[i]) && kept[i] in kept;
      }
      assert Distinct(kept) <==> forall i, j | 0 <= i < j < |sent| :: Strip(sent[i]) != Strip(sent[j]) by {
        assert forall i | 0 <= i < |sent| :: kept[i] == Strip(sent[i]);
      }
    }
  }
}
