/** Copying a workflow template: every stage gets a new identity and every reference follows
    (asoud_erp/services/workflow_template_copy.py:18-60). The copy is the same graph. */
module WorkflowTemplateCopy {
  import opened Basics
  import opened Json
  import opened Renamings
  import opened Paths
  import opened WorkflowContract

  type Identities = map<string, string>

  function Renamed(s: string, ids: Identities): string {
    if s in ids then ids[s] else s
  }

  /* ---------- references inside configurations ---------- */

  function Rebind(v: Value, ids: Identities): Value
    decreases v, 0
  {
    match v
    case Obj(fields) => Obj(RebindFields(fields, ids))
    case Arr(items) => Arr(RebindItems(items, ids))
    case Str(s) => Str(Renamed(s, ids))
    case _ => v
  }

  function RebindFields(fields: seq<Field>, ids: Identities): (r: seq<Field>)
    ensures |r| == |fields|
    decreases fields, 1
  {
    if fields == [] then [] else [Field(fields[0].key, Rebind(fields[0].value, ids))] + RebindFields(fields[1..], ids)
  }

  function RebindItems(items: seq<Value>, ids: Identities): (r: seq<Value>)
    ensures |r| == |items|
    decreases items, 1
  {
    if items == [] then [] else [Rebind(items[0], ids)] + RebindItems(items[1..], ids)
  }

  /** The strings a value holds, keys excepted. */
  function Strings(v: Value): set<string>
    decreases v, 0
  {
    match v
    case Obj(fields) => StringsOfFields(fields)
    case Arr(items) => StringsOfItems(items)
    case Str(s) => {s}
    case _ => {}
  }

  function StringsOfFields(fields: seq<Field>): set<string>
    decreases fields, 1
  {
    if fields == [] then {} else Strings(fields[0].value) + StringsOfFields(fields[1..])
  }

  function StringsOfItems(items: seq<Value>): set<string>
    decreases items, 1
  {
    if items == [] then {} else Strings(items[0]) + StringsOfItems(items[1..])
  }

  predicate Untouched(strings: set<string>, ids: Identities) {
    forall s | s in strings :: Renamed(s, ids) == s
  }

  /** Rebinding leaves a value alone exactly when it holds no string that is renamed. */
  lemma {:induction false} RebindFixes(v: Value, ids: Identities)
    ensures Rebind(v, ids) == v <==> Untouched(Strings(v), ids)
    decreases v, 0
  {
    match v
    case Obj(fields) => RebindFixesFields(fields, ids);
    case Arr(items) => RebindFixesItems(items, ids);
    case _ =>
  }

  lemma {:induction false} RebindFixesFields(fields: seq<Field>, ids: Identities)
    ensures RebindFields(fields, ids) == fields <==> Untouched(StringsOfFields(fields), ids)
    decreases fields, 1
  {
    if fields != [] {
      RebindFixes(fields[0].value, ids);
      RebindFixesFields(fields[1..], ids);
      var r := RebindFields(fields, ids);
      assert r[1..] == RebindFields(fields[1..], ids) && fields == [fields[0]] + fields[1..];
    }
  }

  lemma {:induction false} RebindFixesItems(items: seq<Value>, ids: Identities)
    ensures RebindItems(items, ids) == items <==> Untouched(StringsOfItems(items), ids)
    decreases items, 1
  {
    if items != [] {
      RebindFixes(items[0], ids);
      RebindFixesItems(items[1..], ids);
      var r := RebindItems(items, ids);
      assert r[1..] == RebindItems(items[1..], ids) && items == [items[0]] + items[1..];
    }
  }

  function RenamedAll(strings: set<string>, ids: Identities): set<string> {
    set s | s in strings :: Renamed(s, ids)
  }

  /** The strings of a rebound value are the renamed ones. */
  lemma {:induction false} RebindStrings(v: Value, ids: Identities)
    ensures Strings(Rebind(v, ids)) == RenamedAll(Strings(v), ids)
    decreases v, 0
  {
    match v
    case Obj(fields) => RebindStringsOfFields(fields, ids);
    case Arr(items) => RebindStringsOfItems(items, ids);
    case _ =>
  }

  lemma {:induction false} RebindStringsOfFields(fields: seq<Field>, ids: Identities)
    ensures StringsOfFields(RebindFields(fields, ids)) == RenamedAll(StringsOfFields(fields), ids)
    decreases fields, 1
  {
    if fields != [] {
      RebindStrings(fields[0].value, ids);
      RebindStringsOfFields(fields[1..], ids);
      assert RebindFields(fields, ids)[1..] == RebindFields(fields[1..], ids);
    }
  }

  lemma {:induction false} RebindStringsOfItems(items: seq<Value>, ids: Identities)
    ensures StringsOfItems(RebindItems(items, ids)) == RenamedAll(StringsOfItems(items), ids)
    decreases items, 1
  {
    if items != [] {
      RebindStrings(items[0], ids);
      RebindStringsOfItems(items[1..], ids);
      assert RebindItems(items, ids)[1..] == RebindItems(items[1..], ids);
    }
  }

  /** `back` undoes `ids` on these strings. */
  predicate Undoes(back: Identities, ids: Identities, strings: set<string>) {
    forall s | s in strings :: Renamed(Renamed(s, ids), back) == s
  }

  /** A renaming that can be undone on the strings of a value can be undone on the value. */
  lemma {:induction false} RebindBack(v: Value, ids: Identities, back: Identities)
    requires Undoes(back, ids, Strings(v))
    ensures Rebind(Rebind(v, ids), back) == v
    decreases v, 0
  {
    match v
    case Obj(fields) => RebindBackFields(fields, ids, back);
    case Arr(items) => RebindBackItems(items, ids, back);
    case _ =>
  }

  lemma {:induction false} RebindBackFields(fields: seq<Field>, ids: Identities, back: Identities)
    requires Undoes(back, ids, StringsOfFields(fields))
    ensures RebindFields(RebindFields(fields, ids), back) == fields
    decreases fields, 1
  {
    if fields != [] {
      RebindBack(fields[0].value, ids, back);
      RebindBackFields(fields[1..], ids, back);
      var r := RebindFields(fields, ids);
      assert r[1..] == RebindFields(fields[1..], ids) && fields == [fields[0]] + fields[1..];
    }
  }

  lemma {:induction false} RebindBackItems(items: seq<Value>, ids: Identities, back: Identities)
    requires Undoes(back, ids, StringsOfItems(items))
    ensures RebindItems(RebindItems(items, ids), back) == items
    decreases items, 1
  {
    if items != [] {
      RebindBack(items[0], ids, back);
      RebindBackItems(items[1..], ids, back);
      var r := RebindItems(items, ids);
      assert r[1..] == RebindItems(items[1..], ids) && items == [items[0]] + items[1..];
    }
  }

  /* ---------- the plan ---------- */

  /** A stage of a template with its configuration. */
  datatype Template = Template(stage: Stage, config: Value)

  function StagesOf(rows: seq<Template>): (r: seq<Stage>)
    ensures |r| == |rows|
  {
    seq(|rows|, i requires 0 <= i < |rows| => rows[i].stage)
  }

  /** The copy of a stage is saved as not yet configured. */
  function CopyStage(row: Template, ids: Identities): Template
    requires row.stage.name in ids
  {
    Template(Stage(ids[row.stage.name], row.stage.kind, false), Rebind(row.config, ids))
  }

  function CopyEdge(e: Edge, ids: Identities): Edge
    requires e.from in ids && e.to in ids
  {
    Edge(ids[e.from], ids[e.to], e.title, Rebind(e.condition, ids))
  }

  predicate DistinctNames(rows: seq<Template>) {
    forall i, j | 0 <= i < j < |rows| :: rows[i].stage.name != rows[j].stage.name
  }

  /** What a plan is made for; anything else is refused. */
  ghost predicate Plannable(rows: seq<Template>, edges: seq<Edge>, ids: Identities) {
    && 0 < |rows| <= 200 && |edges| <= 1000
    && DistinctNames(rows) && ids.Keys == Names(StagesOf(rows)) && OneToOne(ids)
    && CountOf(StagesOf(rows), StartKind) == 1 && CountOf(StagesOf(rows), EndKind) > 0
    && (forall r | r in rows :: r.config.Obj?)
    && (forall e | e in edges :: e.condition.Obj? && e.from in ids && e.to in ids)
  }

  /** Row by row the copied stages, edge by edge the copied edges. */
  ghost predicate IsCopy(rows: seq<Template>, edges: seq<Edge>, ids: Identities, stages: seq<Template>,
                         copies: seq<Edge>) {
    && |stages| == |rows| && |copies| == |edges|
    && (forall i | 0 <= i < |rows| :: rows[i].stage.name in ids && stages[i] == CopyStage(rows[i], ids))
    && (forall i | 0 <= i < |edges| ::
          edges[i].from in ids && edges[i].to in ids && copies[i] == CopyEdge(edges[i], ids))
  }

  method GraphPlan(rows: seq<Template>, edges: seq<Edge>, ids: Identities)
    returns (plan: Option<(seq<Template>, seq<Edge>)>)
    ensures plan.Some? <==> Plannable(rows, edges, ids)
    ensures plan.Some? ==> IsCopy(rows, edges, ids, plan.value.0, plan.value.1)
  {
    if rows == [] || |rows| > 200 || |edges| > 1000 {
      return None;
    }
    var names := Names(StagesOf(rows));
    CountNames(rows);
    CountValues(ids);
    if |names| != |rows| || ids.Keys != names || |ids.Values| != |names| {
      return None;
    }
    if CountOf(StagesOf(rows), StartKind) != 1 || CountOf(StagesOf(rows), EndKind) == 0 {
      return None;
    }
    NamesAreKeys(rows);
    var stages: seq<Template> := [];
    for n := 0 to |rows|
      invariant |stages| == n && forall i | 0 <= i < n :: rows[i].config.Obj? && stages[i] == CopyStage(rows[i], ids)
    {
      if !rows[n].config.Obj? {
        return None;
      }
      stages := stages + [CopyStage(rows[n], ids)];
    }
    var copies: seq<Edge> := [];
    for n := 0 to |edges|
      invariant |copies| == n
      invariant forall i | 0 <= i < n :: edges[i].condition.Obj? && edges[i].from in ids && edges[i].to in ids
                                         && copies[i] == CopyEdge(edges[i], ids)
    {
      if !edges[n].condition.Obj? || edges[n].from !in names || edges[n].to !in names {
        return None;
      }
      copies := copies + [CopyEdge(edges[n], ids)];
    }
    return Some((stages, copies));
  }

  lemma NamesAreKeys(rows: seq<Template>)
    ensures forall i | 0 <= i < |rows| :: rows[i].stage.name in Names(StagesOf(rows))
  {
    forall i | 0 <= i < |rows| ensures rows[i].stage.name in Names(StagesOf(rows)) {
      assert StagesOf(rows)[i] in StagesOf(rows);
    }
  }

  lemma NamesOfMore(rows: seq<Template>, row: Template)
    ensures Names(StagesOf(rows + [row])) == Names(StagesOf(rows)) + {row.stage.name}
  {
    assert StagesOf(rows + [row]) == StagesOf(rows) + [row.stage];
    assert forall s :: s in StagesOf(rows) + [row.stage] <==> s in StagesOf(rows) || s == row.stage;
  }

  lemma DistinctMore(rows: seq<Template>, row: Template)
    ensures DistinctNames(rows + [row]) <==> DistinctNames(rows) && row.stage.name !in Names(StagesOf(rows))
  {
    var all := rows + [row];
    NamesAreKeys(rows);
    if row.stage.name in Names(StagesOf(rows)) {
      var s :| s in StagesOf(rows) && s.name == row.stage.name;
      var i :| 0 <= i < |rows| && StagesOf(rows)[i] == s;
      assert all[i].stage.name == all[|rows|].stage.name;
    }
    forall i, j | 0 <= i < j < |rows|
      ensures all[i].stage.name != all[j].stage.name <==> rows[i].stage.name != rows[j].stage.name
    {
    }
  }

  /** As many names as rows means that no name repeats. */
  lemma {:induction false} CountNames(rows: seq<Template>)
    ensures |Names(StagesOf(rows))| == |rows| <==> DistinctNames(rows)
    ensures |Names(StagesOf(rows))| <= |rows|
  {
    if rows != [] {
      var before, last := rows[..|rows| - 1], rows[|rows| - 1];
      assert rows == before + [last];
      CountNames(before);
      NamesOfMore(before, last);
      DistinctMore(before, last);
    }
  }

  /** When no new name is an old one, nothing in the copy names a stage of the template any more: neither
      a stage, nor an end of a transition, nor a string of a configuration or a condition. */
  lemma CopyNamesNoOldStage(rows: seq<Template>, edges: seq<Edge>, ids: Identities, stages: seq<Template>,
                            copies: seq<Edge>)
    requires IsCopy(rows, edges, ids, stages, copies) && ids.Values !! ids.Keys
    ensures forall i | 0 <= i < |stages| :: stages[i].stage.name !in ids && Strings(stages[i].config) !! ids.Keys
    ensures forall i | 0 <= i < |copies| ::
      copies[i].from !in ids && copies[i].to !in ids && Strings(copies[i].condition) !! ids.Keys
  {
    forall i | 0 <= i < |stages| ensures stages[i].stage.name !in ids && Strings(stages[i].config) !! ids.Keys {
      RebindStrings(rows[i].config, ids);
      RenamedIsNew(Strings(rows[i].config), ids);
      assert stages[i].stage.name in ids.Values;
    }
    forall i | 0 <= i < |copies|
      ensures copies[i].from !in ids && copies[i].to !in ids && Strings(copies[i].condition) !! ids.Keys
    {
      RebindStrings(edges[i].condition, ids);
      RenamedIsNew(Strings(edges[i].condition), ids);
      assert copies[i].from in ids.Values && copies[i].to in ids.Values;
    }
  }

  lemma RenamedIsNew(strings: set<string>, ids: Identities)
    requires ids.Values !! ids.Keys
    ensures RenamedAll(strings, ids) !! ids.Keys
  {
    forall t | t in RenamedAll(strings, ids) ensures t !in ids {
      var s :| s in strings && Renamed(s, ids) == t;
      assert s in ids ==> t in ids.Values;
    }
  }

  /* ---------- the copy is the same graph ---------- */

  function RenameEdges(g: Graph<string>, ids: Identities): Graph<string> {
    set e | e in g :: (Renamed(e.0, ids), Renamed(e.1, ids))
  }

  function RenamePath(p: seq<string>, ids: Identities): (r: seq<string>)
    ensures |r| == |p|
  {
    seq(|p|, i requires 0 <= i < |p| => Renamed(p[i], ids))
  }

  /** All nodes of a path but its ends lie on edges. */
  ghost predicate EdgesNamed(g: Graph<string>, ids: Identities) {
    forall e | e in g :: e.0 in ids && e.1 in ids
  }

  /** Renaming one to one keeps reachability, both ways. */
  lemma RenamingKeepsReach(g: Graph<string>, ids: Identities, a: string, b: string)
    requires OneToOne(ids) && EdgesNamed(g, ids) && a in ids && b in ids
    ensures Reaches(g, a, b) <==> Reaches(RenameEdges(g, ids), ids[a], ids[b])
  {
    var h := RenameEdges(g, ids);
    if Reaches(g, a, b) {
      var p :| PathBetween(g, p, a, b);
      var q := RenamePath(p, ids);
      forall i | 0 <= i < |q| - 1 ensures (q[i], q[i + 1]) in h {
        assert (p[i], p[i + 1]) in g;
      }
      assert PathBetween(h, q, ids[a], ids[b]);
    }
    if Reaches(h, ids[a], ids[b]) {
      var q :| PathBetween(h, q, ids[a], ids[b]);
      PullBack(g, ids, q, a, b);
    }
  }

  /** A path of the renamed graph comes from a path of the graph. */
  lemma {:induction false} PullBack(g: Graph<string>, ids: Identities, q: seq<string>, a: string, b: string)
    requires OneToOne(ids) && EdgesNamed(g, ids) && a in ids && b in ids
    requires PathBetween(RenameEdges(g, ids), q, ids[a], ids[b])
    ensures Reaches(g, a, b)
  {
    if |q| == 1 {
      ReachesSelf(g, a);
    } else {
      assert (q[0], q[1]) in RenameEdges(g, ids);
      var e :| e in g && (Renamed(e.0, ids), Renamed(e.1, ids)) == (q[0], q[1]);
      assert e.0 == a;
      PullBack(g, ids, q[1..], e.1, b);
      EdgeReaches(g, a, e.1);
      ReachesJoin(g, a, e.1, b);
    }
  }

  lemma CopyKeepsKinds(rows: seq<Template>, edges: seq<Edge>, ids: Identities, stages: seq<Template>,
                       copies: seq<Edge>, kind: Kind)
    requires IsCopy(rows, edges, ids, stages, copies)
    ensures CountOf(StagesOf(stages), kind) == CountOf(StagesOf(rows), kind)
    ensures forall n | n in ids && OneToOne(ids) ::
      n in NamesOf(StagesOf(rows), kind) <==> ids[n] in NamesOf(StagesOf(stages), kind)
  {
    SameKindsSameCount(StagesOf(rows), StagesOf(stages), kind);
    forall n | n in ids && OneToOne(ids)
      ensures n in NamesOf(StagesOf(rows), kind) <==> ids[n] in NamesOf(StagesOf(stages), kind)
    {
      if n in NamesOf(StagesOf(rows), kind) {
        var s :| s in StagesOf(rows) && s.kind == kind && s.name == n;
        var i :| 0 <= i < |rows| && StagesOf(rows)[i] == s;
        assert StagesOf(stages)[i] in StagesOf(stages);
      }
      if ids[n] in NamesOf(StagesOf(stages), kind) {
        var s :| s in StagesOf(stages) && s.kind == kind && s.name == ids[n];
        var i :| 0 <= i < |stages| && StagesOf(stages)[i] == s;
        assert StagesOf(rows)[i] in StagesOf(rows) && rows[i].stage.name == n;
      }
    }
  }

  lemma {:induction false} SameKindsSameCount(a: seq<Stage>, b: seq<Stage>, kind: Kind)
    requires |a| == |b| && forall i | 0 <= i < |a| :: a[i].kind == b[i].kind
    ensures CountOf(a, kind) == CountOf(b, kind)
  {
    if a != [] {
      SameKindsSameCount(a[1..], b[1..], kind);
    }
  }

  lemma CopyRenamesEdges(rows: seq<Template>, edges: seq<Edge>, ids: Identities, stages: seq<Template>,
                         copies: seq<Edge>)
    requires IsCopy(rows, edges, ids, stages, copies)
    ensures AllEdges(copies) == RenameEdges(AllEdges(edges), ids) && EdgesNamed(AllEdges(edges), ids)
  {
    forall e | e in AllEdges(copies) ensures e in RenameEdges(AllEdges(edges), ids) {
      var c :| c in copies && (c.from, c.to) == e;
      var i :| 0 <= i < |copies| && copies[i] == c;
      assert edges[i] in edges && (edges[i].from, edges[i].to) in AllEdges(edges);
    }
    forall e | e in RenameEdges(AllEdges(edges), ids) ensures e in AllEdges(copies) {
      var f :| f in AllEdges(edges) && (Renamed(f.0, ids), Renamed(f.1, ids)) == e;
      var t :| t in edges && (t.from, t.to) == f;
      var i :| 0 <= i < |edges| && edges[i] == t;
      assert copies[i] in copies;
    }
  }

  lemma CopyNames(rows: seq<Template>, edges: seq<Edge>, ids: Identities, stages: seq<Template>, copies: seq<Edge>)
    requires IsCopy(rows, edges, ids, stages, copies) && ids.Keys == Names(StagesOf(rows))
    ensures forall m :: m in Names(StagesOf(stages)) <==> exists n :: n in ids && ids[n] == m
  {
    forall m ensures m in Names(StagesOf(stages)) <==> exists n :: n in ids && ids[n] == m {
      if m in Names(StagesOf(stages)) {
        var s :| s in StagesOf(stages) && s.name == m;
        var i :| 0 <= i < |stages| && StagesOf(stages)[i] == s;
        assert ids[rows[i].stage.name] == m;
      }
      if n :| n in ids && ids[n] == m {
        var s :| s in StagesOf(rows) && s.name == n;
        var i :| 0 <= i < |rows| && StagesOf(rows)[i] == s;
        assert StagesOf(stages)[i] in StagesOf(stages);
      }
    }
  }

  /** A plan gets the structural verdict of its template: the same starts, ends and connections. */
  lemma PlanKeepsStructure(rows: seq<Template>, edges: seq<Edge>, ids: Identities, stages: seq<Template>,
                           copies: seq<Edge>)
    requires Plannable(rows, edges, ids) && IsCopy(rows, edges, ids, stages, copies)
    ensures CountOf(StagesOf(stages), StartKind) == 1 && CountOf(StagesOf(stages), EndKind) > 0
    ensures forall e | e in copies :: Inside(Names(StagesOf(stages)), e)
    ensures WellConnected(StagesOf(stages), copies) <==> WellConnected(StagesOf(rows), edges)
  {
    CopyKeepsKinds(rows, edges, ids, stages, copies, StartKind);
    CopyKeepsKinds(rows, edges, ids, stages, copies, EndKind);
    CopyRenamesEdges(rows, edges, ids, stages, copies);
    CopyNames(rows, edges, ids, stages, copies);
    forall e | e in copies ensures Inside(Names(StagesOf(stages)), e) {
      var i :| 0 <= i < |copies| && copies[i] == e;
    }
    forall n | n in ids ensures StageConnected(rows, edges, n) <==> StageConnected(stages, copies, ids[n]) {
      StageKeepsConnections(rows, edges, ids, stages, copies, n);
    }
    WellConnectedIsEach(rows, edges);
    WellConnectedIsEach(stages, copies);
    assert forall n :: n in ids <==> n in Names(StagesOf(rows));
  }

  ghost predicate StageConnected(rows: seq<Template>, edges: seq<Edge>, n: string) {
    && (forall start | start in NamesOf(StagesOf(rows), StartKind) :: Reaches(AllEdges(edges), start, n))
    && CanFinish(StagesOf(rows), edges, n)
  }

  lemma WellConnectedIsEach(rows: seq<Template>, edges: seq<Edge>)
    ensures WellConnected(StagesOf(rows), edges)
            <==> forall n | n in Names(StagesOf(rows)) :: StageConnected(rows, edges, n)
  {
  }

  lemma StageKeepsConnections(rows: seq<Template>, edges: seq<Edge>, ids: Identities, stages: seq<Template>,
                              copies: seq<Edge>, n: string)
    requires Plannable(rows, edges, ids) && IsCopy(rows, edges, ids, stages, copies) && n in ids
    ensures StageConnected(rows, edges, n) <==> StageConnected(stages, copies, ids[n])
  {
    CopyKeepsKinds(rows, edges, ids, stages, copies, StartKind);
    CopyKeepsKinds(rows, edges, ids, stages, copies, EndKind);
    CopyRenamesEdges(rows, edges, ids, stages, copies);
    forall a | a in ids
      ensures Reaches(AllEdges(edges), a, n) <==> Reaches(AllEdges(copies), ids[a], ids[n])
      ensures Reaches(AllEdges(edges), n, a) <==> Reaches(AllEdges(copies), ids[n], ids[a])
    {
      RenamingKeepsReach(AllEdges(edges), ids, a, n);
      RenamingKeepsReach(AllEdges(edges), ids, n, a);
    }
    KindsAreNamed(rows, edges, ids, stages, copies, StartKind);
    KindsAreNamed(rows, edges, ids, stages, copies, EndKind);
  }

  /** Stages of a kind carry names of the plan, before and after. */
  lemma KindsAreNamed(rows: seq<Template>, edges: seq<Edge>, ids: Identities, stages: seq<Template>,
                      copies: seq<Edge>, kind: Kind)
    requires IsCopy(rows, edges, ids, stages, copies)
    ensures forall n | n in NamesOf(StagesOf(rows), kind) :: n in ids
    ensures forall m | m in NamesOf(StagesOf(stages), kind) :: exists n :: n in ids && ids[n] == m
  {
    forall n | n in NamesOf(StagesOf(rows), kind) ensures n in ids {
      var s :| s in StagesOf(rows) && s.kind == kind && s.name == n;
      var i :| 0 <= i < |rows| && StagesOf(rows)[i] == s;
    }
    forall m | m in NamesOf(StagesOf(stages), kind) ensures exists n :: n in ids && ids[n] == m {
      var s :| s in StagesOf(stages) && s.kind == kind && s.name == m;
      var i :| 0 <= i < |stages| && StagesOf(stages)[i] == s;
      assert ids[rows[i].stage.name] == m;
    }
  }

  /* ---------- the routes of the copy ---------- */

  lemma {:induction false} LookupRebound(fields: seq<Field>, ids: Identities, key: string)
    ensures Lookup(RebindFields(fields, ids), key)
         == match Lookup(fields, key) case None => None case Some(v) => Some(Rebind(v, ids))
  {
    if fields != [] {
      LookupRebound(fields[1..], ids, key);
    }
  }

  /** Renaming never touches the result of a route. */
  lemma ResultIsKept(e: Edge, ids: Identities)
    requires e.from in ids && e.to in ids
    ensures ResultOf(CopyEdge(e, ids)) == ResultOf(e) && (CopyEdge(e, ids).condition.Obj? <==> e.condition.Obj?)
  {
    if e.condition.Obj? {
      LookupRebound(e.condition.fields, ids, "result");
    }
  }

  function CopyEdges(edges: seq<Edge>, ids: Identities): (r: seq<Edge>)
    requires forall e | e in edges :: e.from in ids && e.to in ids
    ensures |r| == |edges|
  {
    seq(|edges|, i requires 0 <= i < |edges| => CopyEdge(edges[i], ids))
  }

  ghost predicate Named(routes: seq<Edge>, ids: Identities) {
    forall e | e in routes :: e.from in ids && e.to in ids
  }

  lemma ResultsAreKept(routes: seq<Edge>, ids: Identities)
    requires Named(routes, ids)
    ensures forall i | 0 <= i < |routes| :: ResultOf(CopyEdges(routes, ids)[i]) == ResultOf(routes[i])
    ensures (forall e | e in CopyEdges(routes, ids) :: e.condition.Obj?)
            <==> (forall e | e in routes :: e.condition.Obj?)
  {
    var copied := CopyEdges(routes, ids);
    forall i | 0 <= i < |routes|
      ensures ResultOf(copied[i]) == ResultOf(routes[i]) && (copied[i].condition.Obj? <==> routes[i].condition.Obj?)
    {
      ResultIsKept(routes[i], ids);
    }
    assert (forall e | e in routes :: e.condition.Obj?) <==> (forall i | 0 <= i < |routes| :: routes[i].condition.Obj?);
    assert (forall e | e in copied :: e.condition.Obj?) <==> (forall i | 0 <= i < |copied| :: copied[i].condition.Obj?);
  }

  predicate NamesActions(kind: Kind) {
    kind.UserTask? || kind.Approval? || kind.SystemAction?
  }

  /** Start, End, Condition and Wait stages keep their verdict under any renaming; the other kinds keep
      it when the actions of their own routes are kept. */
  lemma KeptActionsKeepVerdict(kind: Kind, routes: seq<Edge>, ids: Identities)
    requires Named(routes, ids)
    requires NamesActions(kind) ==> Actions(CopyEdges(routes, ids)) == Actions(routes)
    ensures ValidRoutes(kind, CopyEdges(routes, ids)) <==> ValidRoutes(kind, routes)
  {
    ResultsAreKept(routes, ids);
  }

  /* ---------- which renamings keep every verdict ---------- */

  function ActionWords(): set<string> {
    AllowedActions(UserTask) + AllowedActions(Approval) + AllowedActions(SystemAction)
  }

  /** A renaming that no route can tell: the word is kept up to case, or neither the old nor the new
      one is an action, and none is empty. */
  predicate Harmless(old': string, new': string) {
    old' == new'
    || (old' != "" && new' != ""
        && (Lower(old') == Lower(new') || (Lower(old') !in ActionWords() && Lower(new') !in ActionWords())))
  }

  ghost predicate SafeRenaming(ids: Identities) {
    forall k | k in ids :: Harmless(k, ids[k])
  }

  lemma LowerOfNonempty(s: string)
    ensures |Lower(s)| == |s| && (Lower(s) == "" <==> s == "")
  {
  }

  /** The action of a route is kept, or it was no action and is none. */
  lemma ActionIsKeptOrNone(e: Edge, ids: Identities)
    requires SafeRenaming(ids) && e.from in ids && e.to in ids
    ensures ActionOf(CopyEdge(e, ids)) == ActionOf(e)
            || (ActionOf(e) != "" && ActionOf(CopyEdge(e, ids)) != ""
                && ActionOf(e) !in ActionWords() && ActionOf(CopyEdge(e, ids)) !in ActionWords())
  {
    if e.condition.Obj? {
      LookupRebound(e.condition.fields, ids, "action");
      var v := Lookup(e.condition.fields, "action");
      if v.Some? && v.value.Str? && v.value.text in ids {
        assert Harmless(v.value.text, ids[v.value.text]);
        LowerOfNonempty(v.value.text);
        LowerOfNonempty(ids[v.value.text]);
      }
    }
  }

  /** With an action that is none, the routes of such a stage are not valid. */
  lemma NoActionNoVerdict(kind: Kind, routes: seq<Edge>, i: nat)
    requires NamesActions(kind) && i < |routes| && ActionOf(routes[i]) != "" && ActionOf(routes[i]) !in ActionWords()
    ensures !ValidRoutes(kind, routes)
  {
    var actions := Actions(routes);
    assert actions[i] in actions && actions[i] !in AllowedActions(kind);
  }

  lemma SafeRenamingKeepsVerdict(kind: Kind, routes: seq<Edge>, ids: Identities)
    requires SafeRenaming(ids) && Named(routes, ids)
    ensures ValidRoutes(kind, CopyEdges(routes, ids)) <==> ValidRoutes(kind, routes)
  {
    var copied := CopyEdges(routes, ids);
    forall i | 0 <= i < |routes|
      ensures Actions(copied)[i] == Actions(routes)[i]
              || (NamesActions(kind) ==> !ValidRoutes(kind, copied) && !ValidRoutes(kind, routes))
    {
      ActionIsKeptOrNone(routes[i], ids);
      if NamesActions(kind) && ActionOf(copied[i]) != ActionOf(routes[i]) {
        NoActionNoVerdict(kind, routes, i);
        NoActionNoVerdict(kind, copied, i);
      }
    }
    if !NamesActions(kind) || Actions(copied) == Actions(routes) {
      KeptActionsKeepVerdict(kind, routes, ids);
    } else {
      var i :| 0 <= i < |routes| && Actions(copied)[i] != Actions(routes)[i];
    }
  }

  /** The routes of a copied stage are the copies of its routes, in the same order. */
  lemma {:induction false} OutgoingOfCopy(names: set<string>, copyNames: set<string>, edges: seq<Edge>,
                                          copies: seq<Edge>, ids: Identities, n: string)
    requires |edges| == |copies| && OneToOne(ids) && n in ids
    requires forall i | 0 <= i < |edges| ::
      Inside(names, edges[i]) && edges[i].from in ids && edges[i].to in ids
      && copies[i] == CopyEdge(edges[i], ids) && Inside(copyNames, copies[i])
    ensures var routes, copied := Outgoing(names, edges, n), Outgoing(copyNames, copies, ids[n]);
      && |copied| == |routes|
      && forall i | 0 <= i < |routes| ::
           routes[i] in edges && routes[i].from in ids && routes[i].to in ids && copied[i] == CopyEdge(routes[i], ids)
  {
    if edges != [] {
      OutgoingOfCopy(names, copyNames, edges[1..], copies[1..], ids, n);
    }
  }

  /** The conditions of the routes are copied verbatim exactly when they hold no string that is
      renamed. */
  lemma RoutesKeepConditions(edges: seq<Edge>, ids: Identities)
    requires forall e | e in edges :: e.from in ids && e.to in ids
    ensures (forall e | e in edges :: CopyEdge(e, ids).condition == e.condition)
            <==> forall e | e in edges :: Untouched(Strings(e.condition), ids)
  {
    forall e | e in edges
      ensures CopyEdge(e, ids).condition == e.condition <==> Untouched(Strings(e.condition), ids)
    {
      RebindFixes(e.condition, ids);
    }
  }

  /* ---------- every other renaming breaks a verdict ---------- */

  /** A route to itself that takes its action from its label, or from its condition if not empty. */
  function Labelled(k: string, title: string): Edge {
    Edge(k, k, title, Obj([]))
  }

  function Acting(k: string, action: string, title: string): Edge {
    Edge(k, k, title, Obj([Field("action", Str(action))]))
  }

  function Taken(action: string, title: string): string {
    Lower(if action == "" then title else action)
  }

  lemma ActingTakes(k: string, action: string, title: string, ids: Identities)
    requires k in ids
    ensures ActionOf(Acting(k, action, title)) == Taken(action, title)
    ensures CopyEdge(Acting(k, action, title), ids) == Acting(ids[k], Renamed(action, ids), title)
    ensures ActionOf(Labelled(k, title)) == Lower(title) && CopyEdge(Labelled(k, title), ids) == Labelled(ids[k], title)
  {
    var fields := [Field("action", Str(action))];
    assert RebindFields(fields, ids) == [Field("action", Str(Renamed(action, ids)))] by {
      assert fields[1..] == [];
    }
  }

  function WordsOf(kind: Kind): seq<string> {
    match kind
    case UserTask => ["complete", "reject", "return"]
    case Approval => ["approve", "reject", "return"]
    case _ => ["success", "error"]
  }

  lemma WordsAreAllowed(kind: Kind)
    requires NamesActions(kind)
    ensures Distinct(WordsOf(kind)) && |WordsOf(kind)| >= 2
    ensures forall w :: w in WordsOf(kind) <==> w in AllowedActions(kind)
    ensures MainAction(kind) in AllowedActions(kind)
  {
    assert "reject"[2] != "return"[2] && "complete"[0] != "reject"[0] && "approve"[0] != "reject"[0]
           && "success"[0] != "error"[0];
    assert "complete"[0] != "return"[0] && "approve"[0] != "return"[0];
  }

  lemma WordsAreLower(kind: Kind, w: string)
    requires NamesActions(kind) && w in AllowedActions(kind)
    ensures Lower(w) == w
  {
    assert Lower("complete") == "complete" && Lower("reject") == "reject" && Lower("return") == "return";
    assert Lower("approve") == "approve" && Lower("success") == "success" && Lower("error") == "error";
  }

  function Without(words: seq<string>, w: string): seq<string> {
    if words == [] then [] else (if words[0] == w then [] else [words[0]]) + Without(words[1..], w)
  }

  lemma {:induction false} WithoutMeans(words: seq<string>, w: string)
    requires Distinct(words)
    ensures Distinct(Without(words, w)) && |Without(words, w)| >= |words| - 1
    ensures forall y :: y in Without(words, w) <==> y in words && y != w
  {
    if words != [] {
      WithoutMeans(words[1..], w);
      assert forall y :: y in words <==> y == words[0] || y in words[1..];
      assert words[0] !in words[1..];
      if words[0] == w {
        NothingToDrop(words[1..], w);
        assert Without(words, w) == words[1..];
      } else {
        assert Without(words, w) == [words[0]] + Without(words[1..], w);
      }
    }
  }

  lemma {:induction false} NothingToDrop(words: seq<string>, w: string)
    requires w !in words
    ensures Without(words, w) == words
  {
    if words != [] {
      NothingToDrop(words[1..], w);
    }
  }

  /** With every other action present once, the actions are valid exactly when the last one is w. */
  lemma LastDecides(kind: Kind, w: string, others: seq<string>, x: string)
    requires NamesActions(kind) && w in AllowedActions(kind) && MainAction(kind) in AllowedActions(kind)
    requires Distinct(others) && others != [] && forall y :: y in others <==> y in AllowedActions(kind) && y != w
    ensures ValidActions(kind, others + [x]) <==> x == w
  {
    var actions := others + [x];
    assert actions[|others|] == x;
    if x == w {
      assert forall y :: y in actions <==> y in AllowedActions(kind);
      OnceIn(actions, MainAction(kind));
    } else if x in AllowedActions(kind) {
      var i :| 0 <= i < |others| && others[i] == x;
      assert actions[i] == actions[|others|];
    } else {
      assert x in actions;
    }
  }

  lemma {:induction false} OnceIn(words: seq<string>, w: string)
    requires Distinct(words) && w in words
    ensures multiset(words)[w] == 1
  {
    assert words == [words[0]] + words[1..];
    if words[0] == w {
      assert w !in words[1..];
    } else {
      OnceIn(words[1..], w);
    }
  }

  function LabelEach(k: string, words: seq<string>): (r: seq<Edge>)
    ensures |r| == |words|
  {
    seq(|words|, i requires 0 <= i < |words| => Labelled(k, words[i]))
  }

  /** The routes that tell the renaming: every action but w by its label, and k or its title. */
  function Telling(kind: Kind, k: string, w: string, title: string): seq<Edge> {
    LabelEach(k, Without(WordsOf(kind), w)) + [Acting(k, k, title)]
  }

  lemma TellingTakes(kind: Kind, stage: string, w: string, action: string, title: string)
    requires NamesActions(kind)
    ensures Actions(LabelEach(stage, Without(WordsOf(kind), w)) + [Acting(stage, action, title)])
         == Without(WordsOf(kind), w) + [Taken(action, title)]
  {
    var words := Without(WordsOf(kind), w);
    var routes := LabelEach(stage, words) + [Acting(stage, action, title)];
    WordsAreAllowed(kind);
    WithoutMeans(WordsOf(kind), w);
    forall i | 0 <= i < |routes| ensures ActionOf(routes[i]) == (words + [Taken(action, title)])[i] {
      ActingTakes(stage, action, title, map[stage := stage]);
      if i < |words| {
        assert words[i] in words;
        WordsAreLower(kind, words[i]);
        ActingTakes(stage, action, words[i], map[stage := stage]);
      }
    }
  }

  /** The copy of the telling routes: the labels stay, the action is renamed. */
  lemma TellingCopy(kind: Kind, k: string, w: string, title: string, ids: Identities)
    requires k in ids
    ensures Named(Telling(kind, k, w, title), ids)
    ensures CopyEdges(Telling(kind, k, w, title), ids)
         == LabelEach(ids[k], Without(WordsOf(kind), w)) + [Acting(ids[k], ids[k], title)]
  {
    var words, routes := Without(WordsOf(kind), w), Telling(kind, k, w, title);
    var copied := LabelEach(ids[k], words) + [Acting(ids[k], ids[k], title)];
    forall i | 0 <= i < |routes| ensures CopyEdge(routes[i], ids) == copied[i] {
      ActingTakes(k, k, if i < |words| then words[i] else title, ids);
    }
    assert CopyEdges(routes, ids) == copied;
  }

  lemma TellingVerdict(kind: Kind, stage: string, w: string, action: string, title: string)
    requires NamesActions(kind) && w in AllowedActions(kind)
    ensures ValidRoutes(kind, LabelEach(stage, Without(WordsOf(kind), w)) + [Acting(stage, action, title)])
            <==> Taken(action, title) == w
  {
    var routes := LabelEach(stage, Without(WordsOf(kind), w)) + [Acting(stage, action, title)];
    assert forall i | 0 <= i < |routes| :: routes[i].condition.Obj?;
    TellingTakes(kind, stage, w, action, title);
    WordsAreAllowed(kind);
    WithoutMeans(WordsOf(kind), w);
    LastDecides(kind, w, Without(WordsOf(kind), w), Taken(action, title));
  }

  /** An action and a label that tell old and new apart. */
  lemma TellApart(old': string, new': string) returns (kind: Kind, w: string, title: string)
    requires !Harmless(old', new')
    ensures NamesActions(kind) && w in AllowedActions(kind)
    ensures (Taken(old', title) == w) != (Taken(new', title) == w)
  {
    LowerOfNonempty(old');
    LowerOfNonempty(new');
    LowerOfNonempty("");
    title := "";
    if old' == "" {
      w := if Lower(new') == "complete" then "approve" else "complete";
      kind := if Lower(new') == "complete" then Approval else UserTask;
      title := w;
      WordsAreLower(kind, w);
      assert "complete" != "approve" by { assert "complete"[0] != "approve"[0]; }
    } else if Lower(old') in ActionWords() {
      w := Lower(old');
      kind := KindOf(w);
    } else if new' == "" {
      w, kind, title := "complete", UserTask, "complete";
      WordsAreLower(kind, w);
    } else {
      w := Lower(new');
      kind := KindOf(w);
    }
  }

  function KindOf(w: string): (kind: Kind)
    requires w in ActionWords()
    ensures NamesActions(kind) && w in AllowedActions(kind)
  {
    if w in AllowedActions(UserTask) then UserTask else if w in AllowedActions(Approval) then Approval else SystemAction
  }

  /** The copies of any routes of any stage get the verdict of the originals. */
  ghost predicate KeepsVerdicts(ids: Identities) {
    forall kind, routes: seq<Edge> | (forall e | e in routes :: e.from in ids && e.to in ids) ::
      ValidRoutes(kind, CopyEdges(routes, ids)) <==> ValidRoutes(kind, routes)
  }

  /** Exactly the safe renamings keep every verdict. */
  lemma SafeRenamingExactly(ids: Identities)
    ensures KeepsVerdicts(ids) <==> SafeRenaming(ids)
  {
    if SafeRenaming(ids) {
      forall kind, routes: seq<Edge> | Named(routes, ids)
        ensures ValidRoutes(kind, CopyEdges(routes, ids)) <==> ValidRoutes(kind, routes)
      {
        SafeRenamingKeepsVerdict(kind, routes, ids);
      }
    } else {
      var k :| k in ids && !Harmless(k, ids[k]);
      var kind, w, title := TellApart(k, ids[k]);
      var routes := Telling(kind, k, w, title);
      TellingCopy(kind, k, w, title, ids);
      TellingVerdict(kind, k, w, k, title);
      TellingVerdict(kind, ids[k], w, ids[k], title);
      assert !(ValidRoutes(kind, CopyEdges(routes, ids)) <==> ValidRoutes(kind, routes));
    }
  }

  /** Names longer than any action, as generated ones are, make a safe renaming. */
  lemma GeneratedNamesAreSafe(ids: Identities)
    requires forall k | k in ids :: |k| >= 9 && |ids[k]| >= 9
    ensures SafeRenaming(ids)
  {
    forall k | k in ids ensures Harmless(k, ids[k]) {
      LongIsNoAction(k);
      LongIsNoAction(ids[k]);
    }
  }

  lemma LongIsNoAction(s: string)
    requires |s| >= 9
    ensures s != "" && Lower(s) !in ActionWords()
  {
    LowerOfNonempty(s);
    assert forall w | w in ActionWords() :: |w| <= 8;
  }

  /** Every stage of the copy has valid routes exactly when its original has: Start, End, Condition
      and Wait stages always, the others when the renaming is safe or keeps the actions of their
      own routes. */
  lemma PlanKeepsRoutes(rows: seq<Template>, edges: seq<Edge>, ids: Identities, stages: seq<Template>,
                        copies: seq<Edge>, n: string, kind: Kind)
    requires Plannable(rows, edges, ids) && IsCopy(rows, edges, ids, stages, copies) && n in ids
    requires NamesActions(kind) ==>
      SafeRenaming(ids)
      || forall e | e in edges && e.from == n :: ActionOf(CopyEdge(e, ids)) == ActionOf(e)
    ensures ValidRoutes(kind, Outgoing(Names(StagesOf(stages)), copies, ids[n]))
            <==> ValidRoutes(kind, Outgoing(Names(StagesOf(rows)), edges, n))
  {
    PlanKeepsStructure(rows, edges, ids, stages, copies);
    var names, copyNames := Names(StagesOf(rows)), Names(StagesOf(stages));
    forall i | 0 <= i < |edges| ensures Inside(names, edges[i]) && Inside(copyNames, copies[i]) {
      assert edges[i] in edges && copies[i] in copies;
    }
    OutgoingOfCopy(names, copyNames, edges, copies, ids, n);
    OutgoingEdges(names, edges, n);
    var routes := Outgoing(names, edges, n);
    assert Outgoing(copyNames, copies, ids[n]) == CopyEdges(routes, ids);
    if NamesActions(kind) && SafeRenaming(ids) {
      SafeRenamingKeepsVerdict(kind, routes, ids);
    } else {
      assert NamesActions(kind) ==> Actions(CopyEdges(routes, ids)) == Actions(routes);
      KeptActionsKeepVerdict(kind, routes, ids);
    }
  }

  /* ---------- the whole verdict ---------- */

  /** The stages of a copy once each is configured again as its original is. */
  function Reconfigured(rows: seq<Template>, stages: seq<Template>): (r: seq<Stage>)
    requires |rows| == |stages|
    ensures |r| == |stages|
  {
    seq(|stages|, i requires 0 <= i < |stages| => stages[i].stage.(savedOk := rows[i].stage.savedOk))
  }

  predicate SameButSaved(a: seq<Stage>, b: seq<Stage>) {
    |a| == |b| && forall i | 0 <= i < |a| :: a[i] == b[i].(savedOk := a[i].savedOk)
  }

  lemma ConfiguringKeepsNames(a: seq<Stage>, b: seq<Stage>)
    requires SameButSaved(a, b)
    ensures Names(a) <= Names(b) && forall kind :: NamesOf(a, kind) <= NamesOf(b, kind)
  {
    forall n | n in Names(a) ensures n in Names(b) {
      var s :| s in a && s.name == n;
      var i :| 0 <= i < |a| && a[i] == s;
      assert b[i] in b;
    }
    forall kind, n | n in NamesOf(a, kind) ensures n in NamesOf(b, kind) {
      var s :| s in a && s.kind == kind && s.name == n;
      var i :| 0 <= i < |a| && a[i] == s;
      assert b[i] in b;
    }
  }

  /** The graph looks at names and kinds only. */
  lemma ConfiguringKeepsGraph(a: seq<Stage>, b: seq<Stage>, edges: seq<Edge>)
    requires SameButSaved(a, b) && SameButSaved(b, a)
    ensures Names(a) == Names(b) && (WellConnected(a, edges) <==> WellConnected(b, edges))
    ensures forall kind :: CountOf(a, kind) == CountOf(b, kind)
  {
    ConfiguringKeepsNames(a, b);
    ConfiguringKeepsNames(b, a);
    assert forall kind :: NamesOf(a, kind) == NamesOf(b, kind);
    forall kind ensures CountOf(a, kind) == CountOf(b, kind) {
      SameKindsSameCount(a, b, kind);
    }
  }

  lemma StagesOfCopyOk(rows: seq<Template>, edges: seq<Edge>, ids: Identities, stages: seq<Template>,
                       copies: seq<Edge>)
    requires Plannable(rows, edges, ids) && IsCopy(rows, edges, ids, stages, copies) && SafeRenaming(ids)
    requires Names(Reconfigured(rows, stages)) == Names(StagesOf(stages))
    ensures StagesOk(Reconfigured(rows, stages), copies) <==> StagesOk(StagesOf(rows), edges)
  {
    forall i | 0 <= i < |rows|
      ensures Passes(Reconfigured(rows, stages), copies, i) == Passes(StagesOf(rows), edges, i)
    {
      StageOfCopyOk(rows, edges, ids, stages, copies, i);
    }
    SameVerdicts(Reconfigured(rows, stages), copies, StagesOf(rows), edges);
  }

  lemma SameVerdicts(a: seq<Stage>, fromA: seq<Edge>, b: seq<Stage>, fromB: seq<Edge>)
    requires |a| == |b| && forall i | 0 <= i < |a| :: Passes(a, fromA, i) == Passes(b, fromB, i)
    ensures StagesOk(a, fromA) <==> StagesOk(b, fromB)
  {
  }

  lemma StageOfCopyOk(rows: seq<Template>, edges: seq<Edge>, ids: Identities, stages: seq<Template>,
                      copies: seq<Edge>, i: nat)
    requires Plannable(rows, edges, ids) && IsCopy(rows, edges, ids, stages, copies) && SafeRenaming(ids)
    requires Names(Reconfigured(rows, stages)) == Names(StagesOf(stages)) && i < |rows|
    ensures Passes(Reconfigured(rows, stages), copies, i) == Passes(StagesOf(rows), edges, i)
  {
    PlanKeepsRoutes(rows, edges, ids, stages, copies, rows[i].stage.name, rows[i].stage.kind);
  }

  /** Under a safe renaming the copy, with its stages configured again, may be activated exactly when
      the template may. */
  lemma PlanKeepsActivatable(rows: seq<Template>, edges: seq<Edge>, ids: Identities, stages: seq<Template>,
                             copies: seq<Edge>)
    requires Plannable(rows, edges, ids) && IsCopy(rows, edges, ids, stages, copies) && SafeRenaming(ids)
    ensures Activatable(Reconfigured(rows, stages), copies) <==> Activatable(StagesOf(rows), edges)
  {
    ConfiguringKeepsGraph(Reconfigured(rows, stages), StagesOf(stages), copies);
    PlanKeepsStructure(rows, edges, ids, stages, copies);
    StagesOfCopyOk(rows, edges, ids, stages, copies);
    ActivatableInParts(Reconfigured(rows, stages), copies);
    ActivatableInParts(StagesOf(rows), edges);
    assert forall e | e in edges :: Inside(Names(StagesOf(rows)), e);
  }

  /** Before that it may not: no stage of a fresh copy counts as configured. */
  lemma FreshCopyIsNotActivatable(rows: seq<Template>, edges: seq<Edge>, ids: Identities, stages: seq<Template>,
                                  copies: seq<Edge>)
    requires Plannable(rows, edges, ids) && IsCopy(rows, edges, ids, stages, copies)
    ensures forall stage | stage in StagesOf(stages) :: !stage.savedOk
    ensures !Activatable(StagesOf(stages), copies)
  {
    assert StagesOf(stages)[0] in StagesOf(stages);
  }
}
