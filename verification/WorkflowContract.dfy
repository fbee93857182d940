/** When a workflow may be activated (asoud_erp/services/workflow_contract.py:34-102), and the
    choice of a Condition's target (asoud_erp/services/workflow_condition.py:23-32). */
module WorkflowContract {
  import opened Basics
  import opened Json
  import opened Paths

  datatype Kind = StartKind | EndKind | ConditionKind | UserTask | Approval | SystemAction | Wait

  /** `savedOk` is the verdict on the stage's own saved configuration. */
  datatype Stage = Stage(name: string, kind: Kind, savedOk: bool)

  /** `condition` is the parsed condition_json. */
  datatype Edge = Edge(from: string, to: string, title: string, condition: Value)

  datatype Requirement = NeedsStartAndEnd | LeavesWorkflow | WaitUnsupported | InvalidStage | Disconnected

  /* ---------- routes of one stage ---------- */

  function ResultOf(e: Edge): Option<bool> {
    if !e.condition.Obj? then None else
      match Lookup(e.condition.fields, "result")
      case Some(Bool(b)) => Some(b)
      case _ => None
  }

  function LowerChar(c: char): char {
    if 'A' <= c <= 'Z' then ((c as int) + 32) as char else c
  }

  function Lower(s: string): string {
    seq(|s|, i requires 0 <= i < |s| => LowerChar(s[i]))
  }

  predicate Truthy(v: Value) {
    match v
    case Obj(fields) => fields != []
    case Arr(items) => items != []
    case Str(s) => s != ""
    case Bool(b) => b
    case Number(n) => n != 0
    case Null => false
  }

  /** The action of the condition, or else the label of the transition, in lower case. The text of
      a number, list or object stands as "?", which like that text is no action. */
  function ActionOf(e: Edge): string {
    if !e.condition.Obj? then Lower(e.title) else
      match Lookup(e.condition.fields, "action")
      case None => Lower(e.title)
      case Some(v) => if !Truthy(v) then Lower(e.title) else if v.Str? then Lower(v.text) else "?"
  }

  function Actions(routes: seq<Edge>): (r: seq<string>)
    ensures |r| == |routes|
  {
    seq(|routes|, i requires 0 <= i < |routes| => ActionOf(routes[i]))
  }

  function MainAction(kind: Kind): string {
    match kind
    case UserTask => "complete"
    case Approval => "approve"
    case _ => "success"
  }

  function AllowedActions(kind: Kind): set<string> {
    match kind
    case UserTask => {"complete", "reject", "return"}
    case Approval => {"approve", "reject", "return"}
    case _ => {"success", "error"}
  }

  predicate ValidRoutes(kind: Kind, routes: seq<Edge>) {
    && (forall e | e in routes :: e.condition.Obj?)
    && match kind
       case EndKind => routes == []
       case ConditionKind =>
         && |routes| == 2 && ResultOf(routes[0]).Some? && ResultOf(routes[1]).Some?
         && ResultOf(routes[0]) != ResultOf(routes[1])
       case StartKind => |routes| == 1
       case Wait => true
       case _ => ValidActions(kind, Actions(routes))
  }

  /** The main action once, no action twice, none but the allowed; or one route without any. */
  predicate ValidActions(kind: Kind, actions: seq<string>) {
    var single := actions == [""];
    && (multiset(actions)[MainAction(kind)] == 1 || single)
    && Distinct(actions)
    && ((forall a | a in actions :: a in AllowedActions(kind)) || single)
  }

  /* ---------- the choice at a Condition ---------- */

  function Targets(routes: seq<Edge>, result: bool): seq<string> {
    if routes == [] then [] else
      (if ResultOf(routes[0]) == Some(result) then [routes[0].to] else []) + Targets(routes[1..], result)
  }

  /** The one transition for a result; None is the raised error. */
  function SelectTransition(routes: seq<Edge>, result: bool): Option<string> {
    var matches := Targets(routes, result);
    if |matches| != 1 || matches[0] == "" then None else Some(matches[0])
  }

  lemma {:induction false} TargetsCover(routes: seq<Edge>)
    requires EachHasResult(routes)
    ensures |Targets(routes, true)| + |Targets(routes, false)| == |routes|
  {
    if routes != [] {
      TargetsCover(routes[1..]);
    }
  }

  lemma TargetsOfTwo(a: Edge, b: Edge, result: bool)
    ensures Targets([a, b], result)
         == (if ResultOf(a) == Some(result) then [a.to] else []) + (if ResultOf(b) == Some(result) then [b.to] else [])
  {
    assert [a, b][1..] == [b] && [b][1..] == [];
    assert Targets([b], result) == if ResultOf(b) == Some(result) then [b.to] else [];
  }

  ghost predicate EachHasResult(routes: seq<Edge>) {
    forall e | e in routes :: ResultOf(e).Some?
  }

  /** Routes of a Condition are valid exactly when each has a result and each result decides. */
  lemma ConditionDecides(routes: seq<Edge>)
    requires forall e | e in routes :: e.condition.Obj? && e.to != ""
    ensures ValidRoutes(ConditionKind, routes) <==>
      EachHasResult(routes) && SelectTransition(routes, true).Some? && SelectTransition(routes, false).Some?
  {
    if |routes| == 2 {
      assert routes[0] in routes && routes[1] in routes;
      TwoDecide(routes[0], routes[1]);
      assert routes == [routes[0], routes[1]];
    } else if EachHasResult(routes) {
      TargetsCover(routes);
    }
  }

  lemma TwoDecide(a: Edge, b: Edge)
    requires a.condition.Obj? && b.condition.Obj? && a.to != "" && b.to != ""
    ensures ResultOf(a).Some? && ResultOf(b).Some? && ResultOf(a) != ResultOf(b) <==>
      EachHasResult([a, b]) && SelectTransition([a, b], true).Some? && SelectTransition([a, b], false).Some?
  {
    TargetsOfTwo(a, b, true);
    TargetsOfTwo(a, b, false);
    assert a in [a, b] && b in [a, b];
  }

  /* ---------- the graph ---------- */

  function Names(stages: seq<Stage>): set<string> {
    set s | s in stages :: s.name
  }

  function NamesOf(stages: seq<Stage>, kind: Kind): set<string> {
    set s | s in stages && s.kind == kind :: s.name
  }

  function CountOf(stages: seq<Stage>, kind: Kind): nat {
    if stages == [] then 0 else (if stages[0].kind == kind then 1 else 0) + CountOf(stages[1..], kind)
  }

  function AllEdges(transitions: seq<Edge>): Graph<string> {
    set e | e in transitions :: (e.from, e.to)
  }

  predicate Inside(names: set<string>, e: Edge) {
    e.from in names && e.to in names
  }

  function InnerEdges(names: set<string>, transitions: seq<Edge>): Graph<string> {
    set e | e in transitions && Inside(names, e) :: (e.from, e.to)
  }

  /** The transitions that leave a stage and stay in the workflow. */
  function Outgoing(names: set<string>, transitions: seq<Edge>, name: string): seq<Edge> {
    if transitions == [] then [] else
      (if Inside(names, transitions[0]) && transitions[0].from == name then [transitions[0]] else [])
      + Outgoing(names, transitions[1..], name)
  }

  lemma {:induction false} OutgoingEdges(names: set<string>, transitions: seq<Edge>, name: string)
    ensures forall e ::
      e in Outgoing(names, transitions, name) <==> e in transitions && Inside(names, e) && e.from == name
  {
    if transitions != [] {
      OutgoingEdges(names, transitions[1..], name);
    }
  }

  /** Every stage lies on a path from the start to some end. */
  ghost predicate Connected(stages: seq<Stage>, transitions: seq<Edge>, start: string) {
    var names := Names(stages);
    && (forall n | n in names :: Reaches(InnerEdges(names, transitions), start, n))
    && (forall n | n in names :: CanFinish(stages, transitions, n))
    && (forall n | CanFinish(stages, transitions, n) :: n in names)
  }

  ghost predicate Finishes(g: Graph<string>, ends: set<string>, n: string) {
    exists end :: end in ends && Reaches(g, n, end)
  }

  ghost predicate CanFinish(stages: seq<Stage>, transitions: seq<Edge>, n: string) {
    Finishes(AllEdges(transitions), NamesOf(stages, EndKind), n)
  }

  /** The worklist: the stages reached from the start. */
  method ReachedFrom(names: set<string>, transitions: seq<Edge>, start: string) returns (reached: set<string>)
    requires start in names
    ensures forall n :: n in reached <==> Reaches(InnerEdges(names, transitions), start, n)
  {
    ghost var g := InnerEdges(names, transitions);
    reached := {};
    var pending := [start];
    ReachesSelf(g, start);
    while pending != []
      invariant reached <= names && forall n | n in pending :: n in names
      invariant start in reached || start in pending
      invariant forall n | n in reached || n in pending :: Reaches(g, start, n)
      invariant forall e | e in g && e.0 in reached :: e.1 in reached || e.1 in pending
      decreases names - reached, |pending|
    {
      var node := pending[|pending| - 1];
      ghost var before := pending;
      pending := pending[..|pending| - 1];
      assert forall n | n in before :: n == node || n in pending;
      if node in reached {
        continue;
      }
      reached := reached + {node};
      OutgoingEdges(names, transitions, node);
      var out := Outgoing(names, transitions, node);
      var targets := seq(|out|, i requires 0 <= i < |out| => out[i].to);
      forall n | n in targets ensures Reaches(g, start, n) && n in names {
        var i :| 0 <= i < |out| && out[i].to == n;
        assert out[i] in out && (node, n) in g;
        EdgeReaches(g, node, n);
        ReachesJoin(g, start, node, n);
      }
      forall e | e in g && e.0 == node ensures e.1 in targets {
        var t :| t in transitions && Inside(names, t) && (t.from, t.to) == e;
        var i :| 0 <= i < |out| && out[i] == t;
        assert targets[i] == e.1;
      }
      pending := pending + targets;
    }
    ClosedKeepsReach(g, reached, start);
  }

  /** One round of the fixpoint. */
  function Expand(transitions: seq<Edge>, canFinish: set<string>): set<string> {
    canFinish + (set e | e in transitions && e.to in canFinish :: e.from)
  }

  lemma ExpandKeeps(transitions: seq<Edge>, ends: set<string>, canFinish: set<string>)
    requires forall n | n in canFinish :: Finishes(AllEdges(transitions), ends, n)
    ensures forall n | n in Expand(transitions, canFinish) :: Finishes(AllEdges(transitions), ends, n)
  {
    var g := AllEdges(transitions);
    forall n | n in Expand(transitions, canFinish) ensures Finishes(g, ends, n) {
      if n !in canFinish {
        var e :| e in transitions && e.to in canFinish && e.from == n;
        var end :| end in ends && Reaches(g, e.to, end);
        assert (n, e.to) in g;
        EdgeReaches(g, n, e.to);
        ReachesJoin(g, n, e.to, end);
      }
    }
  }

  lemma ExpandedIsAll(transitions: seq<Edge>, ends: set<string>, canFinish: set<string>)
    requires ends <= canFinish && Expand(transitions, canFinish) == canFinish
    ensures forall n | Finishes(AllEdges(transitions), ends, n) :: n in canFinish
  {
    var g := AllEdges(transitions);
    forall e | e in g && e.1 in canFinish ensures e.0 in canFinish {
      var t :| t in transitions && (t.from, t.to) == e;
      assert t.from in Expand(transitions, canFinish);
    }
    forall n | Finishes(g, ends, n) ensures n in canFinish {
      var end :| end in ends && Reaches(g, n, end);
      var p :| PathBetween(g, p, n, end);
      BackClosedKeepsPath(g, canFinish, p);
    }
  }

  /** The fixpoint: the stages from which an end can be reached. */
  method FinishingStages(ends: set<string>, transitions: seq<Edge>) returns (canFinish: set<string>)
    ensures forall n :: n in canFinish <==> Finishes(AllEdges(transitions), ends, n)
  {
    ghost var sources := set e | e in transitions :: e.from;
    canFinish := ends;
    forall n | n in ends ensures Finishes(AllEdges(transitions), ends, n) {
      ReachesSelf(AllEdges(transitions), n);
    }
    while true
      invariant ends <= canFinish <= ends + sources
      invariant forall n | n in canFinish :: Finishes(AllEdges(transitions), ends, n)
      decreases ends + sources - canFinish
    {
      var expanded := Expand(transitions, canFinish);
      ExpandKeeps(transitions, ends, canFinish);
      if expanded == canFinish {
        break;
      }
      canFinish := expanded;
    }
    ExpandedIsAll(transitions, ends, canFinish);
  }

  /* ---------- the requirements ---------- */

  predicate StageOk(stage: Stage, names: set<string>, transitions: seq<Edge>) {
    stage.savedOk && ValidRoutes(stage.kind, Outgoing(names, transitions, stage.name))
  }

  function Add(errors: seq<Requirement>, r: Requirement): (s: seq<Requirement>)
    ensures forall x :: x in s <==> x in errors || x == r
    ensures Distinct(errors) ==> Distinct(s)
  {
    if r in errors then errors else errors + [r]
  }

  /** A workflow meets the requirements. */
  ghost predicate Activatable(stages: seq<Stage>, transitions: seq<Edge>) {
    var names := Names(stages);
    && CountOf(stages, StartKind) == 1 && CountOf(stages, EndKind) > 0
    && (forall e | e in transitions :: Inside(names, e))
    && (forall s | s in stages :: StageOk(s, names, transitions) && s.kind != Wait)
    && (forall n | n in names ::
          (forall start | start in NamesOf(stages, StartKind) :: Reaches(AllEdges(transitions), start, n))
          && CanFinish(stages, transitions, n))
  }

  lemma NamesOfTail(stages: seq<Stage>, kind: Kind)
    requires stages != []
    ensures NamesOf(stages, kind)
         == NamesOf(stages[1..], kind) + (if stages[0].kind == kind then {stages[0].name} else {})
  {
    var rest := stages[1..];
    assert forall s :: s in stages <==> s == stages[0] || s in rest;
  }

  lemma {:induction false} CountIsNames(stages: seq<Stage>, kind: Kind)
    ensures CountOf(stages, kind) == 0 <==> NamesOf(stages, kind) == {}
    ensures CountOf(stages, kind) == 1 ==> |NamesOf(stages, kind)| == 1
  {
    if stages != [] {
      CountIsNames(stages[1..], kind);
      NamesOfTail(stages, kind);
    }
  }

  ghost predicate SomeEdgeLeaves(names: set<string>, transitions: seq<Edge>) {
    exists e :: e in transitions && !Inside(names, e)
  }

  ghost predicate SomeStageInvalid(names: set<string>, stages: seq<Stage>, transitions: seq<Edge>) {
    exists s :: s in stages && !StageOk(s, names, transitions)
  }

  ghost predicate SomeStageWaits(names: set<string>, stages: seq<Stage>, transitions: seq<Edge>) {
    exists s :: s in stages && StageOk(s, names, transitions) && s.kind == Wait
  }

  method CheckTransitions(names: set<string>, transitions: seq<Edge>, before: seq<Requirement>)
    returns (errors: seq<Requirement>)
    requires LeavesWorkflow !in before && Distinct(before)
    ensures Distinct(errors)
    ensures forall x | x != LeavesWorkflow :: x in errors <==> x in before
    ensures LeavesWorkflow in errors <==> SomeEdgeLeaves(names, transitions)
  {
    errors := before;
    for n := 0 to |transitions|
      invariant forall x | x != LeavesWorkflow :: x in errors <==> x in before
      invariant LeavesWorkflow in errors <==> SomeEdgeLeaves(names, transitions[..n])
      invariant Distinct(errors)
    {
      assert transitions[..n + 1] == transitions[..n] + [transitions[n]];
      if !Inside(names, transitions[n]) {
        errors := Add(errors, LeavesWorkflow);
        assert transitions[n] in transitions[..n + 1];
      }
    }
    assert transitions[..|transitions|] == transitions;
  }

  method CheckStages(names: set<string>, stages: seq<Stage>, transitions: seq<Edge>, before: seq<Requirement>)
    returns (errors: seq<Requirement>)
    requires InvalidStage !in before && WaitUnsupported !in before && Distinct(before)
    ensures Distinct(errors)
    ensures forall x | x != InvalidStage && x != WaitUnsupported :: x in errors <==> x in before
    ensures InvalidStage in errors <==> SomeStageInvalid(names, stages, transitions)
    ensures WaitUnsupported in errors <==> SomeStageWaits(names, stages, transitions)
  {
    errors := before;
    for n := 0 to |stages|
      invariant forall x | x != InvalidStage && x != WaitUnsupported :: x in errors <==> x in before
      invariant Distinct(errors)
      invariant InvalidStage in errors <==> SomeStageInvalid(names, stages[..n], transitions)
      invariant WaitUnsupported in errors <==> SomeStageWaits(names, stages[..n], transitions)
    {
      MoreStages(names, stages[..n], stages[n], transitions);
      assert stages[..n + 1] == stages[..n] + [stages[n]];
      if !StageOk(stages[n], names, transitions) {
        errors := Add(errors, InvalidStage);
      } else if stages[n].kind == Wait {
        errors := Add(errors, WaitUnsupported);
      }
    }
    assert stages[..|stages|] == stages;
  }

  lemma MoreStages(names: set<string>, stages: seq<Stage>, stage: Stage, transitions: seq<Edge>)
    ensures SomeStageInvalid(names, stages + [stage], transitions)
            <==> SomeStageInvalid(names, stages, transitions) || !StageOk(stage, names, transitions)
    ensures SomeStageWaits(names, stages + [stage], transitions)
            <==> SomeStageWaits(names, stages, transitions)
                 || (StageOk(stage, names, transitions) && stage.kind == Wait)
  {
    assert forall s :: s in stages + [stage] <==> s in stages || s == stage;
  }

  ghost predicate AllConnected(stages: seq<Stage>, transitions: seq<Edge>) {
    forall start | start in NamesOf(stages, StartKind) :: Connected(stages, transitions, start)
  }

  method CheckConnected(stages: seq<Stage>, transitions: seq<Edge>) returns (ok: bool)
    requires CountOf(stages, StartKind) == 1
    ensures ok <==> AllConnected(stages, transitions)
  {
    var names, starts := Names(stages), NamesOf(stages, StartKind);
    CountIsNames(stages, StartKind);
    assert starts != {};
    var start :| start in starts;
    SingletonSet(starts, start);
    var reached := ReachedFrom(names, transitions, start);
    var canFinish := FinishingStages(NamesOf(stages, EndKind), transitions);
    InnerStaysInside(names, transitions, start);
    assert reached <= names;
    assert (forall n | CanFinish(stages, transitions, n) :: n in names) <==> canFinish <= names by {
      assert forall n :: n in canFinish <==> CanFinish(stages, transitions, n);
    }
    ok := reached == names && canFinish == names;
  }

  lemma InnerStaysInside(names: set<string>, transitions: seq<Edge>, start: string)
    requires start in names
    ensures forall n | Reaches(InnerEdges(names, transitions), start, n) :: n in names
  {
    ClosedKeepsReach(InnerEdges(names, transitions), names, start);
  }

  /** The requirements that are not met, each once. */
  method MissingRequirements(stages: seq<Stage>, transitions: seq<Edge>) returns (errors: seq<Requirement>)
    ensures Distinct(errors)
    ensures NeedsStartAndEnd in errors <==> CountOf(stages, StartKind) != 1 || CountOf(stages, EndKind) == 0
    ensures LeavesWorkflow in errors <==> SomeEdgeLeaves(Names(stages), transitions)
    ensures InvalidStage in errors <==> SomeStageInvalid(Names(stages), stages, transitions)
    ensures WaitUnsupported in errors <==> SomeStageWaits(Names(stages), stages, transitions)
    ensures Disconnected in errors <==> CountOf(stages, StartKind) == 1 && !AllConnected(stages, transitions)
  {
    var names := Names(stages);
    errors := CheckEnds(stages);
    errors := CheckTransitions(names, transitions, errors);
    errors := CheckStages(names, stages, transitions, errors);
    if CountOf(stages, StartKind) == 1 {
      var ok := CheckConnected(stages, transitions);
      if !ok {
        errors := Add(errors, Disconnected);
      }
    }
  }

  method CheckEnds(stages: seq<Stage>) returns (errors: seq<Requirement>)
    ensures errors
         == if CountOf(stages, StartKind) != 1 || CountOf(stages, EndKind) == 0 then [NeedsStartAndEnd] else []
  {
    errors := [];
    CountIsNames(stages, EndKind);
    if CountOf(stages, StartKind) != 1 || NamesOf(stages, EndKind) == {} {
      errors := errors + [NeedsStartAndEnd];
    }
  }

  /** Nothing is missing exactly when the workflow is activatable: its one start reaches every
      stage and every stage reaches an end. */
  method ActivationRequirements(stages: seq<Stage>, transitions: seq<Edge>) returns (errors: seq<Requirement>)
    ensures errors == [] <==> Activatable(stages, transitions)
    ensures Distinct(errors)
  {
    errors := MissingRequirements(stages, transitions);
    NoRequirementLeft(stages, transitions);
    EmptyExactly(errors);
  }

  /** The five requirements together are the definition of an activatable workflow. */
  lemma NoRequirementLeft(stages: seq<Stage>, transitions: seq<Edge>)
    ensures Activatable(stages, transitions) <==>
      && CountOf(stages, StartKind) == 1 && CountOf(stages, EndKind) != 0
      && !SomeEdgeLeaves(Names(stages), transitions)
      && !SomeStageInvalid(Names(stages), stages, transitions)
      && !SomeStageWaits(Names(stages), stages, transitions)
      && AllConnected(stages, transitions)
  {
    var names := Names(stages);
    CountIsNames(stages, StartKind);
    if !SomeEdgeLeaves(names, transitions) {
      assert InnerEdges(names, transitions) == AllEdges(transitions);
      forall n | CanFinish(stages, transitions, n) ensures n in names {
        var end :| end in NamesOf(stages, EndKind) && Reaches(AllEdges(transitions), n, end);
        var p :| PathBetween(AllEdges(transitions), p, n, end);
        BackClosedKeepsPath(AllEdges(transitions), names, p);
      }
    }
  }

  lemma SingletonSet(s: set<string>, x: string)
    requires |s| == 1 && x in s
    ensures s == {x}
  {
    assert |s - {x}| == 0;
  }

  lemma EmptyExactly(errors: seq<Requirement>)
    ensures errors == [] <==>
      NeedsStartAndEnd !in errors && LeavesWorkflow !in errors && WaitUnsupported !in errors
      && InvalidStage !in errors && Disconnected !in errors
  {
    if errors != [] {
      var r := errors[0];
      assert r in errors;
      assert r == NeedsStartAndEnd || r == LeavesWorkflow || r == WaitUnsupported || r == InvalidStage
             || r == Disconnected;
    }
  }

  /* ---------- the verdict in parts ---------- */

  /** Every stage on a path from the start to an end, as activation demands of the graph. */
  ghost predicate WellConnected(stages: seq<Stage>, transitions: seq<Edge>) {
    forall n | n in Names(stages) ::
      (forall start | start in NamesOf(stages, StartKind) :: Reaches(AllEdges(transitions), start, n))
      && CanFinish(stages, transitions, n)
  }

  predicate Passes(stages: seq<Stage>, edges: seq<Edge>, i: nat)
    requires i < |stages|
  {
    StageOk(stages[i], Names(stages), edges) && stages[i].kind != Wait
  }

  ghost predicate StagesOk(stages: seq<Stage>, edges: seq<Edge>) {
    forall i | 0 <= i < |stages| :: Passes(stages, edges, i)
  }

  lemma StagesOkEach(stages: seq<Stage>, edges: seq<Edge>)
    ensures StagesOk(stages, edges) <==> forall s | s in stages :: StageOk(s, Names(stages), edges) && s.kind != Wait
  {
    if StagesOk(stages, edges) {
      forall s | s in stages ensures StageOk(s, Names(stages), edges) && s.kind != Wait {
        var i :| 0 <= i < |stages| && stages[i] == s;
        assert Passes(stages, edges, i);
      }
    }
    if forall s | s in stages :: StageOk(s, Names(stages), edges) && s.kind != Wait {
      forall i | 0 <= i < |stages| ensures Passes(stages, edges, i) {
        assert stages[i] in stages;
      }
    }
  }

  lemma ActivatableInParts(stages: seq<Stage>, edges: seq<Edge>)
    ensures Activatable(stages, edges) <==>
      && CountOf(stages, StartKind) == 1 && CountOf(stages, EndKind) > 0
      && (forall e | e in edges :: Inside(Names(stages), e))
      && StagesOk(stages, edges) && WellConnected(stages, edges)
  {
    StagesOkEach(stages, edges);
  }
}
